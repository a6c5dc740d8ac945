/** What a compressed file means, and what a streaming decoder owes its caller.

    A file is a run of frames, one after another. `Decoded` gives its meaning without
    mentioning buffers, reads or decoder state; `MeetsContract` is all that the devices
    assume about libzstd or liblz4. */
module StreamFormat {

  import opened Bytes

  /** A frame format: which byte strings are one whole frame, and what the bytes seen so
      far of a frame determine of its content. */
  datatype Format = Format(complete: bytes -> bool, avail: bytes -> bytes)

  ghost predicate ValidFormat(fmt: Format) {
    && !fmt.complete([])
    && fmt.avail([]) == []
    && (forall f, g :: fmt.complete(f) && fmt.complete(g) && f <= g ==> f == g)
    && (forall p, q :: p <= q ==> fmt.avail(p) <= fmt.avail(q))
  }

  /** The content of a file, and whether the file is whole frames up to its last byte. */
  datatype Outcome = Outcome(out: bytes, ok: bool)

  ghost predicate FrameEndsAt(fmt: Format, file: bytes, k: nat) {
    0 < k <= |file| && fmt.complete(file[..k])
  }

  ghost function Decoded(fmt: Format, file: bytes): Outcome
    decreases |file|
  {
    if file == [] then Outcome([], true)
    else if exists k: nat :: FrameEndsAt(fmt, file, k) then
      var k: nat :| FrameEndsAt(fmt, file, k);
      var rest := Decoded(fmt, file[k..]);
      Outcome(fmt.avail(file[..k]) + rest.out, rest.ok)
    else Outcome(fmt.avail(file), false)
  }

  /** The content of the whole frames a file begins with. */
  ghost function GoodPart(fmt: Format, file: bytes): bytes
    decreases |file|
  {
    if exists k: nat :: FrameEndsAt(fmt, file, k) then
      var k: nat :| FrameEndsAt(fmt, file, k);
      fmt.avail(file[..k]) + GoodPart(fmt, file[k..])
    else []
  }

  /** Whatever follows, the file is never whole. */
  ghost predicate Hopeless(fmt: Format, file: bytes) {
    forall more: bytes :: !Decoded(fmt, file + more).ok
  }

  /** All frames that ended before the last byte seen were handed out. */
  ghost predicate GoodPartHanded(fmt: Format, seen: bytes, handed: bytes) {
    seen != [] ==> GoodPart(fmt, seen[..|seen| - 1]) <= handed
  }

  lemma OnePrefixOfBoth(p: bytes, q: bytes, s: bytes)
    requires p <= s && q <= s
    ensures p <= q || q <= p
  {
  }

  /** Peeling one frame off the front does not depend on how the frame's end was found. */
  lemma DecodedFrame(fmt: Format, frame: bytes, rest: bytes)
    requires ValidFormat(fmt) && fmt.complete(frame)
    ensures Decoded(fmt, frame + rest)
         == Outcome(fmt.avail(frame) + Decoded(fmt, rest).out, Decoded(fmt, rest).ok)
    ensures GoodPart(fmt, frame + rest) == fmt.avail(frame) + GoodPart(fmt, rest)
  {
    var file := frame + rest;
    assert file[..|frame|] == frame;
    assert FrameEndsAt(fmt, file, |frame|);
    forall k: nat | FrameEndsAt(fmt, file, k) ensures k == |frame| {
      OnePrefixOfBoth(file[..k], frame, file);
    }
    assert file[|frame|..] == rest;
  }

  lemma OkHasFrame(fmt: Format, file: bytes)
    requires Decoded(fmt, file).ok && file != []
    ensures exists k: nat :: FrameEndsAt(fmt, file, k)
  {
  }

  function Flatten(parts: seq<bytes>): bytes {
    if parts == [] then [] else parts[0] + Flatten(parts[1..])
  }

  ghost predicate AllComplete(fmt: Format, frames: seq<bytes>) {
    forall i :: 0 <= i < |frames| ==> fmt.complete(frames[i])
  }

  ghost function Contents(fmt: Format, frames: seq<bytes>): bytes {
    if frames == [] then [] else fmt.avail(frames[0]) + Contents(fmt, frames[1..])
  }

  /** Several frames one after another decode to their contents one after another, and the
      bytes that follow the last whole frame decide alone whether the file is whole. */
  lemma {:induction false} DecodedFrames(fmt: Format, frames: seq<bytes>, tail: bytes)
    requires ValidFormat(fmt) && AllComplete(fmt, frames)
    ensures Decoded(fmt, Flatten(frames) + tail)
         == Outcome(Contents(fmt, frames) + Decoded(fmt, tail).out, Decoded(fmt, tail).ok)
    ensures GoodPart(fmt, Flatten(frames) + tail) == Contents(fmt, frames) + GoodPart(fmt, tail)
  {
    hide Decoded, GoodPart, ValidFormat;
    if frames == [] {
      assert Flatten(frames) + tail == tail;
      assert Contents(fmt, frames) + Decoded(fmt, tail).out == Decoded(fmt, tail).out;
      assert Contents(fmt, frames) + GoodPart(fmt, tail) == GoodPart(fmt, tail);
    } else {
      var first, more := frames[0], frames[1..];
      DecodedFrames(fmt, more, tail);
      assert Flatten(frames) + tail == first + (Flatten(more) + tail);
      DecodedFrame(fmt, first, Flatten(more) + tail);
      assert fmt.avail(first) + (Contents(fmt, more) + Decoded(fmt, tail).out)
          == Contents(fmt, frames) + Decoded(fmt, tail).out;
      assert fmt.avail(first) + (Contents(fmt, more) + GoodPart(fmt, tail))
           == Contents(fmt, frames) + GoodPart(fmt, tail);
    }
  }

  /** A frame that ends in a beginning of the file ends in the file. */
  lemma FrameEndsFurtherOn(fmt: Format, p: bytes, q: bytes, k: nat)
    requires p <= q && FrameEndsAt(fmt, p, k)
    ensures FrameEndsAt(fmt, q, k) && p[..k] == q[..k] && p[k..] <= q[k..]
  {
    assert p[..k] == q[..k];
  }

  /** More of the file can only add to its good part. */
  lemma {:induction false} GoodPartGrows(fmt: Format, p: bytes, q: bytes)
    requires ValidFormat(fmt) && p <= q
    ensures GoodPart(fmt, p) <= GoodPart(fmt, q)
    decreases |p|
  {
    if exists k: nat :: FrameEndsAt(fmt, p, k) {
      var k: nat :| FrameEndsAt(fmt, p, k);
      FrameEndsFurtherOn(fmt, p, q, k);
      assert p == p[..k] + p[k..] && q == p[..k] + q[k..];
      DecodedFrame(fmt, p[..k], p[k..]);
      DecodedFrame(fmt, p[..k], q[k..]);
      GoodPartGrows(fmt, p[k..], q[k..]);
    }
  }

  /** A file is accepted exactly when it is a run of whole frames; its content is then
      theirs, in order. */
  lemma {:induction false} DecodedOkIffFrames(fmt: Format, file: bytes)
    requires ValidFormat(fmt)
    ensures Decoded(fmt, file).ok
       <==> exists frames: seq<bytes> :: AllComplete(fmt, frames) && Flatten(frames) == file
    ensures forall frames: seq<bytes> :: AllComplete(fmt, frames) && Flatten(frames) == file
              ==> Decoded(fmt, file).out == Contents(fmt, frames)
  {
    forall frames: seq<bytes> | AllComplete(fmt, frames) && Flatten(frames) == file
      ensures Decoded(fmt, file) == Outcome(Contents(fmt, frames), true)
    {
      DecodedFrames(fmt, frames, []);
      assert Flatten(frames) + [] == file;
      assert Contents(fmt, frames) + [] == Contents(fmt, frames);
    }
    if Decoded(fmt, file).ok {
      var frames := SplitIntoFrames(fmt, file);
    }
  }

  lemma {:induction false} SplitIntoFrames(fmt: Format, file: bytes) returns (frames: seq<bytes>)
    requires ValidFormat(fmt) && Decoded(fmt, file).ok
    ensures AllComplete(fmt, frames) && Flatten(frames) == file
    decreases |file|
  {
    hide Decoded, ValidFormat;
    if file == [] {
      frames := [];
    } else {
      OkHasFrame(fmt, file);
      var k: nat :| FrameEndsAt(fmt, file, k);
      var first, after := file[..k], file[k..];
      assert file == first + after;
      DecodedFrame(fmt, first, after);
      var rest := SplitIntoFrames(fmt, after);
      frames := [first] + rest;
      assert frames[1..] == rest;
    }
  }

  // ---------- The decoder's side ----------

  /** rc == 0 (zstd) or hint == 0 (lz4); any other count; an error code. */
  datatype Status = FrameEnded | MoreToDo | Corrupt

  datatype StepResult<S> = StepResult(state: S, consumed: nat, output: bytes, status: Status)

  /** A decoding context: its fresh state, and one call on some input with room for output. */
  datatype Codec<!S> = Codec(start: S, step: (S, bytes, nat) -> StepResult<S>)

  /** No file that goes on from `seen` starts with a whole frame. */
  ghost predicate Dead(fmt: Format, seen: bytes) {
    forall file: bytes, k: nat :: seen <= file ==> !FrameEndsAt(fmt, file, k)
  }

  ghost predicate NoEarlierEnd(fmt: Format, cur: bytes) {
    forall k: nat :: k < |cur| ==> !FrameEndsAt(fmt, cur, k)
  }

  /** One call, made after `c` was consumed of a frame and `p` handed out of its content. */
  ghost predicate StepMeetsContract<S(!new)>(codec: Codec<S>, fmt: Format, rel: (S, bytes, bytes) -> bool,
                                             s: S, c: bytes, p: bytes, input: bytes, room: nat)
  {
    var r := codec.step(s, input, room);
    && r.consumed <= |input|
    && |r.output| <= room
    && var c' := c + input[..r.consumed];
       var p' := p + r.output;
       && p' <= fmt.avail(c')
       && (r.status != Corrupt && input != [] && room > 0 ==> r.consumed > 0 || r.output != [])
       && match r.status
          case FrameEnded => fmt.complete(c') && p' == fmt.avail(c') && rel(r.state, [], [])
          case MoreToDo =>
            && rel(r.state, c', p')
            && NoEarlierEnd(fmt, c')
            && (input == [] && room > 0 && r.output == [] ==> p' == fmt.avail(c') && !fmt.complete(c'))
          case Corrupt => Dead(fmt, c + input)
  }

  /** `rel` says which states stand for which progress inside the current frame. */
  ghost predicate MeetsContract<S(!new)>(codec: Codec<S>, fmt: Format, rel: (S, bytes, bytes) -> bool) {
    && ValidFormat(fmt)
    && rel(codec.start, [], [])
    && forall s, c, p, input, room: nat | rel(s, c, p) ::
         StepMeetsContract(codec, fmt, rel, s, c, p, input, room)
  }

  // ---------- Bookkeeping shared by the two devices ----------

  /** The finished frames, their bytes and their content; of the current one the bytes consumed
      and what was handed out. */
  datatype Account = Account(frames: seq<bytes>, doneIn: bytes, doneOut: bytes, cur: bytes, curOut: bytes) {
    function Handed(): bytes { doneOut + curOut }
  }

  const NoProgress := Account([], [], [], [], [])

  function Advance<S>(a: Account, input: bytes, r: StepResult<S>): Account
    requires r.consumed <= |input|
  {
    var cur, curOut := a.cur + input[..r.consumed], a.curOut + r.output;
    if r.status == FrameEnded then Account(a.frames + [cur], a.doneIn + cur, a.doneOut + curOut, [], [])
    else a.(cur := cur, curOut := curOut)
  }

  /** The finished frames are whole ones, and all of their content was handed out. */
  ghost predicate FramesDone(fmt: Format, a: Account) {
    AllComplete(fmt, a.frames) && Flatten(a.frames) == a.doneIn && Contents(fmt, a.frames) == a.doneOut
  }

  /** The bookkeeping agrees with the file: `rest` is what the decoder has not seen yet. */
  ghost predicate Consistent<S(!new)>(fmt: Format, rel: (S, bytes, bytes) -> bool,
                                      data: bytes, a: Account, s: S, rest: bytes)
  {
    && FramesDone(fmt, a)
    && data == a.doneIn + a.cur + rest
    && rel(s, a.cur, a.curOut)
    && a.curOut <= fmt.avail(a.cur)
    && NoEarlierEnd(fmt, a.cur)
  }

  /** What is still to come decides the rest of the meaning, whatever follows the file. */
  lemma Remaining(fmt: Format, a: Account, tail: bytes)
    requires ValidFormat(fmt) && FramesDone(fmt, a)
    ensures Decoded(fmt, a.doneIn + tail) == Outcome(a.doneOut + Decoded(fmt, tail).out, Decoded(fmt, tail).ok)
    ensures GoodPart(fmt, a.doneIn + tail) == a.doneOut + GoodPart(fmt, tail)
  {
    DecodedFrames(fmt, a.frames, tail);
  }

  lemma {:induction false} FramesMore(fmt: Format, frames: seq<bytes>, frame: bytes)
    ensures Flatten(frames + [frame]) == Flatten(frames) + frame
    ensures Contents(fmt, frames + [frame]) == Contents(fmt, frames) + fmt.avail(frame)
  {
    if frames == [] {
      assert [] + [frame] == [frame] && [frame][1..] == [];
      assert Flatten([frame]) == frame + [] && Contents(fmt, [frame]) == fmt.avail(frame) + [];
    } else {
      assert (frames + [frame])[1..] == frames[1..] + [frame];
      FramesMore(fmt, frames[1..], frame);
    }
  }

  lemma ConsistentAtStart<S(!new)>(codec: Codec<S>, fmt: Format, rel: (S, bytes, bytes) -> bool, data: bytes)
    requires MeetsContract(codec, fmt, rel)
    ensures Consistent(fmt, rel, data, NoProgress, codec.start, data)
    ensures NoProgress.Handed() <= Decoded(fmt, data).out
  {
    assert [] + [] + data == data;
  }

  /** What was handed out is always the beginning of the file's content. */
  lemma HandedIsPrefix<S(!new)>(fmt: Format, rel: (S, bytes, bytes) -> bool,
                                data: bytes, a: Account, s: S, rest: bytes)
    requires ValidFormat(fmt) && Consistent(fmt, rel, data, a, s, rest)
    ensures a.Handed() <= Decoded(fmt, data).out
  {
    hide Decoded, GoodPart, FramesDone;
    var t := a.cur + rest;
    assert data == a.doneIn + t;
    Remaining(fmt, a, t);
    FrameIsPrefix(fmt, a.cur, rest);
    assert a.doneOut + a.curOut <= a.doneOut + Decoded(fmt, t).out;
  }

  /** What is known of an unfinished frame's content is the beginning of what follows. */
  lemma FrameIsPrefix(fmt: Format, cur: bytes, rest: bytes)
    requires ValidFormat(fmt) && NoEarlierEnd(fmt, cur)
    ensures fmt.avail(cur) <= Decoded(fmt, cur + rest).out
  {
    var t := cur + rest;
    if k: nat :| FrameEndsAt(fmt, t, k) {
      var frame, after := t[..k], t[k..];
      assert t == frame + after;
      NoFrameInside(fmt, cur, t, k);
      DecodedFrame(fmt, frame, after);
      assert fmt.avail(cur) <= fmt.avail(frame) <= fmt.avail(frame) + Decoded(fmt, after).out;
    } else {
      assert fmt.avail(cur) <= fmt.avail(t);
    }
  }

  lemma NoFrameInside(fmt: Format, cur: bytes, file: bytes, k: nat)
    requires NoEarlierEnd(fmt, cur) && cur <= file && FrameEndsAt(fmt, file, k)
    ensures cur <= file[..k]
  {
    assert k <= |cur| ==> file[..k] == cur[..k];
    assert k < |cur| ==> !FrameEndsAt(fmt, cur, k);
  }

  /** One decoder call keeps the bookkeeping in step with the file. An error means that nothing
      can make the file whole, and all its whole frames were handed out by then. */
  lemma StepKeeps<S(!new)>(codec: Codec<S>, fmt: Format, rel: (S, bytes, bytes) -> bool,
                           data: bytes, a: Account, s: S, rest: bytes, input: bytes, room: nat)
    requires MeetsContract(codec, fmt, rel)
    requires Consistent(fmt, rel, data, a, s, rest) && input <= rest && a.cur + input != [] && room > 0
    ensures var r := codec.step(s, input, room);
            r.consumed <= |input| && |r.output| <= room
    ensures var r := codec.step(s, input, room); var a' := Advance(a, input, r);
            && a'.Handed() == a.Handed() + r.output
            && a'.Handed() <= Decoded(fmt, data).out
            && (r.status != Corrupt ==>
                  && Consistent(fmt, rel, data, a', r.state, rest[r.consumed..])
                  && (a'.cur != [] <==> r.status != FrameEnded)
                  && (input != [] ==> r.consumed > 0 || r.output != []))
            && (r.status == Corrupt ==> Hopeless(fmt, data) && GoodPart(fmt, data) <= a'.Handed())
            && (r.status == MoreToDo && rest == [] && r.output == [] ==>
                  Decoded(fmt, data) == Outcome(a'.Handed(), false) && GoodPart(fmt, data) <= a'.Handed())
  {
    hide Decoded, GoodPart, Hopeless, FramesDone;
    var r := codec.step(s, input, room);
    assert StepMeetsContract(codec, fmt, rel, s, a.cur, a.curOut, input, room);
    var a' := Advance(a, input, r);
    assert a'.Handed() == a.Handed() + r.output;
    if r.status == Corrupt {
      CorruptStep(fmt, rel, data, a, s, rest, input, r);
    } else {
      StepConsistent(fmt, rel, data, a, s, rest, input, r);
      HandedIsPrefix(fmt, rel, data, a', r.state, rest[r.consumed..]);
      if r.status == MoreToDo {
        assert a'.cur == [] ==> r.output == [];
        if rest == [] {
          assert rest[r.consumed..] == [];
          AtEndOfFile(codec, fmt, rel, data, a', r.state);
        }
      }
    }
  }

  lemma StepConsistent<S(!new)>(fmt: Format, rel: (S, bytes, bytes) -> bool, data: bytes,
                                a: Account, s: S, rest: bytes, input: bytes, r: StepResult<S>)
    requires ValidFormat(fmt) && Consistent(fmt, rel, data, a, s, rest) && input <= rest
    requires r.consumed <= |input|
    requires var c := a.cur + input[..r.consumed]; var p := a.curOut + r.output;
             || (r.status == FrameEnded && fmt.complete(c) && p == fmt.avail(c) && rel(r.state, [], []))
             || (r.status == MoreToDo && rel(r.state, c, p) && p <= fmt.avail(c) && NoEarlierEnd(fmt, c))
    ensures Consistent(fmt, rel, data, Advance(a, input, r), r.state, rest[r.consumed..])
  {
    hide FrameEndsAt, ValidFormat, Flatten, Contents;
    var cur := a.cur + input[..r.consumed];
    var rest' := rest[r.consumed..];
    assert data == a.doneIn + cur + rest' by {
      assert rest == input[..r.consumed] + rest';
      assert a.doneIn + a.cur + rest == a.doneIn + (a.cur + rest);
    }
    if r.status == FrameEnded {
      FramesMore(fmt, a.frames, cur);
      assert a.doneIn + cur + rest' == (a.doneIn + cur) + [] + rest';
    }
  }

  lemma CorruptStep<S(!new)>(fmt: Format, rel: (S, bytes, bytes) -> bool, data: bytes,
                             a: Account, s: S, rest: bytes, input: bytes, r: StepResult<S>)
    requires ValidFormat(fmt) && Consistent(fmt, rel, data, a, s, rest) && input <= rest
    requires a.cur + input != [] && r.consumed <= |input| && r.status == Corrupt
    requires Dead(fmt, a.cur + input)
    requires a.curOut + r.output <= fmt.avail(a.cur + input[..r.consumed])
    ensures Hopeless(fmt, data) && GoodPart(fmt, data) <= a.doneOut
    ensures Advance(a, input, r).Handed() <= Decoded(fmt, data).out
  {
    hide Decoded, GoodPart, FramesDone;
    var cur, t := a.cur + input[..r.consumed], a.cur + rest;
    assert data == a.doneIn + t;
    Remaining(fmt, a, t);
    NoFrameIsNotOk(fmt, a.cur + input, t);
    assert a.doneOut + [] == a.doneOut;
    forall more: bytes ensures !Decoded(fmt, data + more).ok {
      assert data + more == a.doneIn + (t + more);
      Remaining(fmt, a, t + more);
      NoFrameIsNotOk(fmt, a.cur + input, t + more);
    }
    assert cur <= t;
    assert fmt.avail(cur) <= fmt.avail(t);
    assert a.doneOut + (a.curOut + r.output) <= a.doneOut + fmt.avail(t);
  }

  /** Where no frame can start there is none, and the file is not whole. */
  lemma NoFrameIsNotOk(fmt: Format, seen: bytes, file: bytes)
    requires Dead(fmt, seen) && seen <= file && file != []
    ensures Decoded(fmt, file) == Outcome(fmt.avail(file), false) && GoodPart(fmt, file) == []
  {
    forall k: nat ensures !FrameEndsAt(fmt, file, k) {}
  }

  /** Nothing left to read: the file is whole exactly when no frame is open, and a frame the
      decoder cannot take further is a truncated one whose content was all handed out. */
  lemma AtEndOfFile<S(!new)>(codec: Codec<S>, fmt: Format, rel: (S, bytes, bytes) -> bool,
                             data: bytes, a: Account, s: S)
    requires MeetsContract(codec, fmt, rel) && Consistent(fmt, rel, data, a, s, [])
    ensures a.cur == [] ==> Decoded(fmt, data) == Outcome(a.Handed(), true)
    ensures a.cur != [] && !fmt.complete(a.cur) ==> GoodPart(fmt, data) == a.doneOut
    ensures a.cur != [] && !fmt.complete(a.cur) && a.curOut == fmt.avail(a.cur)
            ==> Decoded(fmt, data) == Outcome(a.Handed(), false)
  {
    hide FramesDone;
    assert data == a.doneIn + a.cur;
    Remaining(fmt, a, a.cur);
    assert a.doneOut + [] == a.doneOut;
    if a.cur != [] && !fmt.complete(a.cur) {
      forall k: nat ensures !FrameEndsAt(fmt, a.cur, k) {
        if k == |a.cur| { assert a.cur[..k] == a.cur; }
      }
    }
  }

  /** Reading stopped after some bytes, all of them consumed: all frames that ended before the
      last of those bytes were handed out. */
  lemma StoppedAfter<S(!new)>(codec: Codec<S>, fmt: Format, rel: (S, bytes, bytes) -> bool,
                              data: bytes, a: Account, s: S, n: nat)
    requires MeetsContract(codec, fmt, rel) && n <= |data| && Consistent(fmt, rel, data, a, s, data[n..])
    ensures GoodPartHanded(fmt, data[..n], a.Handed())
  {
    hide FramesDone, GoodPart, Decoded;
    assert data[..n] == a.doneIn + a.cur by {
      assert |a.doneIn + a.cur| == n;
    }
    if n > 0 {
      var seen := data[..n - 1];
      if a.cur == [] {
        Remaining(fmt, a, []);
        assert seen <= a.doneIn + [] by { assert a.doneIn + [] == data[..n]; }
        GoodPartGrows(fmt, seen, a.doneIn + []);
        NoGoodPart(fmt, []);
      } else {
        var begun := a.cur[..|a.cur| - 1];
        assert data[..n][..n - 1] == seen == a.doneIn + begun;
        Remaining(fmt, a, begun);
        forall k: nat ensures !FrameEndsAt(fmt, begun, k) {
          if k <= |begun| { assert begun[..k] == a.cur[..k] && !FrameEndsAt(fmt, a.cur, k); }
        }
        NoGoodPart(fmt, begun);
      }
      assert data[..n][..n - 1] == seen;
    }
  }

  lemma HopelessIsNotOk(fmt: Format, file: bytes)
    requires Hopeless(fmt, file)
    ensures !Decoded(fmt, file).ok
  {
    assert file + [] == file;
  }

  lemma NoGoodPart(fmt: Format, file: bytes)
    requires forall k: nat :: !FrameEndsAt(fmt, file, k)
    ensures GoodPart(fmt, file) == []
  {
  }
}
