/** The lz4 stream device: the same promise to its readers as the zstd one, over liblz4's
    sizes in and out (src/compression/src/lz4device.cpp). */
module Lz4Devices {
  import opened Options
  import opened Bytes
  import opened StreamFormat
  import opened SourceFiles

  class Lz4Device<S(!new)> {
    const codec: Codec<S>
    ghost const fmt: Format
    ghost const rel: (S, bytes, bytes) -> bool
    const file: SourceFile

    var isOpen: bool
    var dctx: Option<S>
    // the bytes of the input buffer that the last refill filled, inSize of them
    var inBuf: bytes
    var inPos: nat
    var fileExhausted: bool
    var frameInProgress: bool
    var finished: bool
    var failed: bool
    var reason: Reason

    // What has been decoded since the device was opened.
    ghost var account: Account

    ghost function Unread(): bytes
      reads this, file
      requires file.Valid() && inPos <= |inBuf|
    {
      inBuf[inPos..] + file.data[file.pos..]
    }

    /** The bytes handed out since the device was opened. */
    ghost function Handed(): bytes reads this { account.Handed() }

    ghost function Content(): Outcome { Decoded(fmt, file.data) }

    ghost predicate Buffered() reads this, file {
      && MeetsContract(codec, fmt, rel)
      && file.Valid()
      && inPos <= |inBuf| <= INPUT_BUFFER_SIZE
    }

    /** A context is in use exactly while there is more to decode. */
    ghost predicate Decoding() reads this, file {
      && Buffered() && isOpen && file.isOpen && !file.faulted && dctx.Some? && !finished && !failed
      && Consistent(fmt, rel, file.data, account, dctx.value, Unread())
      && Handed() <= Content().out
      && (frameInProgress <==> account.cur != [])
      && (fileExhausted ==> file.pos == |file.data|)
    }

    ghost predicate Finished() reads this, file {
      && Buffered() && isOpen && file.isOpen && !file.faulted && finished && !failed
      && Content() == Outcome(Handed(), true)
    }

    /** What is known when decoding stops early for the given reason. After an error of the
        decoder no more bytes could make the file whole, after a truncated frame nothing of the
        content is left; either way all whole frames were handed out. After an error of the file
        all that ended before the last byte read were. */
    ghost predicate Broken(why: Reason) reads this, file {
      && Buffered() && isOpen && file.isOpen
      && account.Handed() <= Content().out && (file.faulted <==> why == ReadError)
      && match why
         case NoError => false
         case ReadError => GoodPartHanded(fmt, file.data[..file.pos], Handed())
         case DecoderError => Hopeless(fmt, file.data) && GoodPart(fmt, file.data) <= Handed()
         case TruncatedFrame => Content() == Outcome(Handed(), false) && GoodPart(fmt, file.data) <= Handed()
    }

    ghost predicate Failed() reads this, file {
      Broken(reason) && dctx.None? && finished && failed
    }

    ghost predicate Closed() reads this, file {
      Buffered() && !isOpen && dctx.None? && !file.isOpen
    }

    ghost predicate Valid() reads this, file {
      Decoding() || Finished() || Failed() || Closed()
    }

    constructor (codec: Codec<S>, ghost fmt: Format, ghost rel: (S, bytes, bytes) -> bool, file: SourceFile)
      requires MeetsContract(codec, fmt, rel) && file.Valid() && !file.isOpen
      ensures Closed() && !finished && !failed
      ensures this.codec == codec && this.fmt == fmt && this.rel == rel && this.file == file
    {
      this.codec, this.fmt, this.rel, this.file := codec, fmt, rel, file;
      isOpen, dctx := false, None;
      inBuf, inPos := [], 0;
      fileExhausted, frameInProgress, finished, failed := false, false, false, false;
      reason := NoError;
      account := NoProgress;
    }

    /** Opening starts over from the first byte of the file, whatever was read before. */
    method Open() returns (ok: bool)
      requires Valid()
      modifies this, file
      ensures ok ==> Decoding() && Handed() == [] && !file.faulted
      ensures !ok && !old(isOpen) ==> Closed() && file.faulted
      ensures old(isOpen) ==> !ok && unchanged(this) && unchanged(file)
    {
      hide MeetsContract, Consistent, Decoded, GoodPart, Hopeless, GoodPartHanded;
      if isOpen { return false; }
      ok := file.Open();
      if !ok { return; }
      if * {
        // no memory for a context
        dctx := None;
        file.Close();
        file.faulted := true;
        return false;
      }
      Start();
    }

    /** A fresh context, an empty buffer, and nothing decoded. */
    method Start()
      requires MeetsContract(codec, fmt, rel) && file.Valid() && file.isOpen && file.pos == 0 && !file.faulted
      modifies this
      ensures Decoding() && Handed() == []
    {
      hide MeetsContract, Consistent, Decoded, GoodPart, Hopeless, GoodPartHanded;
      dctx := Some(codec.start);
      inBuf, inPos := [], 0;
      fileExhausted, frameInProgress, finished, failed := false, false, false, false;
      isOpen := true;
      reason := NoError;
      account := NoProgress;
      assert Unread() == file.data;
      ConsistentAtStart(codec, fmt, rel, file.data);
    }

    method Close()
      requires Valid()
      modifies this, file
      ensures Closed() && finished
      ensures file.faulted == old(file.faulted) && file.pos == old(file.pos)
    {
      hide MeetsContract, Consistent, Decoded, GoodPart, Hopeless, GoodPartHanded;
      dctx := None;
      file.Close();
      fileExhausted, finished := true, true;
      isOpen := false;
    }

    predicate AtEnd() reads this {
      !isOpen || (finished && !failed)
    }

    /** However a device failed, the file's good part was handed out. */
    lemma FailedBreaksOff()
      requires Failed()
      ensures BreaksOff(fmt, file, Handed())
    {
      if reason == DecoderError { HopelessIsNotOk(fmt, file.data); }
    }

    /** Gives up the context; what this call decoded before the error is still handed out. */
    method Fail(why: Reason, decoded: nat) returns (n: int)
      requires Broken(why)
      modifies this
      ensures Failed() && account == old(account) && isOpen == old(isOpen) && reason == why
      ensures BreaksOff(fmt, file, Handed())
      ensures n == if decoded > 0 then decoded else -1
    {
      hide MeetsContract, Decoded;
      dctx := None;
      finished, failed := true, true;
      reason := why;
      FailedBreaksOff();
      return if decoded > 0 then decoded else -1;
    }

    method Refill() returns (ok: bool)
      requires Decoding() && inPos >= |inBuf| && !fileExhausted
      modifies this`inPos, this`inBuf, this`fileExhausted, file
      ensures ok ==> Decoding()
      ensures ok ==> |file.data| - file.pos + (if fileExhausted then 0 else 1) < |file.data| - old(file.pos) + 1
      ensures ok ==> inPos < |inBuf| || fileExhausted
      ensures !ok ==> Broken(ReadError) && file.faulted
    {
      hide MeetsContract, Consistent, Decoded, GoodPart, Hopeless, GoodPartHanded;
      ghost var p := file.pos;
      assert Unread() == file.data[p..];
      StoppedAfter(codec, fmt, rel, file.data, account, dctx.value, p);
      var bytesRead, chunk := file.Read(INPUT_BUFFER_SIZE);
      if bytesRead < 0 { return false; }
      RefillKeepsOrder(inBuf, inPos, file.data, p, bytesRead);
      inBuf, inPos := chunk, 0;
      fileExhausted := bytesRead == 0;
      return true;
    }

    /** One call of the decoder on the buffered input, with room for `room` bytes of output. */
    method Decode(room: nat) returns (output: bytes, status: Status)
      requires Decoding() && room > 0 && (inPos < |inBuf| || frameInProgress)
      modifies this`account, this`dctx, this`inPos, this`frameInProgress
      ensures |output| <= room && Handed() == old(Handed()) + output && inPos >= old(inPos)
      ensures status == Corrupt ==> Broken(DecoderError)
      ensures status != Corrupt ==>
        && Decoding()
        && (frameInProgress <==> status != FrameEnded)
        && (old(inPos) < |inBuf| ==> inPos > old(inPos) || output != [])
        && (fileExhausted && old(inPos) == |inBuf| && frameInProgress && output == [] ==> Broken(TruncatedFrame))
    {
      hide MeetsContract, Consistent, Decoded, GoodPart, Hopeless, GoodPartHanded;
      var input := inBuf[inPos..];
      var r := codec.step(dctx.value, input, room);
      StepKeeps(codec, fmt, rel, file.data, account, dctx.value, Unread(), input, room);
      assert Unread()[r.consumed..] == inBuf[inPos + r.consumed..] + file.data[file.pos..];
      account := Advance(account, input, r);
      dctx := Some(r.state);
      inPos := inPos + r.consumed;
      frameInProgress := r.status != FrameEnded;
      return r.output, r.status;
    }

    /** The last frame is decoded and flushed, and the whole file was read. */
    method Finish()
      requires Decoding() && fileExhausted && inPos >= |inBuf| && !frameInProgress
      modifies this`finished
      ensures Finished()
    {
      hide MeetsContract, Consistent, Decoded, GoodPart, Hopeless, GoodPartHanded;
      assert Unread() == [];
      AtEndOfFile(codec, fmt, rel, file.data, account, dctx.value);
      finished := true;
    }

    /** What the state of the device says of its fields. */
    lemma StateMeans()
      requires Valid()
      ensures Decoding() ==> isOpen && dctx.Some? && !finished && !failed
      ensures Decoding() ==> file.isOpen && file.Valid() && !file.faulted && inPos <= |inBuf|
      ensures Finished() ==> isOpen && finished && !failed && !file.faulted
      ensures Failed() ==> isOpen && dctx.None? && finished && failed && BreaksOff(fmt, file, Handed())
      ensures Failed() ==> (file.faulted <==> reason == ReadError)
      ensures Closed() ==> !isOpen && dctx.None?
    {
      hide MeetsContract, Consistent, Decoded, GoodPart, Hopeless, GoodPartHanded, BreaksOff;
      if Failed() { FailedBreaksOff(); }
    }

    /** Reads at most `maxSize` bytes of content: as many as asked for unless the content, or
        the file's good part, ends first. */
    method ReadData(maxSize: int) returns (n: int, data: bytes)
      requires Valid()
      modifies this, file
      ensures Valid() && isOpen == old(isOpen)
      ensures n == |data| || (n == -1 && data == [])
      ensures n <= maxSize || n <= 0
      // what was handed out before, then this call's bytes
      ensures Handed() == old(Handed()) + data
      // a failed device says so on every later call, and is never read on
      ensures old(failed) ==> n == -1 && unchanged(this) && unchanged(file)
      ensures n == -1 <==> failed && data == []
      // why it failed, and that the good part was handed out by then
      ensures failed && isOpen ==> Failed() && BreaksOff(fmt, file, Handed())
      // short only when the content, or its good part, is over
      ensures Decoding() && maxSize > 0 ==> n == maxSize
      ensures n == 0 && maxSize > 0 && isOpen ==> Finished()
      // the file is at fault exactly when reading it, since it was opened, was what failed
      ensures isOpen ==> (file.faulted <==> failed && reason == ReadError)
    {
      hide Decoding, Finished, Failed, Closed, Broken, Account.Handed, Unread, Content, BreaksOff, MeetsContract;
      data := [];
      StateMeans();
      if failed { return -1, data; }
      if dctx.None? || maxSize <= 0 || finished { return 0, data; }

      var totalOut := 0;
      while totalOut < maxSize
        invariant |data| == totalOut <= maxSize
        invariant Decoding()
        invariant Handed() == old(Handed()) + data
        invariant file.Valid() && inPos <= |inBuf|
        decreases |file.data| - file.pos + (if fileExhausted then 0 else 1), |inBuf| - inPos,
                  maxSize - totalOut, frameInProgress
      {
        if inPos >= |inBuf| && !fileExhausted {
          var ok := Refill();
          if !ok {
            n := Fail(ReadError, totalOut);
            StateMeans();
            return;
          }
        }

        StateMeans();
        var inputExhausted := fileExhausted && inPos >= |inBuf|;
        if inputExhausted && !frameInProgress {
          Finish();
          break;
        }

        var prevTotalOut := totalOut;
        var output, status := Decode(maxSize - totalOut);
        data := data + output;
        totalOut := totalOut + |output|;
        if status == Corrupt {
          n := Fail(DecoderError, totalOut);
          StateMeans();
          return;
        }
        StateMeans();
        if inputExhausted && frameInProgress && totalOut == prevTotalOut {
          n := Fail(TruncatedFrame, totalOut);
          StateMeans();
          return;
        }
      }
      StateMeans();
      return totalOut, data;
    }
  }
}
