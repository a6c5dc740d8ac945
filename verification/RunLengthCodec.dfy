/** A small codec that meets the decoder contract: a frame is a count and a byte, and stands
    for that many copies of the byte. It buffers output (two bytes in, many out), takes its
    input one byte at a time and knows a corrupt frame (count zero), so every clause of the
    contract is exercised. */
module RunLengthCodec {
  import opened Bytes
  import opened StreamFormat

  function Repeat(b: byte, n: nat): (r: bytes)
    ensures |r| == n
  {
    seq(n, _ => b)
  }

  const RunLength := Format(
    (f: bytes) => |f| == 2 && f[0] > 0,
    (p: bytes) => if |p| < 2 then [] else Repeat(p[1], p[0] as nat))

  datatype State = Fresh | Count(n: byte) | Run(n: byte, b: byte, left: nat)

  function Step(s: State, input: bytes, room: nat): StepResult<State> {
    match s
    case Fresh =>
      if input == [] then StepResult(s, 0, [], MoreToDo)
      else if input[0] == 0 then StepResult(s, 0, [], Corrupt)
      else StepResult(Count(input[0]), 1, [], MoreToDo)
    case Count(n) =>
      if input == [] then StepResult(s, 0, [], MoreToDo)
      else StepResult(Run(n, input[0], n as nat), 1, [], MoreToDo)
    case Run(n, b, left) =>
      if left <= room then StepResult(Fresh, 0, Repeat(b, left), FrameEnded)
      else StepResult(Run(n, b, left - room), 0, Repeat(b, room), MoreToDo)
  }

  ghost predicate Tracks(s: State, c: bytes, p: bytes) {
    match s
    case Fresh => c == [] && p == []
    case Count(n) => n > 0 && c == [n] && p == []
    case Run(n, b, left) => n > 0 && c == [n, b] && 0 < left <= n as nat && p == Repeat(b, n as nat - left)
  }

  const Decoder := Codec(Fresh, Step)

  /** The contract can be met, so what is proved for every codec is not about none. */
  lemma RunLengthMeetsContract()
    ensures MeetsContract(Decoder, RunLength, Tracks)
  {
    assert ValidFormat(RunLength);
    forall s, c, p, input, room: nat | Tracks(s, c, p)
      ensures StepMeetsContract(Decoder, RunLength, Tracks, s, c, p, input, room)
    {
      StepIsRight(s, c, p, input, room);
    }
  }

  lemma StepIsRight(s: State, c: bytes, p: bytes, input: bytes, room: nat)
    requires Tracks(s, c, p)
    ensures StepMeetsContract(Decoder, RunLength, Tracks, s, c, p, input, room)
  {
    hide StepMeetsContract;
    match s {
      case Fresh => FreshIsRight(input, room);
      case Count(n) => CountIsRight(n, input, room);
      case Run(n, b, left) => RunIsRight(n, b, left, input, room);
    }
  }

  lemma FreshIsRight(input: bytes, room: nat)
    ensures StepMeetsContract(Decoder, RunLength, Tracks, Fresh, [], [], input, room)
  {
    assert [] + input == input;
    if input != [] && input[0] == 0 {
      forall file: bytes, k: nat | input <= file ensures !FrameEndsAt(RunLength, file, k) {
        assert file[0] == input[0];
      }
    }
  }

  lemma CountIsRight(n: byte, input: bytes, room: nat)
    requires n > 0
    ensures StepMeetsContract(Decoder, RunLength, Tracks, Count(n), [n], [], input, room)
  {
    hide Repeat;
    if input != [] { assert [n] + input[..1] == [n, input[0]]; }
    else { assert [n] + input[..0] == [n]; }
  }

  lemma RunIsRight(n: byte, b: byte, left: nat, input: bytes, room: nat)
    requires n > 0 && 0 < left <= n as nat
    ensures StepMeetsContract(Decoder, RunLength, Tracks, Run(n, b, left), [n, b], Repeat(b, n as nat - left),
                              input, room)
  {
    assert [n, b] + input[..0] == [n, b];
    var k := if left <= room then left else room;
    RepeatMore(b, n as nat - left, k);
    RepeatMore(b, n as nat - left + k, left - k);
    hide Repeat;
  }

  lemma RepeatMore(b: byte, m: nat, k: nat)
    ensures Repeat(b, m) + Repeat(b, k) == Repeat(b, m + k) && Repeat(b, m) <= Repeat(b, m + k)
  {
  }
}
