/** Decompressing one file: the copy loop from a stream device to the output file, under a
    budget (src/compression/src/decompressor.cpp). */
module Decompression {
  import opened Bytes
  import opened Failures
  import opened StreamFormat
  import opened SourceFiles
  import opened ZstdDevices
  import opened Lz4Devices

  const READ_SIZE := 4 * 1024 * 1024

  class OutputFile {
    var contents: bytes
    // How often a write was refused or cut short.
    var faults: nat

    constructor () ensures contents == [] && faults == 0 { contents, faults := [], 0; }

    /** Writes a beginning of `data`, all of it unless the disk is full or fails. */
    method Write(data: bytes) returns (n: int)
      modifies this
      ensures n <= |data|
      ensures contents == old(contents) + data[..if n < 0 then 0 else n]
      ensures faults == old(faults) + if n == |data| then 0 else 1
    {
      if * {
        n := -1;
      } else {
        n :| 0 <= n <= |data|;
        contents := contents + data[..n];
      }
      if n != |data| { faults := faults + 1; }
    }
  }

  /** The device the compression layer asks for. */
  datatype Input<!S(!new)> = ZstdInput(z: ZstdDevice<S>) | Lz4Input(l: Lz4Device<S>) {
    ghost function Repr(): set<object> {
      match this
      case ZstdInput(z) => {z, z.file}
      case Lz4Input(l) => {l, l.file}
    }

    function File(): SourceFile {
      if ZstdInput? then z.file else l.file
    }

    ghost function Content(): Outcome {
      if ZstdInput? then z.Content() else l.Content()
    }

    ghost function Fmt(): Format {
      if ZstdInput? then z.fmt else l.fmt
    }

    ghost function Handed(): bytes reads Repr() {
      if ZstdInput? then z.Handed() else l.Handed()
    }

    predicate IsOpen() reads Repr() {
      if ZstdInput? then z.isOpen else l.isOpen
    }

    ghost predicate Valid() reads Repr() {
      if ZstdInput? then z.Valid() else l.Valid()
    }

    predicate AtEnd() reads Repr() {
      if ZstdInput? then z.AtEnd() else l.AtEnd()
    }

    /** An open device at its end has handed out the whole content of a whole file. */
    lemma AtEndMeansAll()
      requires Valid() && IsOpen() && AtEnd()
      ensures Content() == Outcome(Handed(), true)
    {
    }

    lemma FileInRepr()
      ensures File() in Repr()
    {
    }

    method Open() returns (ok: bool)
      requires Valid() && !IsOpen()
      modifies Repr()
      ensures Valid() && IsOpen() == ok
      ensures ok ==> Handed() == [] && !File().faulted
      ensures !ok ==> File().faulted
    {
      match this
      case ZstdInput(z) => ok := z.Open();
      case Lz4Input(l) => ok := l.Open();
    }

    method Close()
      requires Valid()
      modifies Repr()
      ensures Valid() && !IsOpen() && File().faulted == old(File().faulted)
      ensures forall handed :: BreaksOff(Fmt(), File(), handed) == old(BreaksOff(Fmt(), File(), handed))
    {
      match this
      case ZstdInput(z) => z.Close();
      case Lz4Input(l) => l.Close();
    }

    /** What both devices promise of one read. */
    method Read(maxSize: int) returns (n: int, data: bytes)
      requires Valid() && IsOpen() && maxSize > 0
      modifies Repr()
      ensures Valid() && IsOpen()
      ensures n == |data| || (n == -1 && data == [])
      ensures Handed() == old(Handed()) + data && Handed() <= Content().out
      ensures n < 0 ==> BreaksOff(Fmt(), File(), Handed()) && (File().faulted || !Content().ok)
      ensures n == 0 ==> AtEnd()
    {
      match this
      case ZstdInput(z) => n, data := z.ReadData(maxSize);
      case Lz4Input(l) => n, data := l.ReadData(maxSize);
    }
  }

  /** Whatever comes of it, the output is a beginning of the content and within the budget;
      success means all of the content of a whole file, and each failure has its cause. */
  method DoDecompress<S(!new)>(input: Input<S>, output: OutputFile, budget: int, interrupt: InterruptFlag)
      returns (result: Failure, ghost started: bool)
    requires input.Valid() && !input.IsOpen()
    requires output !in input.Repr() && interrupt !in input.Repr() && output.contents == []
    modifies input.Repr(), output, interrupt
    ensures output.contents <= input.Content().out
    ensures output.contents == [] || |output.contents| <= budget
    ensures result == NoFailure ==> input.Content() == Outcome(output.contents, true)
    ensures result == BudgetExceeded ==> |input.Content().out| > budget
    ensures result == Interrupted ==> interrupt.raised
    ensures result == Error ==> input.File().faulted || output.faults > old(output.faults) || !input.Content().ok
    ensures !started ==> result == Error && input.File().faulted && output.contents == []
    // a file that breaks off still gives all of its good part
    ensures result == Error && started ==>
              output.faults > old(output.faults) || BreaksOff(input.Fmt(), input.File(), output.contents)
    ensures !input.File().faulted && output.faults == old(output.faults) && !interrupt.raised && input.Content().ok ==>
              (result == NoFailure <==> input.Content().out == [] || |input.Content().out| <= budget)
  {
    hide Input.Valid, Input.Handed, Input.Content, Input.IsOpen, Input.AtEnd, Input.Fmt, Input.File, BreaksOff;
    input.FileInRepr();
    var ok := input.Open();
    started := ok;
    if !ok { return Error, started; }
    result := CopyContent(input, output, budget, interrupt);
    input.Close();
  }

  /** The copy loop of doDecompress. */
  method CopyContent<S(!new)>(input: Input<S>, output: OutputFile, budget: int, interrupt: InterruptFlag)
      returns (result: Failure)
    requires input.Valid() && input.IsOpen() && input.Handed() == output.contents == []
    requires output !in input.Repr() && interrupt !in input.Repr()
    modifies input.Repr(), output, interrupt
    ensures input.Valid() && input.IsOpen()
    ensures output.contents <= input.Content().out
    ensures output.contents == [] || |output.contents| <= budget
    ensures result == NoFailure ==> input.Content() == Outcome(output.contents, true)
    ensures result == BudgetExceeded ==> |input.Content().out| > budget && input.Content().out != []
    ensures result == Interrupted ==> interrupt.raised
    ensures result == Error ==>
              || output.faults > old(output.faults)
              || (BreaksOff(input.Fmt(), input.File(), output.contents)
                  && (input.File().faulted || !input.Content().ok))
  {
    hide Input.Valid, Input.Handed, Input.Content, Input.IsOpen, Input.AtEnd, Input.Fmt, Input.File, BreaksOff;
    var written := 0;
    while !input.AtEnd()
      invariant input.Valid() && input.IsOpen() && input.Handed() <= input.Content().out
      invariant output.contents == input.Handed() && |output.contents| == written
      invariant written == 0 || written <= budget
      invariant output.faults == old(output.faults)
      decreases |input.Content().out| - |input.Handed()|
    {
      var stop := interrupt.Poll();
      if stop { return Interrupted; }
      var n, data := input.Read(READ_SIZE);
      if n < 0 {
        assert input.Handed() == output.contents;
        return Error;
      }
      if n == 0 {
        // The last read filled its buffer exactly at the end of the content.
        if !input.AtEnd() { return Error; }
        break;
      }
      if written + n > budget { return BudgetExceeded; }
      var writtenBytes := output.Write(data);
      if writtenBytes < 0 || writtenBytes != n { return Error; }
      written := written + writtenBytes;
    }
    input.AtEndMeansAll();
    return NoFailure;
  }
}
