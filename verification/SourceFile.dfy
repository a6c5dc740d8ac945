/** The compressed file on disk, read in pieces of the operating system's choosing, and what
    the two devices share. */
module SourceFiles {
  import opened Bytes
  import opened StreamFormat

  const INPUT_BUFFER_SIZE := 256 * 1024

  /** What a device's error string says. */
  datatype Reason = NoError | ReadError | DecoderError | TruncatedFrame

  /** Where decoding broke off: the file is not whole and all its whole frames were handed out,
      or it could not be read on and all frames that ended before the last byte read were. */
  ghost predicate BreaksOff(fmt: Format, file: SourceFile, handed: bytes)
    reads file
  {
    || (!Decoded(fmt, file.data).ok && GoodPart(fmt, file.data) <= handed)
    || (file.faulted && file.Valid() && GoodPartHanded(fmt, file.data[..file.pos], handed))
  }

  /** The bytes not decoded yet are the same before and after a refill. */
  lemma RefillKeepsOrder(buf: bytes, bufPos: nat, data: bytes, pos: nat, n: nat)
    requires bufPos == |buf| && pos + n <= |data|
    ensures buf[bufPos..] + data[pos..] == data[pos..pos + n][0..] + data[pos + n..]
  {
  }

  class SourceFile {
    const data: bytes
    var isOpen: bool
    var pos: nat
    // Whether opening failed, or reading has since the last opening; the bytes never change.
    var faulted: bool

    ghost predicate Valid() reads this {
      pos <= |data|
    }

    constructor (data: bytes)
      ensures Valid() && this.data == data && !isOpen && !faulted
    {
      this.data := data;
      isOpen, pos, faulted := false, 0, false;
    }

    method Open() returns (ok: bool)
      modifies this
      ensures Valid() || !ok
      ensures ok ==> isOpen && pos == 0 && !faulted
      ensures !ok ==> isOpen == old(isOpen) && pos == old(pos) && (faulted || (isOpen && faulted == old(faulted)))
    {
      if isOpen { return false; }
      if * {
        faulted := true;
        return false;
      }
      isOpen, pos, faulted := true, 0, false;
      return true;
    }

    method Close()
      modifies this
      ensures !isOpen && pos == old(pos) && faulted == old(faulted)
    {
      isOpen := false;
    }

    /** The next bytes, at most `max`: any number of them from one up, none only at the end of
        the file, or an error. */
    method Read(max: nat) returns (n: int, chunk: bytes)
      requires Valid() && isOpen && max > 0
      modifies this`pos, this`faulted
      ensures Valid() && n <= max
      ensures n < 0 ==> faulted && pos == old(pos)
      ensures n >= 0 ==> faulted == old(faulted) && pos == old(pos) + n && chunk == data[old(pos)..pos]
      ensures n == 0 ==> pos == |data|
    {
      if * {
        faulted := true;
        return -1, [];
      }
      var most := if max < |data| - pos then max else |data| - pos;
      n :| 0 <= n <= most && (most > 0 ==> n > 0);
      chunk := data[pos..pos + n];
      pos := pos + n;
    }
  }
}
