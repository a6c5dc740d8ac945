/** The disk an archive is extracted to and the archive it is read from, as far as extraction uses
    them. */
module ArchiveDisk {
  import opened Bytes
  import opened ArchiveWalk

  datatype Written = Written(path: string, data: bytes)

  function Total(log: seq<Written>): nat {
    if log == [] then 0 else |log[0].data| + Total(log[1..])
  }

  lemma {:induction false} TotalAppend(a: seq<Written>, b: seq<Written>)
    ensures Total(a + b) == Total(a) + Total(b)
  {
    if a == [] { assert a + b == b; } else {
      assert (a + b)[1..] == a[1..] + b;
      TotalAppend(a[1..], b);
    }
  }

  /** A folder that was made, by the path it resolves to. */
  ghost predicate MadeAt(w: World, made: seq<string>, folder: string) {
    exists p :: p in made && w.canonical(p) == folder
  }

  /** The place of a file, in a folder that was made. */
  ghost predicate InMadeFolder(w: World, made: seq<string>, path: string) {
    exists folder, name :: MadeAt(w, made, folder) && IsPlainName(name) && path == folder + "/" + name
  }

  /** The disk: every folder made, and every file opened for writing with what was written to it,
      both in order. */
  class Disk {
    var made: seq<string>
    var log: seq<Written>
    // How often a folder could not be made, or a file not opened or written whole.
    var faults: nat

    constructor () ensures made == [] && log == [] && faults == 0 { made, log, faults := [], [], 0; }

    method MakePath(path: string) returns (ok: bool)
      modifies this`made, this`faults
      ensures made == old(made) + if ok then [path] else []
      ensures faults == old(faults) + if ok then 0 else 1
    {
      ok := *;
      if ok { made := made + [path]; } else { faults := faults + 1; }
    }

    /** A file can only be opened in a folder that was made. */
    method OpenFile(ghost w: World, path: string) returns (ok: bool)
      requires InMadeFolder(w, made, path)
      modifies this`log, this`faults
      ensures log == old(log) + if ok then [Written(path, [])] else []
      ensures faults == old(faults) + if ok then 0 else 1
    {
      ok := *;
      if ok { log := log + [Written(path, [])]; } else { faults := faults + 1; }
    }

    /** Removes the file opened last. */
    method Remove()
      requires log != []
      modifies this`log
      ensures log == old(log)[..|old(log)| - 1]
    {
      log := log[..|log| - 1];
    }

    /** Appends to the file opened last. */
    method Write(data: bytes) returns (n: int)
      requires log != []
      modifies this`log, this`faults
      ensures n <= |data|
      ensures var last := old(log)[|old(log)| - 1];
              log == old(log)[..|old(log)| - 1] + [last.(data := last.data + data[..if n < 0 then 0 else n])]
      ensures faults == old(faults) + if n == |data| then 0 else 1
    {
      n :| -1 <= n <= |data|;
      var last := log[|log| - 1];
      log := log[..|log| - 1] + [last.(data := last.data + data[..if n < 0 then 0 else n])];
      if n != |data| { faults := faults + 1; }
    }
  }

  /** The archive the entries are read from. */
  class Archive {
    // How often an entry had no device, or a read of one failed.
    var faults: nat

    constructor () ensures faults == 0 { faults := 0; }

    method CreateDevice() returns (ok: bool)
      modifies this
      ensures faults == old(faults) + if ok then 0 else 1
    {
      ok := *;
      if !ok { faults := faults + 1; }
    }
  }

  /** Reads an entry from its first byte on, in pieces, and fails as it likes. */
  class EntryReader {
    const archive: Archive
    const file: ArchiveFile
    var pos: nat

    constructor (archive: Archive, file: ArchiveFile)
      ensures this.archive == archive && this.file == file && pos == 0
    {
      this.archive, this.file, pos := archive, file, 0;
    }

    method Read(max: nat) returns (n: int, data: bytes)
      requires max > 0 && pos <= |file.data|
      modifies this, archive
      ensures old(pos) <= pos <= |file.data| && n <= max
      ensures n > 0 ==> data == file.data[old(pos)..pos] && pos == old(pos) + n
      ensures n <= 0 ==> pos == old(pos) && (archive.faults > old(archive.faults) || pos == |file.data|)
      ensures archive.faults == old(archive.faults) + if n < 0 then 1 else 0
    {
      if * {
        archive.faults := archive.faults + 1;
        return -1, [];
      }
      var most := if max < |file.data| - pos then max else |file.data| - pos;
      if most == 0 { return 0, []; }
      n :| 0 < n <= most;
      data := file.data[pos..pos + n];
      pos := pos + n;
    }
  }
}
