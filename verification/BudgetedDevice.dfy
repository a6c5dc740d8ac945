/** A random-access, budgeted view of a stream that may only go forward
    (src/compression/src/budgeteddevice.cpp). */
module BudgetedDevices {
  import opened Bytes

  const SKIP_CHUNK := 64 * 1024

  /** The device below: the same bytes from the start each time it is opened. Opening, reading
      and seeking may fail at any moment; reads may be short. */
  class InnerDevice {
    const content: bytes
    const sequential: bool
    var isOpen: bool
    var pos: nat
    // How often an operation failed.
    var faults: nat

    constructor (content: bytes, sequential: bool)
      ensures this.content == content && this.sequential == sequential
      ensures !isOpen && pos == 0 && faults == 0
    {
      this.content, this.sequential := content, sequential;
      isOpen, pos, faults := false, 0, 0;
    }

    method Open() returns (ok: bool)
      requires !isOpen
      modifies this
      ensures isOpen == ok && (ok ==> pos == 0) && faults == old(faults) + if ok then 0 else 1
    {
      if * {
        faults := faults + 1;
        return false;
      }
      isOpen, pos := true, 0;
      return true;
    }

    method Close()
      modifies this`isOpen
      ensures !isOpen
    {
      isOpen := false;
    }

    method Read(max: nat) returns (n: int, data: bytes)
      requires max > 0
      modifies this`pos, this`faults
      ensures -1 <= n <= max && (n < 0 ==> data == []) && (n >= 0 ==> |data| == n)
      ensures !isOpen ==> n < 0
      ensures faults == old(faults) + if isOpen && n < 0 then 1 else 0
      ensures n > 0 ==> old(pos) + n <= |content| && data == content[old(pos)..old(pos) + n]
      ensures n == 0 ==> old(pos) >= |content|
      ensures pos == old(pos) + if n > 0 then n else 0
    {
      if !isOpen { return -1, []; }
      if * {
        faults := faults + 1;
        return -1, [];
      }
      if pos >= |content| { return 0, []; }
      var most := if max < |content| - pos then max else |content| - pos;
      n :| 0 < n <= most;
      data := content[pos..pos + n];
      pos := pos + n;
    }

    method Seek(p: nat) returns (ok: bool)
      requires !sequential
      modifies this`pos, this`faults
      ensures ok ==> isOpen && pos == p
      ensures !ok ==> pos == old(pos)
      ensures faults == old(faults) + if isOpen && !ok then 1 else 0
    {
      if !isOpen { return false; }
      if * {
        faults := faults + 1;
        return false;
      }
      pos := p;
      return true;
    }
  }

  class BudgetedDevice {
    const inner: InnerDevice
    const budget: int
    var isOpen: bool
    var pos: nat
    var exceeded: bool

    // Seeks past the budget since opening, and how often the inner device was started over.
    ghost var askedPast: bool
    ghost var reopens: nat

    /** Below the budget the two positions are one. At the budget the probe may have taken the
        inner device further, never back. */
    ghost predicate Valid() reads this, inner {
      && (pos == 0 || pos <= budget)
      && (isOpen && inner.isOpen ==>
            && pos <= inner.pos
            && (pos < budget ==> inner.pos == pos))
      && (inner.sequential ==> pos <= |inner.content|)
      && (isOpen && exceeded ==> askedPast || |inner.content| > budget)
    }

    constructor (inner: InnerDevice, budget: int)
      requires !inner.isOpen
      ensures Valid() && !isOpen && this.inner == inner && this.budget == budget && reopens == 0
    {
      this.inner, this.budget := inner, budget;
      isOpen, pos, exceeded, askedPast, reopens := false, 0, false, false, 0;
    }

    method Open() returns (ok: bool)
      requires Valid() && !isOpen && !inner.isOpen
      modifies this, inner
      ensures Valid() && isOpen == ok
      ensures ok ==> inner.isOpen && inner.pos == 0 && pos == 0 && !exceeded && !askedPast && reopens == old(reopens)
      ensures inner.faults == old(inner.faults) + if ok then 0 else 1
    {
      ok := inner.Open();
      if !ok { return; }
      isOpen, pos, exceeded, askedPast := true, 0, false, false;
    }

    method Close()
      requires Valid()
      modifies this, inner
      ensures Valid() && !isOpen && !inner.isOpen
    {
      isOpen := false;
      inner.Close();
    }

    /** Bytes read at a position are the stream's bytes from there, and never pass the budget. */
    method Read(max: int) returns (n: int, data: bytes)
      requires Valid() && isOpen
      modifies this`pos, this`exceeded, inner`pos, inner`faults
      ensures Valid()
      ensures n < 0 ==> data == []
      ensures n >= 0 ==> n == |data|
      ensures n <= max || n <= 0
      ensures pos == old(pos) + |data|
      ensures data != [] ==> pos <= |inner.content| && pos <= budget && data == inner.content[old(pos)..pos]
      // why it gave nothing
      ensures n < 0 ==>
                || !inner.isOpen || inner.faults > old(inner.faults)
                || (exceeded && |inner.content| > budget && pos >= budget)
      ensures n == 0 && max > 0 && pos < budget ==> pos >= |inner.content|
      // at the budget: a failure exactly when the inner device still has a byte to give
      ensures inner.isOpen && inner.faults == old(inner.faults) && max > 0 && old(pos) >= budget ==>
                (n == -1 <==> old(inner.pos) < |inner.content|) && (n == 0 <==> old(inner.pos) >= |inner.content|)
      // at the budget nothing but a byte taken by the probe is a failure: an error of the inner
      // device reads as the end of the stream
      ensures old(pos) >= budget && max > 0 ==> n in {-1, 0} && (n == -1 <==> inner.pos == old(inner.pos) + 1)
      ensures old(pos) >= budget && max > 0 && (inner.faults > old(inner.faults) || !inner.isOpen) ==> n == 0
      ensures old(pos) >= budget ==> inner.pos == old(inner.pos) + if max > 0 && n < 0 then 1 else 0
      ensures old(pos) >= budget ==> exceeded == (old(exceeded) || n == -1)
      ensures exceeded ==> old(exceeded) || |inner.content| > budget
      ensures old(exceeded) ==> exceeded
      ensures pos < budget || old(pos) < budget ==> exceeded == old(exceeded)
      ensures inner.faults >= old(inner.faults)
    {
      if max <= 0 { return 0, []; }
      var remaining := budget - pos;
      if remaining <= 0 {
        var probe, _ := inner.Read(1);
        if probe <= 0 { return 0, []; }
        exceeded := true;
        return -1, [];
      }
      n, data := inner.Read(if max < remaining then max else remaining);
      pos := pos + |data|;
    }

    /** Moves to `p`, forward by reading and back by starting over. */
    method Seek(p: int) returns (ok: bool)
      requires Valid()
      modifies this, inner
      ensures Valid() && isOpen == old(isOpen)
      ensures ok ==> isOpen && pos == p && p <= budget && (inner.sequential ==> p <= |inner.content|)
      // the only reasons to refuse
      ensures !ok ==> p < 0 || !isOpen || p > budget || inner.faults > old(inner.faults) || !inner.isOpen
                      || (inner.sequential && p > |inner.content|)
      ensures exceeded <==> old(exceeded) || (old(isOpen) && 0 <= p && p > budget)
      ensures p <= budget ==> askedPast == old(askedPast)
      // one start over for a step back over a sequential device, none otherwise
      ensures old(reopens) <= reopens <= old(reopens) + if inner.sequential && p < old(pos) then 1 else 0
      ensures ok ==> reopens == old(reopens) + if inner.sequential && p < old(pos) then 1 else 0
      ensures inner.faults >= old(inner.faults)
    {
      if p < 0 || !isOpen { return false; }
      if p > budget {
        exceeded, askedPast := true, true;
        return false;
      }
      if !inner.sequential {
        ok := inner.Seek(p);
        if ok { pos := p; }
        return;
      }
      if p < pos {
        inner.Close();
        ok := inner.Open();
        if !ok { return false; }
        reopens := reopens + 1;
        pos := 0;
      }
      ok := Skip(p - pos);
    }

    method Skip(count: nat) returns (ok: bool)
      requires Valid() && isOpen && (count > 0 ==> pos + count <= budget)
      modifies this`pos, this`exceeded, inner`pos, inner`faults
      ensures Valid() && exceeded == old(exceeded)
      ensures ok ==> pos == old(pos) + count
      ensures !ok ==> inner.faults > old(inner.faults) || !inner.isOpen || old(pos) + count > |inner.content|
      ensures inner.faults >= old(inner.faults)
    {
      var left := count;
      while left > 0
        invariant 0 <= left <= count && Valid() && exceeded == old(exceeded)
        invariant pos == old(pos) + (count - left)
        invariant inner.faults >= old(inner.faults)
      {
        var n, _ := Read(if left < SKIP_CHUNK then left else SKIP_CHUNK);
        if n <= 0 { return false; }
        left := left - n;
      }
      return true;
    }
  }

  /** A probe eats the byte it finds, so of two reads at the budget only the first is sure to
      tell a longer stream from one that ends there. */
  method SecondProbeLooksLikeTheEnd() returns (first: int, second: int, fault: bool)
    ensures !fault ==> first == -1 && second == 0
  {
    var inner := new InnerDevice([7], true);
    var device := new BudgetedDevice(inner, 0);
    var ok := device.Open();
    if !ok { return 0, 0, true; }
    var data: bytes;
    first, data := device.Read(1);
    second, data := device.Read(1);
    fault := inner.faults > 0;
  }

  // ---------- Reading archive entries one after another ----------

  /** Where an entry's bytes lie in the stream. */
  datatype Region = Region(start: int, length: nat) {
    function End(): int { start + length }
  }

  ghost predicate SortedDisjoint(regions: seq<Region>) {
    forall i, j :: 0 <= i < j < |regions| ==> regions[i].End() <= regions[j].start
  }

  /** How often the stream is started over, each region being read from its start to its end. */
  function StartOvers(pos: int, regions: seq<Region>): nat
    decreases |regions|
  {
    if regions == [] then 0
    else (if regions[0].start < pos then 1 else 0) + StartOvers(regions[0].End(), regions[1..])
  }

  function FirstStartOver(pos: int, regions: seq<Region>): nat {
    if regions != [] && regions[0].start < pos then 1 else 0
  }

  /** The stream is started over for the first region at most, exactly when each region ends
      before all that come after it start. */
  lemma {:induction false} OneStartOverIffSorted(pos: int, regions: seq<Region>)
    ensures StartOvers(pos, regions) == FirstStartOver(pos, regions) <==> SortedDisjoint(regions)
    ensures FirstStartOver(pos, regions) <= StartOvers(pos, regions)
    decreases |regions|
  {
    if regions != [] {
      var rest := regions[1..];
      OneStartOverIffSorted(regions[0].End(), rest);
      SortedFirst(regions);
    }
  }

  lemma SortedFirst(regions: seq<Region>)
    requires regions != []
    ensures SortedDisjoint(regions) <==>
            (|regions| > 1 ==> regions[0].End() <= regions[1].start) && SortedDisjoint(regions[1..])
  {
    var rest := regions[1..];
    if (|regions| > 1 ==> regions[0].End() <= regions[1].start) && SortedDisjoint(rest) {
      forall i, j | 0 <= i < j < |regions| ensures regions[i].End() <= regions[j].start {
        if i > 0 { assert rest[i - 1].End() <= rest[j - 1].start; }
        else if j > 1 { assert rest[0].End() <= rest[j - 1].start; }
      }
    }
    if SortedDisjoint(regions) {
      forall i, j | 0 <= i < j < |rest| ensures rest[i].End() <= rest[j].start {
        assert regions[i + 1].End() <= regions[j + 1].start;
      }
    }
  }

  ghost predicate IsRegion(content: bytes, r: Region, data: bytes) {
    && |data| == r.length
    && (data == [] || (0 <= r.start && r.End() <= |content| && data == content[r.start..r.End()]))
  }

  /** A region that can be sought to and read whole. */
  ghost predicate IsWithin(r: Region, content: bytes, budget: int) {
    0 <= r.start && r.End() <= |content| && r.End() <= budget
  }

  /** Reads entries one after another, as far as they can be read. Without a fault of the inner
      device only a region past the content or the budget stops it. The stream is started over
      as often as the order of the regions makes it. */
  method ReadInOrder(device: BudgetedDevice, regions: seq<Region>) returns (ok: bool, entries: seq<bytes>)
    requires device.Valid() && device.isOpen
    modifies device, device.inner
    ensures device.Valid() && device.isOpen
    ensures |entries| <= |regions| && (ok <==> |entries| == |regions|)
    ensures forall i :: 0 <= i < |entries| ==> IsRegion(device.inner.content, regions[i], entries[i])
    ensures !ok ==> device.inner.faults > old(device.inner.faults) || !device.inner.isOpen
                    || !IsWithin(regions[|entries|], device.inner.content, device.budget)
    ensures device.reopens <= old(device.reopens) + StartOvers(old(device.pos), regions)
    ensures ok && device.inner.sequential ==>
              device.reopens == old(device.reopens) + StartOvers(old(device.pos), regions)
  {
    hide BudgetedDevice.Valid, StartOvers, IsRegion;
    entries := [];
    ghost var goal := device.reopens + StartOvers(device.pos, regions);
    assert regions[0..] == regions;
    for i := 0 to |regions|
      invariant device.Valid() && device.isOpen && |entries| == i && device.inner.faults >= old(device.inner.faults)
      invariant device.reopens + StartOvers(device.pos, regions[i..]) <= goal
      invariant device.inner.sequential ==> device.reopens + StartOvers(device.pos, regions[i..]) == goal
      invariant forall j :: 0 <= j < i ==> IsRegion(device.inner.content, regions[j], entries[j])
    {
      NextRegion(device.pos, regions, i);
      ok := device.Seek(regions[i].start);
      if !ok { return; }
      var data: bytes;
      ok, data := ReadRegion(device, regions[i]);
      if !ok { return; }
      entries := entries + [data];
    }
    NoRegions(device.pos);
    assert regions[|regions|..] == [];
    return true, entries;
  }

  lemma NextRegion(pos: int, regions: seq<Region>, i: nat)
    requires i < |regions|
    ensures StartOvers(pos, regions[i..])
         == (if regions[i].start < pos then 1 else 0) + StartOvers(regions[i].End(), regions[i + 1..])
  {
    assert regions[i..][1..] == regions[i + 1..];
  }

  lemma NoRegions(pos: int)
    ensures StartOvers(pos, []) == 0
  {
  }

  method ReadRegion(device: BudgetedDevice, r: Region) returns (ok: bool, data: bytes)
    requires device.Valid() && device.isOpen && device.pos == r.start
    modifies device`pos, device`exceeded, device.inner`pos, device.inner`faults
    ensures device.Valid()
    ensures ok ==> device.pos == r.End() && IsRegion(device.inner.content, r, data)
    ensures !ok ==>
              || device.inner.faults > old(device.inner.faults) || !device.inner.isOpen
              || !IsWithin(r, device.inner.content, device.budget)
    ensures device.inner.faults >= old(device.inner.faults)
  {
    hide BudgetedDevice.Valid;
    data := [];
    while |data| < r.length
      invariant device.Valid() && device.pos == r.start + |data| && |data| <= r.length
      invariant data != [] ==>
                  device.pos <= |device.inner.content| && data == device.inner.content[r.start..device.pos]
      invariant device.inner.faults >= old(device.inner.faults)
    {
      var n, chunk := device.Read(r.length - |data|);
      if n <= 0 { return false, data; }
      data := data + chunk;
    }
    return true, data;
  }
}
