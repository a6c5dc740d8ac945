/** The primary instance's side of a message: many connections, each delivering its bytes in
    pieces (3rdparty/kdsingleapplication/kdsingleapplication_localsocket.cpp). */
module MessageReceiver {
  import opened Options
  import opened Bytes

  // ---------- The wire format ----------

  const PROTOCOL_VERSION: byte := 2
  const NULL_CODE := 0xFFFF_FFFF
  const EXTENDED_CODE := 0xFFFF_FFFE

  /** An unsigned number in big-endian order, as QDataStream writes it. */
  function BigEndian(n: nat, width: nat): (s: bytes)
    ensures |s| == width
  {
    if width == 0 then [] else BigEndian(n / 256, width - 1) + [(n % 256) as byte]
  }

  function Number(s: bytes): nat {
    if s == [] then 0 else Number(s[..|s| - 1]) * 256 + s[|s| - 1] as nat
  }

  /** What sendMessage writes: the version byte, then the message as QDataStream writes a byte
      array that is neither null nor too long for the plain form. */
  function Encode(message: bytes): bytes {
    [PROTOCOL_VERSION] + BigEndian(|message|, 4) + message
  }

  /** Reading a byte array back in one transaction: nothing unless it is all there. */
  function ReadByteArray(s: bytes): Option<bytes> {
    if |s| < 4 then None
    else
      var length := Number(s[..4]);
      if length == NULL_CODE then Some([])
      else if length == EXTENDED_CODE then
        if |s| < 12 then None
        else
          var extended := Number(s[4..12]);
          if |s| - 12 < extended then None else Some(s[12..12 + extended])
      else if |s| - 4 < length then None
      else Some(s[4..4 + length])
  }

  /** What the bytes of one connection, all that came so far, make the receiver do. */
  datatype Verdict = Wait | Reject | Emit(message: bytes)

  function Judge(data: bytes): Verdict {
    if data == [] then Wait
    else if data[0] != PROTOCOL_VERSION then Reject
    else
      var message := ReadByteArray(data[1..]);
      if message.None? then Wait else Emit(message.value)
  }

  // ---------- Chunking does not matter ----------

  lemma {:induction false} NumberOfBigEndian(n: nat, width: nat, bound: nat)
    requires n < bound && bound == Power256(width)
    ensures Number(BigEndian(n, width)) == n
  {
    if width > 0 {
      var s := BigEndian(n, width);
      assert s[..|s| - 1] == BigEndian(n / 256, width - 1);
      assert n / 256 < Power256(width - 1);
      NumberOfBigEndian(n / 256, width - 1, Power256(width - 1));
    }
  }

  function Power256(width: nat): nat {
    if width == 0 then 1 else 256 * Power256(width - 1)
  }

  /** Once the receiver has made up its mind, more bytes do not change it. */
  lemma JudgeIsFinal(data: bytes, more: bytes)
    requires Judge(data) != Wait
    ensures Judge(data + more) == Judge(data)
  {
    hide Number;
    if data[0] == PROTOCOL_VERSION {
      var s := data[1..];
      assert (data + more)[1..] == s + more;
      assert (s + more)[..4] == s[..4];
      if |s| >= 12 { assert (s + more)[4..12] == s[4..12]; }
    }
  }

  /** A message's encoding is judged only when its last byte is there, and then it is the message. */
  lemma EncodingIsRead(message: bytes, n: nat)
    requires |message| < EXTENDED_CODE && n <= |Encode(message)|
    ensures Judge(Encode(message)[..n]) == if n == |Encode(message)| then Emit(message) else Wait
  {
    hide ReadByteArray, BigEndian;
    var body := BigEndian(|message|, 4) + message;
    assert Encode(message) == [PROTOCOL_VERSION] + body;
    if n > 0 {
      assert Encode(message)[..n][1..] == body[..n - 1];
      LengthIsRead(message);
      BodyIsRead(BigEndian(|message|, 4), message, n - 1);
    }
  }

  lemma LengthIsRead(message: bytes)
    requires |message| < EXTENDED_CODE
    ensures Number(BigEndian(|message|, 4)) == |message|
  {
    hide Number, BigEndian;
    assert Power256(4) == 0x1_0000_0000 by {
      assert Power256(1) == 256 && Power256(2) == 65536 && Power256(3) == 16777216;
    }
    NumberOfBigEndian(|message|, 4, Power256(4));
  }

  /** A byte array is read only when all of it is there. */
  lemma BodyIsRead(head: bytes, message: bytes, n: nat)
    requires |head| == 4 && Number(head) == |message| < EXTENDED_CODE && n <= |head + message|
    ensures ReadByteArray((head + message)[..n]) == if n == |head + message| then Some(message) else None
  {
    hide Number;
    var s := (head + message)[..n];
    if n >= 4 { assert s[..4] == head; }
    if n == |head + message| { assert s[4..4 + |message|] == message; }
  }

  /** One connection fed piece by piece until it is judged: the verdict, and how many pieces it
      took. */
  function Feed(data: bytes, chunks: seq<bytes>): Verdict
    decreases |chunks|
  {
    if chunks == [] then Wait
    else
      var now := data + chunks[0];
      if Judge(now) != Wait then Judge(now) else Feed(now, chunks[1..])
  }

  function Flatten(chunks: seq<bytes>): bytes {
    if chunks == [] then [] else chunks[0] + Flatten(chunks[1..])
  }

  /** Whatever the pieces, a connection comes to the verdict on its bytes as a whole. */
  lemma {:induction false} FeedIgnoresChunks(data: bytes, chunks: seq<bytes>)
    requires Judge(data) == Wait
    ensures Feed(data, chunks) == Judge(data + Flatten(chunks))
    decreases |chunks|
  {
    hide Judge;
    if chunks == [] {
      assert data + [] == data;
    } else {
      var now := data + chunks[0];
      assert data + Flatten(chunks) == now + Flatten(chunks[1..]);
      if Judge(now) != Wait { JudgeIsFinal(now, Flatten(chunks[1..])); }
      else { FeedIgnoresChunks(now, chunks[1..]); }
    }
  }

  /** Every split of every message's encoding delivers the message. */
  lemma EveryChunkingDelivers(message: bytes, chunks: seq<bytes>)
    requires |message| < EXTENDED_CODE && Flatten(chunks) == Encode(message)
    ensures Feed([], chunks) == Emit(message)
  {
    FeedIgnoresChunks([], chunks);
    EncodingIsRead(message, |Encode(message)|);
    assert [] + Flatten(chunks) == Encode(message) == Encode(message)[..|Encode(message)|];
  }

  // ---------- The sender ----------

  datatype SendResult = NotConnected | NotSent | Sent

  /** What the other end and the clock do to one message: how each attempt to connect ends that
      the deadline leaves time for; whether it has run out when they are over; how many bytes each
      wait for the rest gets written, none when it times out; whether the other end closes in time. */
  datatype Circumstances = Circumstances(attempts: seq<bool>, inTime: bool, accepted: seq<nat>, closes: bool) {
    predicate Connects() { inTime && true in attempts }
  }

  /** How many of the bytes are written, wait after wait, until all are or one times out. */
  function Accepted(accepted: seq<nat>, left: nat): (n: nat)
    ensures n <= left
    decreases |accepted|
  {
    if left == 0 || accepted == [] || accepted[0] == 0 then 0
    else if accepted[0] >= left then left
    else accepted[0] + Accepted(accepted[1..], left - accepted[0])
  }

  /** sendMessage. `written` is what goes out. Sent takes a connection in time, all of the bytes,
      and the other end closing in time; a message that went out whole without that is answered
      NotSent. */
  method SendMessage(message: bytes, c: Circumstances) returns (result: SendResult, written: bytes)
    ensures written == if c.Connects() then Encode(message)[..Accepted(c.accepted, |Encode(message)|)] else []
    ensures result == NotConnected <==> !c.Connects()
    ensures result == Sent <==> c.Connects() && written == Encode(message) && c.closes
    ensures result == NotSent <==> c.Connects() && (written < Encode(message) || !c.closes)
  {
    var connected, i := false, 0;
    while i < |c.attempts| && !connected
      invariant 0 <= i <= |c.attempts| && (connected <==> true in c.attempts[..i])
    {
      connected := c.attempts[i];
      i := i + 1;
    }
    assert c.attempts[..|c.attempts|] == c.attempts;
    // a deadline that ran out during the last attempt counts as no connection
    if !c.inTime || !connected { return NotConnected, []; }

    var toWrite := Encode(message);
    var n, k := 0, 0;
    while n < |toWrite|
      invariant n <= |toWrite| && k <= |c.accepted|
      invariant Accepted(c.accepted, |toWrite|) == n + Accepted(c.accepted[k..], |toWrite| - n)
      decreases |c.accepted| - k
    {
      if k == |c.accepted| || c.accepted[k] == 0 { return NotSent, toWrite[..n]; }
      assert c.accepted[k..][1..] == c.accepted[k + 1..];
      n := if c.accepted[k] >= |toWrite| - n then |toWrite| else n + c.accepted[k];
      k := k + 1;
    }
    return if c.closes then Sent else NotSent, toWrite[..n];
  }

  // ---------- The connections ----------

  type Id = nat

  datatype Connection = Connection(socket: Id, timer: Id, readData: bytes)

  /** A connection the server has accepted: what can be read from it at once, and whether its
      other end is already gone. */
  datatype Incoming = Incoming(socket: Id, timer: Id, available: bytes, closed: bool)

  /** How many pending connections one signal takes: up to the first that is judged at once. */
  function Taken(pending: seq<Incoming>): (n: nat)
    ensures n <= |pending|
  {
    if pending == [] then 0
    else if Judge(pending[0].available) != Wait then 1
    else 1 + Taken(pending[1..])
  }

  /** The connections that go on waiting for the rest of their message. */
  function Staying(pending: seq<Incoming>): set<Id> {
    set p | p in pending && Judge(p.available) == Wait && !p.closed :: p.socket
  }

  lemma StayingNext(pending: seq<Incoming>, n: nat)
    requires n < |pending|
    ensures Staying(pending[..n + 1]) == Staying(pending[..n])
              + if Judge(pending[n].available) == Wait && !pending[n].closed then {pending[n].socket} else {}
  {
    hide Judge;
    assert pending[..n + 1] == pending[..n] + [pending[n]];
  }

  lemma TakenNext(pending: seq<Incoming>)
    requires pending != []
    ensures Taken(pending) == if Judge(pending[0].available) != Wait then 1 else 1 + Taken(pending[1..])
  {
  }

  ghost predicate Apart(clients: seq<Connection>) {
    forall i, j :: 0 <= i < j < |clients| ==>
      clients[i].socket != clients[j].socket && clients[i].timer != clients[j].timer
  }

  function Sockets(clients: seq<Connection>): set<Id> { set c | c in clients :: c.socket }

  function Timers(clients: seq<Connection>): set<Id> { set c | c in clients :: c.timer }

  function WithoutAt(clients: seq<Connection>, i: nat): seq<Connection>
    requires i < |clients|
  {
    clients[..i] + clients[i + 1..]
  }

  /** Erasing a connection disconnects its own signals and nobody else's. */
  lemma WithoutAtApart(clients: seq<Connection>, i: nat)
    requires Apart(clients) && i < |clients|
    ensures var rest := WithoutAt(clients, i);
            && Apart(rest)
            && Sockets(rest) == Sockets(clients) - {clients[i].socket}
            && Timers(rest) == Timers(clients) - {clients[i].timer}
            && (forall c :: c in rest <==> c in clients && c != clients[i])
  {
    var rest := WithoutAt(clients, i);
    forall c ensures c in rest <==> c in clients && c != clients[i] {
      if c in clients && c != clients[i] {
        var k :| 0 <= k < |clients| && clients[k] == c;
        assert c == rest[if k < i then k else k - 1];
      }
    }
    forall c | c in rest ensures c.socket != clients[i].socket && c.timer != clients[i].timer {
      var k :| 0 <= k < |rest| && rest[k] == c;
      assert c == clients[if k < i then k else k + 1];
    }
  }

  lemma AppendedApart(clients: seq<Connection>, c: Connection)
    requires Apart(clients) && c.socket !in Sockets(clients) && c.timer !in Timers(clients)
    ensures Apart(clients + [c])
    ensures Sockets(clients + [c]) == Sockets(clients) + {c.socket}
    ensures Timers(clients + [c]) == Timers(clients) + {c.timer}
  {
    assert forall d :: d in clients + [c] <==> d in clients || d == c;
  }

  class Receiver {
    var clients: seq<Connection>
    var pending: seq<Incoming>
    // messageReceived, with the socket it came over
    ghost var emitted: seq<(Id, bytes)>
    // all bytes read from a socket, for every socket ever taken
    ghost var received: map<Id, bytes>
    // the sockets and timers whose signals are connected
    ghost var socketSignals: set<Id>
    ghost var timerSignals: set<Id>

    ghost predicate SignalsConnected() reads this {
      socketSignals == Sockets(clients) && timerSignals == Timers(clients)
    }

    /** A client is one whose bytes so far ask for more. */
    ghost predicate ClientsWait() reads this {
      forall c :: c in clients ==>
        c.socket in received && c.readData == received[c.socket] && Judge(c.readData) == Wait
    }

    /** Whatever was emitted is the verdict on its connection, which is a client no more; no
        connection emitted twice. */
    ghost predicate EmittedOnce() reads this {
      && (forall k :: 0 <= k < |emitted| ==>
            emitted[k].0 in received && Judge(received[emitted[k].0]) == Emit(emitted[k].1))
      && (forall j, k :: 0 <= j < k < |emitted| ==> emitted[j].0 != emitted[k].0)
    }

    /** Every connection whose bytes are judged a message had it emitted. */
    ghost predicate EmittedAll() reads this {
      forall id :: id in received && Judge(received[id]).Emit? ==> (id, Judge(received[id]).message) in emitted
    }

    ghost predicate PendingNew() reads this {
      && (forall p :: p in pending ==> p.socket !in received && p.timer !in timerSignals)
      && (forall i, j :: 0 <= i < j < |pending| ==>
            pending[i].socket != pending[j].socket && pending[i].timer != pending[j].timer)
    }

    ghost predicate Valid() reads this {
      Apart(clients) && SignalsConnected() && ClientsWait() && EmittedOnce() && EmittedAll() && PendingNew()
    }

    constructor ()
      ensures Valid() && clients == [] && pending == [] && emitted == [] && received == map[]
    {
      clients, pending, emitted, received := [], [], [], map[];
      socketSignals, timerSignals := {}, {};
    }

    /** The lookups behind Q_ASSERT: a connected signal's sender is always found. */
    method FindBySocket(socket: Id) returns (i: nat)
      requires SignalsConnected() && socket in socketSignals
      ensures i < |clients| && clients[i].socket == socket
    {
      i := 0;
      while clients[i].socket != socket
        invariant i < |clients| && forall k :: 0 <= k < i ==> clients[k].socket != socket
        decreases |clients| - i
      {
        assert exists k :: 0 <= k < |clients| && clients[k].socket == socket;
        i := i + 1;
      }
    }

    method FindByTimer(timer: Id) returns (i: nat)
      requires SignalsConnected() && timer in timerSignals
      ensures i < |clients| && clients[i].timer == timer
    {
      i := 0;
      while clients[i].timer != timer
        invariant i < |clients| && forall k :: 0 <= k < i ==> clients[k].timer != timer
        decreases |clients| - i
      {
        assert exists k :: 0 <= k < |clients| && clients[k].timer == timer;
        i := i + 1;
      }
    }

    /** Erases one connection; its socket and timer cannot signal any more. */
    method Erase(i: nat)
      requires i < |clients| && Apart(clients) && SignalsConnected()
      modifies this`clients, this`socketSignals, this`timerSignals
      ensures clients == WithoutAt(old(clients), i) && Apart(clients) && SignalsConnected()
      ensures socketSignals == old(socketSignals) - {old(clients)[i].socket}
      ensures timerSignals == old(timerSignals) - {old(clients)[i].timer}
    {
      WithoutAtApart(clients, i);
      var c := clients[i];
      clients := clients[..i] + clients[i + 1..];
      socketSignals, timerSignals := socketSignals - {c.socket}, timerSignals - {c.timer};
    }

    /** readDataFromSecondarySocket: takes what the socket has, and is done with the connection
        as soon as its bytes as a whole are judged. */
    method ReadDataFromSecondarySocket(socket: Id, chunk: bytes) returns (done: bool)
      requires Valid() && socket in socketSignals
      modifies this
      ensures Valid() && pending == old(pending)
      ensures socket in old(received) && received == old(received)[socket := old(received)[socket] + chunk]
      ensures done <==> Judge(received[socket]) != Wait
      ensures socketSignals == old(socketSignals) - if done then {socket} else {}
      ensures emitted == old(emitted)
                + if Judge(received[socket]).Emit? then [(socket, Judge(received[socket]).message)] else []
    {
      hide Judge;
      var i := FindBySocket(socket);
      var c := clients[i];
      assert c in clients;
      SenderNeverEmitted(c);
      var data := c.readData + chunk;
      received := received[socket := data];
      var verdict := Judge(data);
      clients := clients[i := c.(readData := data)];
      ReplacedAt(old(clients), i, data);
      if verdict == Wait { return false; }
      if verdict.Emit? { emitted := emitted + [(socket, verdict.message)]; }
      WithoutAtApart(clients, i);
      Erase(i);
      return true;
    }

    /** A new connection reaches the server, with ids of its own. */
    method Arrive(p: Incoming)
      requires Valid() && p.socket !in received && p.timer !in timerSignals
      requires forall q :: q in pending ==> q.socket != p.socket && q.timer != p.timer
      modifies this`pending
      ensures Valid() && pending == old(pending) + [p]
    {
      pending := pending + [p];
    }

    method Accept() returns (p: Incoming)
      requires Valid() && pending != []
      modifies this
      ensures Valid() && p == old(pending)[0] && pending == old(pending)[1..]
      ensures p.socket !in old(received) && received == old(received)[p.socket := []]
      ensures emitted == old(emitted)
      ensures socketSignals == old(socketSignals) + {p.socket}
    {
      p := pending[0];
      pending := pending[1..];
      var c := Connection(p.socket, p.timer, []);
      AppendedApart(clients, c);
      clients := clients + [c];
      socketSignals, timerSignals := socketSignals + {p.socket}, timerSignals + {p.timer};
      received := received[p.socket := []];
    }

    /** handleNewConnection: reads each new connection at once, and stops at the first that is
        done with. */
    method HandleNewConnection()
      requires Valid()
      modifies this
      ensures Valid()
      ensures pending == old(pending)[Taken(old(pending))..]
      ensures forall k :: 0 <= k < Taken(old(pending)) ==>
                && old(pending)[k].socket in received
                && received[old(pending)[k].socket] == old(pending)[k].available
      ensures forall id :: id in old(received) ==> id in received && received[id] == old(received)[id]
      // of those taken, the ones that are neither judged nor closed by the other end stay
      ensures socketSignals == old(socketSignals) + Staying(old(pending)[..Taken(old(pending))])
    {
      hide Judge, Taken, Apart, SignalsConnected, ClientsWait, EmittedOnce, EmittedAll, PendingNew, Valid;
      ghost var all := pending;
      ghost var taken := 0;
      while pending != []
        invariant Valid() && taken <= |all| && pending == all[taken..]
        invariant Taken(all) == taken + Taken(pending)
        invariant forall k :: 0 <= k < taken ==>
                    all[k].socket in received && received[all[k].socket] == all[k].available
        invariant forall id :: id in old(received) ==> id in received && received[id] == old(received)[id]
        invariant socketSignals == old(socketSignals) + Staying(all[..taken])
        decreases |pending|
      {
        TakenNext(pending);
        StayingNext(all, taken);
        KnownSockets();
        var p := Accept();
        taken := taken + 1;
        var done := ReadDataFromSecondarySocket(p.socket, p.available);
        assert [] + p.available == p.available;
        if done {
          assert all[..taken] == all[..Taken(all)];
          return;
        }
        if p.closed { SecondaryDisconnected(p.socket); }
      }
    }

    /** secondaryDisconnected. */
    method SecondaryDisconnected(socket: Id)
      requires Valid() && socket in socketSignals
      modifies this`clients, this`socketSignals, this`timerSignals
      ensures Valid() && socketSignals == old(socketSignals) - {socket}
      ensures exists i :: 0 <= i < |old(clients)| && old(clients)[i].socket == socket
                          && clients == WithoutAt(old(clients), i)
    {
      var i := FindBySocket(socket);
      WithoutAtApart(clients, i);
      Erase(i);
    }

    /** abortConnectionToSecondary, at the connection's timeout. */
    method AbortConnection(timer: Id)
      requires Valid() && timer in timerSignals
      modifies this`clients, this`socketSignals, this`timerSignals
      ensures Valid() && timerSignals == old(timerSignals) - {timer}
      ensures exists i :: 0 <= i < |old(clients)| && old(clients)[i].timer == timer
                          && clients == WithoutAt(old(clients), i)
    {
      var i := FindByTimer(timer);
      WithoutAtApart(clients, i);
      Erase(i);
    }

    /** Only sockets that were accepted signal. */
    lemma KnownSockets()
      requires Valid()
      ensures forall id :: id in socketSignals ==> id in received
    {
    }

    lemma SenderNeverEmitted(c: Connection)
      requires ClientsWait() && EmittedOnce() && c in clients
      ensures forall k :: 0 <= k < |emitted| ==> emitted[k].0 != c.socket
    {
    }
  }

  /** Filling a connection's buffer changes nobody's signals. */
  lemma ReplacedAt(clients: seq<Connection>, i: nat, data: bytes)
    requires Apart(clients) && i < |clients|
    ensures var all := clients[i := clients[i].(readData := data)];
            && Apart(all) && Sockets(all) == Sockets(clients) && Timers(all) == Timers(clients)
            && (forall c :: c in all && c.socket != clients[i].socket ==> c in clients)
            && (forall c :: c in all && c.socket == clients[i].socket ==> c.readData == data)
  {
    var all := clients[i := clients[i].(readData := data)];
    assert forall k :: 0 <= k < |all| ==> all[k].socket == clients[k].socket && all[k].timer == clients[k].timer;
    SameSignals(clients, all);
    SameSignals(all, clients);
  }

  lemma SameSignals(a: seq<Connection>, b: seq<Connection>)
    requires |a| == |b| && forall k :: 0 <= k < |a| ==> a[k].socket == b[k].socket && a[k].timer == b[k].timer
    ensures Sockets(a) <= Sockets(b) && Timers(a) <= Timers(b)
  {
    forall c | c in a ensures c.socket in Sockets(b) && c.timer in Timers(b) {
      var k :| 0 <= k < |a| && a[k] == c;
      assert b[k] in b;
    }
  }

  /** One signal leaves connections waiting exactly when one before the last is judged on what
      it brought; it always takes one at least. */
  lemma {:induction false} TakenAll(pending: seq<Incoming>)
    ensures pending != [] ==> 1 <= Taken(pending) <= |pending|
    ensures Taken(pending) == |pending| <==>
            forall k :: 0 <= k < |pending| - 1 ==> Judge(pending[k].available) == Wait
  {
    hide Judge;
    if pending != [] {
      TakenAll(pending[1..]);
      forall k | 0 < k < |pending| - 1 ensures pending[k] == pending[1..][k - 1] {}
      if forall k :: 0 <= k < |pending| - 1 ==> Judge(pending[k].available) == Wait {
        forall k | 0 <= k < |pending[1..]| - 1 ensures Judge(pending[1..][k].available) == Wait {
          assert pending[1..][k] == pending[k + 1];
        }
      }
    }
  }
}
