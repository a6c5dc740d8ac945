/** The bytes of a message and what becomes of them, said byte by byte
    (3rdparty/kdsingleapplication/kdsingleapplication_localsocket.cpp). */
module MessageBytes {
  import opened Bytes
  import opened MessageReceiver

  function Four(a: byte, b: byte, c: byte, d: byte): nat {
    a as nat * 16777216 + b as nat * 65536 + c as nat * 256 + d as nat
  }

  lemma NumberMore(s: bytes, last: byte)
    ensures Number(s + [last]) == Number(s) * 256 + last as nat
  {
    assert (s + [last])[..|s|] == s;
  }

  lemma NumberOfFour(a: byte, b: byte, c: byte, d: byte)
    ensures Number([a, b, c, d]) == Four(a, b, c, d)
  {
    hide Number;
    NumberOfNone();
    NumberMore([], a);
    NumberMore([a], b);
    NumberMore([a, b], c);
    NumberMore([a, b, c], d);
    assert [] + [a] == [a] && [a] + [b] == [a, b] && [a, b] + [c] == [a, b, c] && [a, b, c] + [d] == [a, b, c, d];
  }

  lemma NumberOfNone()
    ensures Number([]) == 0
  {
  }

  lemma FourMore(s: bytes, a: byte, b: byte, c: byte, d: byte)
    ensures Number(s + [a, b, c, d]) == Number(s) * 4294967296 + Four(a, b, c, d)
  {
    hide Number;
    NumberMore(s, a);
    NumberMore(s + [a], b);
    NumberMore(s + [a] + [b], c);
    NumberMore(s + [a] + [b] + [c], d);
    assert s + [a] + [b] + [c] + [d] == s + [a, b, c, d];
  }

  /** A connection is refused for its first byte alone, if that is no 2. Then comes the length in four
      bytes, the most significant first: all ones is a null message, one less says that the length follows
      in eight bytes. The message is emitted once that many bytes are there. */
  lemma JudgeMeans(data: bytes)
    ensures data == [] ==> Judge(data) == Wait
    ensures data != [] && data[0] as nat != 2 ==> Judge(data) == Reject
    ensures data != [] && data[0] as nat == 2 && |data| < 5 ==> Judge(data) == Wait
    ensures |data| >= 5 && data[0] as nat == 2 ==>
              var n := Four(data[1], data[2], data[3], data[4]);
              && (n == 0xFFFFFFFF ==> Judge(data) == Emit([]))
              && (n < 0xFFFFFFFE ==> Judge(data) == if |data| >= 5 + n then Emit(data[5..5 + n]) else Wait)
              && (n == 0xFFFFFFFE && |data| < 13 ==> Judge(data) == Wait)
    ensures |data| >= 13 && data[0] as nat == 2 && Four(data[1], data[2], data[3], data[4]) == 0xFFFFFFFE ==>
              var m := Four(data[5], data[6], data[7], data[8]) * 4294967296
                       + Four(data[9], data[10], data[11], data[12]);
              Judge(data) == if |data| >= 13 + m then Emit(data[13..13 + m]) else Wait
  {
    hide Number, Four;
    if |data| >= 5 {
      var s := data[1..];
      assert s[..4] == [data[1], data[2], data[3], data[4]];
      NumberOfFour(data[1], data[2], data[3], data[4]);
      var n := Four(data[1], data[2], data[3], data[4]);
      if |s| >= 4 + n { assert s[4..4 + n] == data[5..5 + n]; }
      if |data| >= 13 {
        assert s[4..12] == [data[5], data[6], data[7], data[8]] + [data[9], data[10], data[11], data[12]];
        NumberOfFour(data[5], data[6], data[7], data[8]);
        FourMore([data[5], data[6], data[7], data[8]], data[9], data[10], data[11], data[12]);
        var m := Number(s[4..12]);
        if |s| >= 12 + m { assert s[12..12 + m] == data[13..13 + m]; }
      }
    }
  }

  /** The version byte 2, the length in four bytes, the most significant first, and the message. */
  lemma EncodeMeans(message: bytes)
    requires |message| < 0x1_0000_0000
    ensures exists a: byte, b: byte, c: byte, d: byte ::
              Encode(message) == [2, a, b, c, d] + message && Four(a, b, c, d) == |message|
  {
    hide BigEndian, Number, Four;
    var s := BigEndian(|message|, 4);
    assert s == [s[0], s[1], s[2], s[3]];
    assert Power256(4) == 0x1_0000_0000 by {
      assert Power256(1) == 256 && Power256(2) == 65536 && Power256(3) == 16777216;
    }
    NumberOfBigEndian(|message|, 4, Power256(4));
    NumberOfFour(s[0], s[1], s[2], s[3]);
    assert [PROTOCOL_VERSION] + s + message == [2, s[0], s[1], s[2], s[3]] + message;
  }
}
