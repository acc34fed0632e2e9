/** NIIMBOT frames: internal/niimbot/packet.go, the packet half. */
module Framing {
  import opened Bytes

  const HEAD: byte := 0x55
  const TAIL: byte := 0xAA
  const OVERHEAD: nat := 7
  const MAX_DATA: nat := 255

  datatype Packet = Packet(cmd: byte, data: seq<byte>)

  datatype FrameError = PacketTooLong

  /** XOR of an accumulator with every byte of a string. */
  function XorAll(acc: byte, data: seq<byte>): byte {
    if data == [] then acc else Xor(XorAll(acc, data[..|data| - 1]), data[|data| - 1])
  }

  function Checksum(cmd: byte, data: seq<byte>): byte {
    XorAll(Xor(cmd, (|data| % 0x100) as byte), data)
  }

  method ComputeChecksum(cmd: byte, data: seq<byte>) returns (cs: byte)
    ensures cs == Checksum(cmd, data)
  {
    cs := Xor(cmd, (|data| % 0x100) as byte);
    for i := 0 to |data|
      invariant cs == XorAll(Xor(cmd, (|data| % 0x100) as byte), data[..i])
    {
      assert data[..i + 1][..i] == data[..i];
      cs := Xor(cs, data[i]);
    }
    assert data[..|data|] == data;
  }

  /** What the wire carries for a packet, field by field. */
  ghost predicate IsFrame(s: seq<byte>, p: Packet) {
    var n := |p.data|;
    && n <= MAX_DATA
    && |s| == n + OVERHEAD
    && s[0] == HEAD && s[1] == HEAD
    && s[2] == p.cmd
    && s[3] as nat == n
    && s[4..4 + n] == p.data
    && s[4 + n] == Checksum(p.cmd, p.data)
    && s[5 + n] == TAIL && s[6 + n] == TAIL
  }

  ghost predicate AllFit(packets: seq<Packet>) {
    forall i :: 0 <= i < |packets| ==> |packets[i].data| <= MAX_DATA
  }

  function Frame(p: Packet): (s: seq<byte>)
    requires |p.data| <= MAX_DATA
    ensures IsFrame(s, p)
  {
    var s := [HEAD, HEAD, p.cmd, |p.data| as byte] + p.data + [Checksum(p.cmd, p.data), TAIL, TAIL];
    assert s[4..4 + |p.data|] == p.data;
    s
  }

  /** The layout leaves no freedom: a packet has one wire image, and an image one packet. */
  lemma FrameIsUnique(s: seq<byte>, t: seq<byte>, p: Packet, q: Packet)
    requires IsFrame(s, p) && IsFrame(t, q)
    ensures s == t <==> p == q
  {
    if p == q {
      forall i | 0 <= i < |s|
        ensures s[i] == t[i]
      {
        if 4 <= i < 4 + |p.data| {
          assert s[i] == s[4..4 + |p.data|][i - 4];
          assert t[i] == t[4..4 + |p.data|][i - 4];
        }
      }
    }
  }

  method Marshal(p: Packet) returns (r: Result<seq<byte>, FrameError>)
    ensures |p.data| > MAX_DATA ==> r == Err(PacketTooLong)
    ensures |p.data| <= MAX_DATA ==> r.Ok? && IsFrame(r.value, p) && r.value == Frame(p)
  {
    if |p.data| > MAX_DATA {
      return Err(PacketTooLong);
    }
    var buf: seq<byte> := [];
    buf := buf + [HEAD, HEAD, p.cmd, |p.data| as byte];
    buf := buf + p.data;
    var cs := ComputeChecksum(p.cmd, p.data);
    buf := buf + [cs, TAIL, TAIL];
    return Ok(buf);
  }

  /** A heartbeat frame as captured from a printer. */
  lemma CapturedHeartbeat()
    ensures Frame(Packet(0xDC, [1])) == [0x55, 0x55, 0xDC, 0x01, 0x01, 0xDC, 0xAA, 0xAA]
  {
    hide Xor;
    OneByteChecksum(0xDC, 1);
    XorSamples();
  }

  lemma XorSamples()
    ensures Xor(0xDC, 1) == 0xDD && Xor(0xDD, 1) == 0xDC
  {
    XorNatZero(0x6E);
  }

  lemma OneByteChecksum(cmd: byte, b: byte)
    ensures Checksum(cmd, [b]) == Xor(Xor(cmd, 1), b)
  {
    hide Xor;
    assert [b][..0] == [];
    assert XorAll(Xor(cmd, 1), []) == Xor(cmd, 1);
  }

  lemma {:induction false} XorAllInjectiveInAcc(a: byte, b: byte, data: seq<byte>)
    requires XorAll(a, data) == XorAll(b, data)
    ensures a == b
  {
    if data != [] {
      var n := |data| - 1;
      XorInjective(XorAll(a, data[..n]), XorAll(b, data[..n]), data[n]);
      XorAllInjectiveInAcc(a, b, data[..n]);
    }
  }

  lemma XorAllAppend(acc: byte, data: seq<byte>, b: byte)
    ensures XorAll(acc, data + [b]) == Xor(XorAll(acc, data), b)
  {
    assert (data + [b])[..|data|] == data;
  }

  lemma {:induction false} XorAllDetectsChange(acc: byte, data: seq<byte>, i: nat, b: byte)
    requires i < |data|
    requires XorAll(acc, data[i := b]) == XorAll(acc, data)
    ensures data[i] == b
  {
    var init, last := data[..|data| - 1], data[|data| - 1];
    assert data == init + [last];
    XorAllAppend(acc, init, last);
    if i == |init| {
      assert data[i := b] == init + [b];
      XorAllAppend(acc, init, b);
      XorCommutes(XorAll(acc, init), last);
      XorCommutes(XorAll(acc, init), b);
      XorInjective(b, last, XorAll(acc, init));
    } else {
      assert data[i := b] == init[i := b] + [last];
      XorAllAppend(acc, init[i := b], last);
      XorInjective(XorAll(acc, init[i := b]), XorAll(acc, init), last);
      XorAllDetectsChange(acc, init, i, b);
    }
  }

  /** The checksum notices any change of the command byte or of one data byte. */
  lemma ChecksumDetectsOneByte(cmd: byte, cmd': byte, data: seq<byte>, i: nat, b: byte)
    requires i < |data|
    ensures Checksum(cmd, data[i := b]) == Checksum(cmd, data) <==> data[i] == b
    ensures Checksum(cmd', data) == Checksum(cmd, data) <==> cmd' == cmd
  {
    var len := (|data| % 0x100) as byte;
    if Checksum(cmd, data[i := b]) == Checksum(cmd, data) {
      XorAllDetectsChange(Xor(cmd, len), data, i, b);
    }
    if data[i] == b {
      assert data[i := b] == data;
    }
    if Checksum(cmd', data) == Checksum(cmd, data) {
      XorAllInjectiveInAcc(Xor(cmd', len), Xor(cmd, len), data);
      XorInjective(cmd', cmd, len);
    }
  }

  // ---- The checksum, bit by bit ----

  lemma {:induction false} XorAllBits(acc: byte, data: seq<byte>, k: nat)
    ensures BitAt(XorAll(acc, data) as nat, k) <==> BitAt(acc as nat, k) != (OnesAt(data, k) % 2 == 1)
  {
    hide BitAt;
    if data != [] {
      var n := |data| - 1;
      XorAllBits(acc, data[..n], k);
      XorIsBitwise(XorAll(acc, data[..n]) as nat, data[n] as nat, k);
    }
  }

  /** What a frame carries between its head and its tail. */
  function Body(s: seq<byte>): seq<byte>
    requires |s| >= OVERHEAD
  {
    s[2..|s| - 2]
  }

  /** A complete frame by its shape: head, tail, and as long as its length byte says. */
  ghost predicate Shaped(s: seq<byte>) {
    && |s| >= OVERHEAD
    && s[0] == 0x55 && s[1] == 0x55 && s[|s| - 2] == 0xAA && s[|s| - 1] == 0xAA
    && |s| == s[3] as nat + 7
  }

  lemma BodyBits(s: seq<byte>, k: nat)
    requires Shaped(s)
    ensures OnesAt(Body(s), k) % 2 == 0
      <==> (BitAt(s[|s| - 3] as nat, k) <==> BitAt(Checksum(s[2], s[4..|s| - 3]) as nat, k))
  {
    hide BitAt, XorAll;
    var cmd, len, data, cs := s[2], s[3], s[4..|s| - 3], s[|s| - 3];
    assert Body(s) == [] + [cmd] + [len] + data + [cs];
    OnesAtOne([], cmd, k);
    OnesAtOne([] + [cmd], len, k);
    OnesAtAppend([] + [cmd] + [len], data, k);
    OnesAtOne([] + [cmd] + [len] + data, cs, k);
    assert (|data| % 0x100) as byte == len;
    XorAllBits(Xor(cmd, len), data, k);
    XorIsBitwise(cmd as nat, len as nat, k);
  }

  lemma ChecksumIsParity(s: seq<byte>)
    requires Shaped(s)
    ensures s[|s| - 3] == Checksum(s[2], s[4..|s| - 3]) <==> Even(Body(s))
  {
    hide BitAt, Checksum, OnesAt, Body;
    var have, want := s[|s| - 3], Checksum(s[2], s[4..|s| - 3]);
    BytesAreTheirBits(have, want);
    if have == want {
      forall k | 0 <= k < 8
        ensures OnesAt(Body(s), k) % 2 == 0
      {
        BodyBits(s, k);
      }
    }
    if Even(Body(s)) {
      var h: nat, w: nat := have as nat, want as nat;
      forall k: nat | k < 8
        ensures BitAt(h, k) <==> BitAt(w, k)
      {
        assert OnesAt(Body(s), k) % 2 == 0;
        BodyBits(s, k);
      }
    }
  }

  /**
   * A string is the frame of a packet exactly when it has the shape of a frame, carries the packet's command and
   * data, and the exclusive or of command, length, data and checksum bytes is zero.
   */
  lemma FrameIsEven(s: seq<byte>, p: Packet)
    ensures IsFrame(s, p) <==> Shaped(s) && s[2] == p.cmd && s[4..|s| - 3] == p.data && Even(Body(s))
  {
    hide Checksum, Even;
    if IsFrame(s, p) {
      assert |s| - 3 == 4 + |p.data|;
      assert s[4..|s| - 3] == p.data;
      ChecksumIsParity(s);
    } else if Shaped(s) && s[2] == p.cmd && s[4..|s| - 3] == p.data && Even(Body(s)) {
      assert |s| - 3 == 4 + |p.data|;
      ChecksumIsParity(s);
    }
  }

  /** Changing any one byte between head and tail, the length byte included, leaves a nonzero exclusive or. */
  lemma OneByteBreaksParity(s: seq<byte>, i: nat, b: byte)
    requires Shaped(s) && Even(Body(s)) && 2 <= i < |s| - 2 && b != s[i]
    ensures !Even(Body(s[i := b]))
  {
    var body, at := Body(s), i - 2;
    assert body == body[..at] + [s[i]] + body[at + 1..];
    assert Body(s[i := b]) == body[..at] + [b] + body[at + 1..];
    OneChangeIsOdd(body[..at], s[i], b, body[at + 1..]);
  }

  /** Frames without data and with two data bytes; the second one sets the print quantity to two copies. */
  lemma FramesBySize(s: seq<byte>, p: Packet)
    requires IsFrame(s, p)
    ensures p == Packet(0x15, [0x00, 0x02]) ==> s == [0x55, 0x55, 0x15, 0x02, 0x00, 0x02, 0x15, 0xAA, 0xAA]
    ensures p == Packet(0x40, []) ==> s == [0x55, 0x55, 0x40, 0x00, 0x40, 0xAA, 0xAA]
  {
    hide Xor, XorAll;
    if p == Packet(0x40, []) {
      assert Checksum(0x40, []) == 0x40 by {
        EmptyChecksum(0x40);
      }
      assert |s| == 7;
      assert forall i :: 0 <= i < 7 ==> s[i] == [0x55, 0x55, 0x40, 0x00, 0x40, 0xAA, 0xAA][i];
    } else if p == Packet(0x15, [0x00, 0x02]) {
      TwoByteChecksum();
      assert s[4] == s[4..6][0] && s[5] == s[4..6][1];
      assert forall i :: 0 <= i < 9 ==> s[i] == [0x55, 0x55, 0x15, 0x02, 0x00, 0x02, 0x15, 0xAA, 0xAA][i];
    }
  }

  lemma EmptyChecksum(cmd: byte)
    ensures Checksum(cmd, []) == cmd
  {
    XorNatZero(cmd as nat);
  }

  lemma TwoByteChecksum()
    ensures Checksum(0x15, [0x00, 0x02]) == 0x15
  {
    hide Xor;
    var data: seq<byte> := [0x00, 0x02];
    assert data[..1] == [0x00] && data[..1][..0] == [];
    assert XorAll(Xor(0x15, 2), data) == Xor(Xor(Xor(0x15, 2), 0), 2);
    QuantityXors();
  }

  lemma QuantityXors()
    ensures Xor(0x15, 2) == 0x17 && Xor(0x17, 0) == 0x17 && Xor(0x17, 2) == 0x15
  {
    XorNatZero(0x17);
    XorNatZero(0x05);
  }
}
