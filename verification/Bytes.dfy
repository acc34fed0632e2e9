/** Small value types shared by every module, and the byte arithmetic of the wire formats. */
module Bytes {

  datatype Option<+T> = None | Some(value: T)

  datatype Result<+T, +E> = Ok(value: T) | Err(error: E)

  /** A byte of a wire format, read as a number. Raster rows, whose bytes are bit patterns, use bv8. */
  newtype byte = x: int | 0 <= x < 0x100

  /** Exclusive or of two numbers, from the least significant bit up. */
  function XorNat(a: nat, b: nat): nat
    decreases a + b
  {
    if a == 0 && b == 0 then 0
    else 2 * XorNat(a / 2, b / 2) + (if a % 2 == b % 2 then 0 else 1)
  }

  ghost function Exp2(n: nat): nat {
    if n == 0 then 1 else 2 * Exp2(n - 1)
  }

  lemma {:induction false} XorNatBounded(a: nat, b: nat, bits: nat)
    requires a < Exp2(bits) && b < Exp2(bits)
    ensures XorNat(a, b) < Exp2(bits)
  {
    if bits > 0 && (a != 0 || b != 0) {
      XorNatBounded(a / 2, b / 2, bits - 1);
    }
  }

  function Xor(a: byte, b: byte): byte {
    assert Exp2(8) == 0x100;
    XorNatBounded(a as nat, b as nat, 8);
    XorNat(a as nat, b as nat) as byte
  }

  lemma {:induction false} XorNatInjective(a: nat, b: nat, c: nat)
    requires XorNat(a, c) == XorNat(b, c)
    ensures a == b
    decreases a + b + c
  {
    if a + b + c > 0 {
      assert XorNat(a, c) == 2 * XorNat(a / 2, c / 2) + (if a % 2 == c % 2 then 0 else 1);
      assert XorNat(b, c) == 2 * XorNat(b / 2, c / 2) + (if b % 2 == c % 2 then 0 else 1);
      XorNatInjective(a / 2, b / 2, c / 2);
    }
  }

  lemma {:induction false} XorNatZero(a: nat)
    ensures XorNat(a, 0) == a
  {
    if a > 0 {
      XorNatZero(a / 2);
    }
  }

  /** XOR with a fixed byte never identifies two bytes. */
  lemma XorInjective(a: byte, b: byte, c: byte)
    requires Xor(a, c) == Xor(b, c)
    ensures a == b
  {
    XorNatInjective(a as nat, b as nat, c as nat);
  }

  lemma {:induction false} XorNatCommutes(a: nat, b: nat)
    ensures XorNat(a, b) == XorNat(b, a)
    decreases a + b
  {
    if a + b > 0 {
      XorNatCommutes(a / 2, b / 2);
    }
  }

  lemma XorCommutes(a: byte, b: byte)
    ensures Xor(a, b) == Xor(b, a)
  {
    XorNatCommutes(a as nat, b as nat);
  }

  /** Bit k of a number, least significant first. */
  ghost predicate BitAt(n: nat, k: nat) {
    if k == 0 then n % 2 == 1 else BitAt(n / 2, k - 1)
  }

  /** XorNat is exclusive or: a bit is set in the result when it is set in exactly one operand. */
  lemma {:induction false} XorIsBitwise(a: nat, b: nat, k: nat)
    ensures BitAt(XorNat(a, b), k) <==> BitAt(a, k) != BitAt(b, k)
    decreases k
  {
    if a + b == 0 {
      ZeroHasNoBits(k);
    } else if k > 0 {
      XorIsBitwise(a / 2, b / 2, k - 1);
    }
  }

  lemma {:induction false} ZeroHasNoBits(k: nat)
    ensures !BitAt(0, k)
  {
    if k > 0 {
      ZeroHasNoBits(k - 1);
    }
  }

  /** A 16-bit big-endian field, with the truncation of a Go uint16 conversion. */
  function U16(v: nat): (s: seq<byte>)
    ensures |s| == 2
    ensures v < 0x10000 ==> ReadU16(s) == v
  {
    [((v / 0x100) % 0x100) as byte, (v % 0x100) as byte]
  }

  function ReadU16(s: seq<byte>): (v: nat)
    requires |s| >= 2
    ensures v < 0x10000
  {
    0x100 * (s[0] as nat) + s[1] as nat
  }

  /** 16-bit fields are big-endian. */
  lemma FieldsAreBigEndian(v: nat)
    requires v < 0x10000
    ensures v == 0x100 * U16(v)[0] as nat + U16(v)[1] as nat
    ensures ReadU16([0x12, 0x34]) == 0x1234
  {
    assert v / 0x100 < 0x100;
  }

  // ---- Bits of bytes ----

  /** How many bytes of a string have bit k set. */
  ghost function OnesAt(s: seq<byte>, k: nat): nat {
    if s == [] then 0 else OnesAt(s[..|s| - 1], k) + if BitAt(s[|s| - 1] as nat, k) then 1 else 0
  }

  /** Every bit is set in an even number of bytes: the exclusive or of all of them is zero. */
  ghost predicate Even(s: seq<byte>) {
    forall k :: 0 <= k < 8 ==> OnesAt(s, k) % 2 == 0
  }

  lemma OnesAtOne(s: seq<byte>, b: byte, k: nat)
    ensures OnesAt(s + [b], k) == OnesAt(s, k) + if BitAt(b as nat, k) then 1 else 0
  {
    assert (s + [b])[..|s|] == s;
  }

  lemma {:induction false} OnesAtAppend(a: seq<byte>, b: seq<byte>, k: nat)
    ensures OnesAt(a + b, k) == OnesAt(a, k) + OnesAt(b, k)
  {
    hide BitAt;
    if b == [] {
      assert a + b == a;
    } else {
      var n := |b| - 1;
      assert (a + b)[..|a| + n] == a + b[..n];
      OnesAtAppend(a, b[..n], k);
    }
  }

  ghost predicate AgreeTo(a: nat, b: nat, bits: nat) {
    forall k: nat :: k < bits ==> (BitAt(a, k) <==> BitAt(b, k))
  }

  lemma {:induction false} SameBits(a: nat, b: nat, bits: nat)
    requires a < Exp2(bits) && b < Exp2(bits)
    requires AgreeTo(a, b, bits)
    ensures a == b
  {
    if bits > 0 {
      assert BitAt(a, 0) <==> BitAt(b, 0);
      forall k: nat | k < bits - 1
        ensures BitAt(a / 2, k) <==> BitAt(b / 2, k)
      {
        assert BitAt(a, k + 1) <==> BitAt(b, k + 1);
      }
      SameBits(a / 2, b / 2, bits - 1);
    }
  }

  /** A byte is its eight bits. */
  lemma BytesAreTheirBits(a: byte, b: byte)
    ensures a == b <==> AgreeTo(a as nat, b as nat, 8)
  {
    assert Exp2(8) == 0x100;
    if AgreeTo(a as nat, b as nat, 8) {
      SameBits(a as nat, b as nat, 8);
    }
  }

  lemma OneChangeIsOdd(a: seq<byte>, b: byte, c: byte, rest: seq<byte>)
    requires Even(a + [b] + rest) && b != c
    ensures !Even(a + [c] + rest)
  {
    BytesAreTheirBits(b, c);
    var k: nat :| k < 8 && BitAt(b as nat, k) != BitAt(c as nat, k);
    OnesAtOne(a, b, k);
    OnesAtOne(a, c, k);
    OnesAtAppend(a + [b], rest, k);
    OnesAtAppend(a + [c], rest, k);
    assert OnesAt(a + [b] + rest, k) % 2 == 0;
  }

  lemma Assoc<T>(a: seq<T>, b: seq<T>, c: seq<T>)
    ensures (a + b) + c == a + (b + c)
  {
  }

  lemma DropConcat<T>(a: seq<T>, b: seq<T>, n: nat)
    requires n <= |a|
    ensures (a + b)[n..] == a[n..] + b
  {
  }

  lemma SplitAt<T>(s: seq<T>, n: nat)
    requires n <= |s|
    ensures s == s[..n] + s[n..]
  {
  }

  /** Concatenation of a list of lists. */
  function Flatten<T>(parts: seq<seq<T>>): seq<T> {
    if parts == [] then [] else parts[0] + Flatten(parts[1..])
  }

  lemma {:induction false} FlattenAppend<T>(a: seq<seq<T>>, b: seq<seq<T>>)
    ensures Flatten(a + b) == Flatten(a) + Flatten(b)
  {
    if a == [] {
      assert a + b == b;
    } else {
      assert (a + b)[1..] == a[1..] + b;
      FlattenAppend(a[1..], b);
    }
  }
}
