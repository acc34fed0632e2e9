/** PackBits expansion, section 9 of TIFF 6.0: packbitsDecode of internal/printer/render.go. */
module PackBits {
  import opened Bytes

  /** A byte as a signed 8-bit header. */
  function Signed(b: byte): int {
    if b < 128 then b as int else b as int - 256
  }

  function Fill(b: byte, n: nat): (s: seq<byte>)
    ensures |s| == n && forall i :: 0 <= i < n ==> s[i] == b
  {
    seq(n, _ => b)
  }

  /** What is still produced from src when `need` more bytes are wanted. */
  function Unpack(src: seq<byte>, need: int): seq<byte>
    decreases |src|
  {
    if src == [] || need <= 0 then []
    else
      var hdr := Signed(src[0]);
      if hdr >= 0 then
        var n := if hdr + 1 < |src| - 1 then hdr + 1 else |src| - 1;
        src[1..1 + n] + Unpack(src[1 + n..], need - n)
      else if hdr != -128 then
        if |src| > 1 then Fill(src[1], 1 - hdr) + Unpack(src[2..], need - (1 - hdr)) else []
      else Unpack(src[1..], need)
  }

  /** One step of Unpack, on a suffix of the source. */
  lemma UnpackAt(src: seq<byte>, i: nat, need: int)
    requires i < |src| && need > 0
    ensures var hdr := Signed(src[i]);
            var n := if hdr + 1 < |src| - i - 1 then hdr + 1 else |src| - i - 1;
            && (hdr >= 0 ==> Unpack(src[i..], need) == src[i + 1..i + 1 + n] + Unpack(src[i + 1 + n..], need - n))
            && (-128 < hdr < 0 && i + 1 < |src| ==>
                  Unpack(src[i..], need) == Fill(src[i + 1], 1 - hdr) + Unpack(src[i + 2..], need - (1 - hdr)))
            && (-128 < hdr < 0 && i + 1 == |src| ==> Unpack(src[i..], need) == [])
            && (hdr == -128 ==> Unpack(src[i..], need) == Unpack(src[i + 1..], need))
  {
    hide Fill;
    var rest, hdr := src[i..], Signed(src[i]);
    if hdr >= 0 {
      var n := if hdr + 1 < |src| - i - 1 then hdr + 1 else |src| - i - 1;
      assert rest[1..1 + n] == src[i + 1..i + 1 + n] && rest[1 + n..] == src[i + 1 + n..];
    } else if hdr != -128 {
      if i + 1 < |src| {
        assert rest[1] == src[i + 1] && rest[2..] == src[i + 2..];
      }
    } else {
      assert rest[1..] == src[i + 1..];
    }
  }

  lemma UnpackOver(src: seq<byte>, need: int)
    requires src == [] || need <= 0
    ensures Unpack(src, need) == []
  {
  }

  method PackbitsDecode(src: seq<byte>, expected: int) returns (out: seq<byte>)
    ensures out == Unpack(src, expected)
  {
    hide Unpack;
    out := [];
    var i := 0;
    while i < |src| && |out| < expected
      invariant 0 <= i <= |src|
      invariant Unpack(src, expected) == out + Unpack(src[i..], expected - |out|)
      decreases |src| - i
    {
      ghost var was, need := out, expected - |out|;
      UnpackAt(src, i, need);
      var hdr := Signed(src[i]);
      i := i + 1;
      if hdr >= 0 {
        var k := 0;
        ghost var from := i;
        while k <= hdr && i < |src|
          invariant 0 <= k <= hdr + 1 && i == from + k <= |src|
          invariant out == was + src[from..i]
          decreases |src| - i
        {
          out := out + [src[i]];
          i := i + 1;
          k := k + 1;
        }
        Assoc(was, src[from..i], Unpack(src[i..], need - k));
      } else if hdr != -128 {
        if i < |src| {
          var b, k := src[i], 0;
          i := i + 1;
          while k < 1 - hdr
            invariant 0 <= k <= 1 - hdr
            invariant out == was + Fill(b, k)
          {
            out := out + [b];
            k := k + 1;
          }
          Assoc(was, Fill(b, k), Unpack(src[i..], need - k));
        } else {
          UnpackOver(src[i..], need);
        }
      }
    }
    UnpackOver(src[i..], expected - |out|);
  }

  /** Arbitrary input overshoots by at most 127 bytes, the most one segment can add beyond its first. */
  lemma {:induction false} UnpackBound(src: seq<byte>, need: int)
    ensures |Unpack(src, need)| <= if need > 0 then need + 127 else 0
    decreases |src|
  {
    hide Unpack;
    if src == [] || need <= 0 {
      UnpackOver(src, need);
    } else {
      var hdr := Signed(src[0]);
      assert src[0..] == src;
      UnpackAt(src, 0, need);
      if hdr >= 0 {
        var n := if hdr + 1 < |src| - 1 then hdr + 1 else |src| - 1;
        UnpackBound(src[1 + n..], need - n);
      } else if hdr != -128 {
        if |src| > 1 {
          UnpackBound(src[2..], need - (1 - hdr));
        }
      } else {
        UnpackBound(src[1..], need);
      }
    }
  }

  // ---- Encodings ----

  /** The segments section 9 of TIFF 6.0 defines. */
  datatype Segment = Literal(bytes: seq<byte>) | Replicate(count: nat, b: byte) | NoOp {
    predicate Valid() {
      match this
      case Literal(s) => 1 <= |s| <= 128
      case Replicate(n, _) => 2 <= n <= 128
      case NoOp => true
    }

    function Code(): seq<byte>
      requires Valid()
    {
      match this
      case Literal(s) => [(|s| - 1) as byte] + s
      case Replicate(n, b) => [(257 - n) as byte, b]
      case NoOp => [128]
    }

    function Content(): seq<byte> {
      match this
      case Literal(s) => s
      case Replicate(n, b) => Fill(b, n)
      case NoOp => []
    }
  }

  ghost predicate AllValid(segs: seq<Segment>) {
    forall i :: 0 <= i < |segs| ==> segs[i].Valid()
  }

  function Encoding(segs: seq<Segment>): seq<byte>
    requires AllValid(segs)
  {
    if segs == [] then [] else segs[0].Code() + Encoding(segs[1..])
  }

  function Expansion(segs: seq<Segment>): seq<byte> {
    if segs == [] then [] else segs[0].Content() + Expansion(segs[1..])
  }

  lemma CodeParts(head: seq<byte>, body: seq<byte>, rest: seq<byte>)
    ensures var src := head + body + rest;
            src[|head|..|head| + |body|] == body && src[|head| + |body|..] == rest && src[0..] == src
  {
  }

  lemma UnpackLiteral(s: seq<byte>, rest: seq<byte>, need: int)
    requires Literal(s).Valid() && need > 0
    ensures Unpack(Literal(s).Code() + rest, need) == s + Unpack(rest, need - |s|)
  {
    hide Unpack, Fill;
    var src := Literal(s).Code() + rest;
    CodeParts([(|s| - 1) as byte], s, rest);
    assert Signed(src[0]) == |s| - 1;
    UnpackAt(src, 0, need);
  }

  lemma UnpackReplicate(n: nat, b: byte, rest: seq<byte>, need: int)
    requires Replicate(n, b).Valid() && need > 0
    ensures Unpack(Replicate(n, b).Code() + rest, need) == Fill(b, n) + Unpack(rest, need - n)
  {
    hide Unpack, Fill;
    var src := Replicate(n, b).Code() + rest;
    CodeParts([(257 - n) as byte, b], [], rest);
    assert [(257 - n) as byte, b] + [] + rest == src;
    assert Signed(src[0]) == 1 - n && src[1] == b;
    UnpackAt(src, 0, need);
  }

  lemma UnpackNoOp(rest: seq<byte>, need: int)
    requires need > 0
    ensures Unpack(NoOp.Code() + rest, need) == Unpack(rest, need)
  {
    hide Unpack, Fill;
    var src := NoOp.Code() + rest;
    CodeParts([128], [], rest);
    assert [128] + [] + rest == src;
    UnpackAt(src, 0, need);
  }

  lemma UnpackSegment(seg: Segment, rest: seq<byte>, need: int)
    requires seg.Valid() && need > 0
    ensures Unpack(seg.Code() + rest, need) == seg.Content() + Unpack(rest, need - |seg.Content()|)
  {
    hide Unpack, Segment.Code;
    match seg {
      case Literal(s) => UnpackLiteral(s, rest, need);
      case Replicate(n, b) => UnpackReplicate(n, b, rest, need);
      case NoOp =>
        UnpackNoOp(rest, need);
        assert [] + Unpack(rest, need) == Unpack(rest, need);
    }
  }

  lemma Expansions(segs: seq<Segment>, k: nat)
    requires segs != [] && k < |segs|
    ensures Expansion(segs[..k + 1]) == segs[0].Content() + Expansion(segs[1..][..k])
  {
    assert segs[..k + 1][0] == segs[0] && segs[..k + 1][1..] == segs[1..][..k];
  }

  lemma PrefixBehind(c: seq<byte>, a: seq<byte>, b: seq<byte>)
    requires a <= b
    ensures c + a <= c + b
  {
  }

  /** Unpacking an encoding yields whole segments, in order, until enough bytes are there. */
  lemma {:induction false} UnpackEncoding(segs: seq<Segment>, need: int) returns (k: nat)
    requires AllValid(segs)
    ensures k <= |segs| && Unpack(Encoding(segs), need) == Expansion(segs[..k])
    ensures k < |segs| ==> |Expansion(segs[..k])| >= need
    ensures Expansion(segs[..k]) <= Expansion(segs)
    decreases |segs|
  {
    hide Unpack, Segment.Code, Segment.Content;
    if segs == [] || need <= 0 {
      UnpackOver(Encoding(segs), need);
      k := 0;
    } else {
      var rest, c := segs[1..], segs[0].Content();
      var m := UnpackEncoding(rest, need - |c|);
      k := m + 1;
      UnpackSegment(segs[0], Encoding(rest), need);
      Expansions(segs, m);
      PrefixBehind(c, Expansion(rest[..m]), Expansion(rest));
    }
  }

  /** Decoding inverts every valid encoding of at most the expected length. */
  lemma {:induction false} PackBitsInverts(segs: seq<Segment>, need: int)
    requires AllValid(segs) && |Expansion(segs)| <= need
    ensures Unpack(Encoding(segs), need) == Expansion(segs)
    decreases |segs|
  {
    hide Unpack, Segment.Code, Segment.Content;
    if need <= 0 || segs == [] {
      UnpackOver(Encoding(segs), need);
    } else {
      UnpackSegment(segs[0], Encoding(segs[1..]), need);
      PackBitsInverts(segs[1..], need - |segs[0].Content()|);
    }
  }
}
