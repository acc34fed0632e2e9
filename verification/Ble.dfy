/** The MTU splitter: internal/niimbot/ble.go, BLETransport.Write. */
module Ble {
  import opened Bytes

  const DEFAULT_MTU: nat := 20

  datatype WriteError = WriteFailed | Cancelled

  function Fragments(p: seq<byte>, max: nat): seq<seq<byte>>
    requires max > 0
    decreases |p|
  {
    if p == [] then []
    else
      var n := if |p| < max then |p| else max;
      [p[..n]] + Fragments(p[n..], max)
  }

  /** The fragments are the packet: all of it, in order, in full chunks except possibly the last. */
  lemma {:induction false} FragmentsRejoin(p: seq<byte>, max: nat)
    requires max > 0
    ensures Flatten(Fragments(p, max)) == p
    ensures forall i :: 0 <= i < |Fragments(p, max)| ==> 0 < |Fragments(p, max)[i]| <= max
    ensures forall i :: 0 <= i < |Fragments(p, max)| - 1 ==> |Fragments(p, max)[i]| == max
    decreases |p|
  {
    if p != [] {
      var n := if |p| < max then |p| else max;
      FragmentsRejoin(p[n..], max);
      SplitAt(p, n);
    }
  }

  /** How many of n writes go through before the first one the characteristic refuses. */
  function Accepted(accepts: nat -> bool, n: nat, from: nat := 0): (k: nat)
    requires from <= n
    ensures from <= k <= n && (k < n ==> !accepts(k)) && forall i :: from <= i < k ==> accepts(i)
    decreases n - from
  {
    if from == n || !accepts(from) then from else Accepted(accepts, n, from + 1)
  }

  lemma FirstFragment(p: seq<byte>, max: nat)
    requires max > 0
    ensures if p == [] then Fragments(p, max) == []
            else var n := if |p| < max then |p| else max; Fragments(p, max) == [p[..n]] + Fragments(p[n..], max)
  {
  }

  lemma AcceptedNext(accepts: nat -> bool, n: nat, k: nat)
    requires k <= n
    ensures k == n || !accepts(k) ==> Accepted(accepts, n, k) == k
    ensures k < n && accepts(k) ==> Accepted(accepts, n, k) == Accepted(accepts, n, k + 1)
  {
  }

  class BLETransport {
    var mtu: int
    /** Every fragment the characteristic accepted. */
    var written: seq<seq<byte>>

    constructor (mtu: int)
      ensures this.mtu == mtu && written == []
    {
      this.mtu := mtu;
      written := [];
    }

    function Max(): (m: nat)
      reads this
      ensures m > 0 && (mtu > 0 ==> m == mtu) && (mtu <= 0 ==> m == 20)
    {
      if mtu <= 0 then DEFAULT_MTU else mtu
    }

    /** `accepts` is the outcome of each write of this call, `cancelled` the state of the context at its end. */
    method Write(p: seq<byte>, accepts: nat -> bool, cancelled: bool) returns (r: Result<(), WriteError>)
      modifies `written
      ensures var all := Fragments(p, Max());
              var k := Accepted(accepts, |all|);
              && written == old(written) + all[..k]
              && r == (if k < |all| then Err(WriteFailed) else if cancelled then Err(Cancelled) else Ok(()))
    {
      hide Accepted, Fragments;
      var max := if mtu <= 0 then DEFAULT_MTU else mtu;
      ghost var all := Fragments(p, max);
      var rest, k := p, 0;
      while |rest| > 0
        invariant 0 <= k <= |all| && Accepted(accepts, |all|) == Accepted(accepts, |all|, k)
        invariant Fragments(rest, max) == all[k..]
        invariant written == old(written) + all[..k]
        decreases |rest|
      {
        var n := if |rest| < max then |rest| else max;
        FirstFragment(rest, max);
        assert k < |all| && all[k] == all[k..][0] && all[k + 1..] == all[k..][1..];
        if !accepts(k) {
          AcceptedNext(accepts, |all|, k);
          return Err(WriteFailed);
        }
        AcceptedNext(accepts, |all|, k);
        assert all[..k + 1] == all[..k] + [rest[..n]];
        Assoc(old(written), all[..k], [rest[..n]]);
        written := written + [rest[..n]];
        rest := rest[n..];
        k := k + 1;
      }
      FirstFragment(rest, max);
      AcceptedNext(accepts, |all|, k);
      assert k == |all| && all[..k] == all;
      return if cancelled then Err(Cancelled) else Ok(());
    }
  }
}
