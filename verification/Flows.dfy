/** Sums of scores and of flows between the nodes of a graph: the same total at the senders
    and at the receivers, triangle inequalities for differences, monotonicity, and the
    products and quotients of reals that the trust engine's proofs need. */
module Flows {

  function Mass(s: seq<real>, k: nat): real
    requires k <= |s|
  {
    if k == 0 then 0.0 else Mass(s, k - 1) + s[k - 1]
  }

  /** A flow `f(j, i)` from j to i; what node i receives from the first `k` nodes. */
  type Flow = (nat, nat) -> real

  function Into(f: Flow, i: nat, k: nat): real {
    if k == 0 then 0.0 else Into(f, i, k - 1) + f(k - 1, i)
  }

  /** What node j sends to the first `m` nodes. */
  function OutOf(f: Flow, j: nat, m: nat): real {
    if m == 0 then 0.0 else OutOf(f, j, m - 1) + f(j, m - 1)
  }

  function Received(f: Flow, m: nat, k: nat): real {
    if m == 0 then 0.0 else Received(f, m - 1, k) + Into(f, m - 1, k)
  }

  function Sent(f: Flow, m: nat, k: nat): real {
    if k == 0 then 0.0 else Sent(f, m, k - 1) + OutOf(f, k - 1, m)
  }

  lemma {:induction false} SentToOneMore(f: Flow, m: nat, k: nat)
    ensures Sent(f, m + 1, k) == Sent(f, m, k) + Into(f, m, k)
  {
    if k > 0 { SentToOneMore(f, m, k - 1); }
  }

  /** Counting a flow at its receivers or at its senders gives the same total. */
  lemma {:induction false} SentIsReceived(f: Flow, m: nat, k: nat)
    ensures Sent(f, m, k) == Received(f, m, k)
  {
    if m == 0 {
      NothingSent(f, k);
    } else {
      SentIsReceived(f, m - 1, k);
      SentToOneMore(f, m - 1, k);
    }
  }

  lemma {:induction false} NothingSent(f: Flow, k: nat)
    ensures Sent(f, 0, k) == 0.0
  {
    if k > 0 { NothingSent(f, k - 1); }
  }

  function Abs(x: real): real {
    if x < 0.0 then -x else x
  }

  lemma Monotone(x: real, y: real, c: real)
    requires x <= y && c >= 0.0
    ensures c * x <= c * y
  {
  }

  predicate NonNegative(s: seq<real>) {
    forall i :: 0 <= i < |s| ==> s[i] >= 0.0
  }

  lemma {:induction false} IntoNonNegative(f: Flow, i: nat, k: nat)
    requires forall j: nat :: j < k ==> f(j, i) >= 0.0
    ensures Into(f, i, k) >= 0.0
  {
    if k > 0 { IntoNonNegative(f, i, k - 1); }
  }

  lemma {:induction false} PartAtMostMass(s: seq<real>, i: nat, k: nat)
    requires i < k <= |s| && NonNegative(s)
    ensures 0.0 <= s[i] <= Mass(s, k)
  {
    if k - 1 > i { PartAtMostMass(s, i, k - 1); } else { MassNonNegative(s, k - 1); }
  }

  lemma {:induction false} MassNonNegative(s: seq<real>, k: nat)
    requires k <= |s| && NonNegative(s)
    ensures Mass(s, k) >= 0.0
  {
    if k > 0 { MassNonNegative(s, k - 1); }
  }

  lemma {:induction false} IntoGap(f: Flow, h: Flow, z: Flow, i: nat, k: nat)
    requires forall j: nat :: j < k ==> Abs(f(j, i) - h(j, i)) <= z(j, i)
    ensures Abs(Into(f, i, k) - Into(h, i, k)) <= Into(z, i, k)
  {
    if k > 0 { IntoGap(f, h, z, i, k - 1); }
  }

  lemma {:induction false} MassMonotone(v: seq<real>, w: seq<real>, k: nat)
    requires |v| == |w| && k <= |v| && forall i :: 0 <= i < |v| ==> v[i] <= w[i]
    ensures Mass(v, k) <= Mass(w, k)
  {
    if k > 0 { MassMonotone(v, w, k - 1); }
  }

  lemma {:induction false} IntoSame(f: Flow, h: Flow, i: nat, k: nat)
    requires forall j: nat :: j < k ==> f(j, i) == h(j, i)
    ensures Into(f, i, k) == Into(h, i, k)
  {
    if k > 0 { IntoSame(f, h, i, k - 1); }
  }

  lemma {:induction false} IntoFromOne(f: Flow, j: nat, i: nat, k: nat)
    requires forall j': nat :: j' < k && j' != j ==> f(j', i) == 0.0
    ensures Into(f, i, k) == if j < k then f(j, i) else 0.0
  {
    if k > 0 { IntoFromOne(f, j, i, k - 1); }
  }

  lemma {:induction false} MassOfPrefix(s: seq<real>, t: seq<real>, k: nat)
    requires k <= |t| <= |s| && s[..|t|] == t
    ensures Mass(s, k) == Mass(t, k)
  {
    if k > 0 { MassOfPrefix(s, t, k - 1); }
  }

  lemma OnlyLastDiffers(f: Flow, h: Flow, i: nat, n: nat)
    requires (forall j: nat :: j < n ==> f(j, i) == h(j, i)) && h(n, i) == 0.0
    ensures Into(f, i, n + 1) == Into(h, i, n + 1) + f(n, i)
  {
    IntoSame(f, h, i, n);
  }

  lemma AffineGap(base: real, d: real, a: real, b: real, y: real)
    requires b == a + y
    ensures (base + d * b) - (base + d * a) == d * y
  {
    assert d * b == d * a + d * y;
  }

  lemma {:induction false} OutOfAtLeast(f: Flow, j: nat, i: nat, m: nat)
    requires forall k: nat :: k < m ==> f(j, k) >= 0.0
    ensures OutOf(f, j, m) >= 0.0 && (i < m ==> f(j, i) <= OutOf(f, j, m))
  {
    if m > 0 { OutOfAtLeast(f, j, i, m - 1); }
  }

  lemma LargerScaled(d: real, x: real, y: real)
    requires d > 0.0 && x < y
    ensures d * x < d * y
  {
  }

  lemma LiftAtMost(d: real, x: real, share: real, part: real)
    requires d > 0.0 && x <= part && part > 0.0 && 0.0 <= share <= 1.0
    ensures d * (x * share) <= d * part
  {
    Monotone(x, part, share);
    Monotone(share, 1.0, part);
    assert x * share <= part by { assert share * x <= share * part && part * share <= part * 1.0; }
    Monotone(x * share, part, d);
  }
}
