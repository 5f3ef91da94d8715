/**
 * The push-distance heuristic of `_solve_push_astar` in backend/app/main.py:
 * the least total push distance over all ways of sending each box to a goal
 * of its own, computed one box at a time by a dynamic program over goal
 * masks (`dp`/`ndp`), with a nearest-goal sum when there are more than 15
 * goals and a flat penalty when the boxes outnumber the goals.
 */
module PushHeuristic {
  import opened Walks
  import opened Masks
  import opened Assignment

  /** The "unreached" entry of `dp`: `10**9`. */
  const INF: nat := 1_000_000_000

  /** The distance charged for a cell a goal's push map does not reach: `dist.get(b, 999)`. */
  const FAR: nat := 999

  /** `dist_to_goal[j].get(b, 999)`. */
  function DistTo(dist: seq<map<Pos, nat>>, j: nat, b: Pos): nat
    requires j < |dist|
  {
    if b in dist[j] then dist[j][b] else FAR
  }

  /**
   * Every recorded push distance is at most 999. The maps are built by a
   * breadth-first search that stops expanding at depth 200, so no entry
   * exceeds 200.
   */
  predicate Capped(dist: seq<map<Pos, nat>>) {
    forall j, p :: 0 <= j < |dist| && p in dist[j] ==> dist[j][p] <= FAR
  }

  /** The push distances from one box to every goal, in goal order. */
  function DistRow(dist: seq<map<Pos, nat>>, b: Pos): (r: seq<nat>)
    ensures |r| == |dist| && forall j :: 0 <= j < |dist| ==> r[j] == DistTo(dist, j, b)
  {
    seq(|dist|, j requires 0 <= j < |dist| => DistTo(dist, j, b))
  }

  /** The cost matrix of the heuristic: box `i` on goal `j` costs `dist_to_goal[j].get(boxes[i], 999)`. */
  function DistMatrix(boxes: seq<Pos>, dist: seq<map<Pos, nat>>): (c: seq<seq<nat>>)
    ensures |c| == |boxes| && IsMatrix(c, |dist|)
    ensures forall i, j :: 0 <= i < |boxes| && 0 <= j < |dist| ==> c[i][j] == DistTo(dist, j, boxes[i])
    decreases |boxes|
  {
    if boxes == [] then []
    else DistMatrix(boxes[..|boxes| - 1], dist) + [DistRow(dist, boxes[|boxes| - 1])]
  }

  /** No entry of `c` exceeds `bound`. */
  predicate AtMost(c: seq<seq<nat>>, bound: nat) {
    forall i, j :: 0 <= i < |c| && 0 <= j < |c[i]| ==> c[i][j] <= bound
  }

  lemma CappedMatrix(boxes: seq<Pos>, dist: seq<map<Pos, nat>>)
    requires Capped(dist)
    ensures AtMost(DistMatrix(boxes, dist), FAR)
  {
  }

  /** With every entry at most `FAR`, an assignment of `k` boxes costs at most `FAR * k`. */
  lemma {:induction false} CostAtMost(c: seq<seq<nat>>, a: seq<nat>)
    requires AtMost(c, FAR)
    requires |a| <= |c| && forall i :: 0 <= i < |a| ==> a[i] < |c[i]|
    ensures Cost(c, a) <= FAR * |a|
    decreases |a|
  {
    if a != [] {
      var init := a[..|a| - 1];
      CostAtMost(c, init);
      assert c[|a| - 1][a[|a| - 1]] <= FAR;
    }
  }

  // ---------------------------------------------------------------------------
  // The layers of the dynamic program

  /** Entry `mask` of layer `k` is the cost of `wit[mask]`, which sends the first `k` boxes onto the goals of `mask`. */
  ghost predicate LayerWitAt(c: seq<seq<nat>>, n: nat, k: nat, dp: seq<nat>, wit: seq<seq<nat>>, mask: nat) {
    && mask < |dp| && mask < |wit|
    && IsMatrix(c, n) && k <= |c|
    && |wit[mask]| == k && Covers(wit[mask], mask, n) && Cost(c, wit[mask]) == dp[mask]
  }

  /** Every reached entry of layer `k` is witnessed. */
  ghost predicate LayerWitnessed(c: seq<seq<nat>>, n: nat, k: nat, dp: seq<nat>, wit: seq<seq<nat>>) {
    && |dp| == Pow2(n) && |wit| == Pow2(n)
    && forall mask {:trigger LayerWitAt(c, n, k, dp, wit, mask)} ::
         0 <= mask < |dp| && dp[mask] < INF ==> LayerWitAt(c, n, k, dp, wit, mask)
  }

  /** The entry of `a`'s goals is at most what `a` costs. */
  ghost predicate BoundFor(c: seq<seq<nat>>, n: nat, dp: seq<nat>, a: seq<nat>) {
    && IsMatrix(c, n) && |a| <= |c| && IsInjection(a, n)
    && MaskOf(a) < |dp| && dp[MaskOf(a)] <= Cost(c, a)
  }

  /** Layer `k` undercuts every assignment of the first `k` boxes to distinct goals. */
  ghost predicate LayerBelow(c: seq<seq<nat>>, n: nat, k: nat, dp: seq<nat>) {
    forall a {:trigger BoundFor(c, n, dp, a)} :: |a| == k && IsInjection(a, n) ==> BoundFor(c, n, dp, a)
  }

  /** Box `k`, sent from reached entry `mask` of `dp` to free goal `j`, has been offered to `ndp`. */
  ghost predicate PushedAt(c: seq<seq<nat>>, n: nat, k: nat, dp: seq<nat>, ndp: seq<nat>, mask: nat, j: nat) {
    mask < |dp| && dp[mask] < INF && j < n && !Bit(mask, j) ==>
      && k < |c| && IsMatrix(c, n)
      && mask + Pow2(j) < |ndp| && ndp[mask + Pow2(j)] <= dp[mask] + c[k][j]
  }

  /** Every entry below `mask` has offered box `k` every free goal. */
  ghost predicate PushedBelow(c: seq<seq<nat>>, n: nat, k: nat, dp: seq<nat>, ndp: seq<nat>, mask: nat) {
    forall m: nat, j: nat {:trigger PushedAt(c, n, k, dp, ndp, m, j)} :: m < mask ==> PushedAt(c, n, k, dp, ndp, m, j)
  }

  /** Entry `mask` has offered box `k` every free goal below `g`. */
  ghost predicate PushedFrom(c: seq<seq<nat>>, n: nat, k: nat, dp: seq<nat>, ndp: seq<nat>, mask: nat, g: nat) {
    forall j: nat {:trigger PushedAt(c, n, k, dp, ndp, mask, j)} :: j < g ==> PushedAt(c, n, k, dp, ndp, mask, j)
  }

  /** `ndp` is `ndp0` with some entries lowered. */
  ghost predicate Lowered(ndp0: seq<nat>, ndp: seq<nat>) {
    |ndp| == |ndp0| && forall x :: 0 <= x < |ndp0| ==> ndp[x] <= ndp0[x]
  }

  lemma PushedAtLowered(c: seq<seq<nat>>, n: nat, k: nat, dp: seq<nat>, ndp0: seq<nat>, ndp: seq<nat>, mask: nat, j: nat)
    requires PushedAt(c, n, k, dp, ndp0, mask, j) && Lowered(ndp0, ndp)
    ensures PushedAt(c, n, k, dp, ndp, mask, j)
  {
  }

  lemma PushedBelowLowered(c: seq<seq<nat>>, n: nat, k: nat, dp: seq<nat>, ndp0: seq<nat>, ndp: seq<nat>, mask: nat)
    requires PushedBelow(c, n, k, dp, ndp0, mask) && Lowered(ndp0, ndp)
    ensures PushedBelow(c, n, k, dp, ndp, mask)
  {
    forall m: nat, j: nat | m < mask
      ensures PushedAt(c, n, k, dp, ndp, m, j)
    {
      PushedAtLowered(c, n, k, dp, ndp0, ndp, m, j);
    }
  }

  lemma PushedFromLowered(c: seq<seq<nat>>, n: nat, k: nat, dp: seq<nat>, ndp0: seq<nat>, ndp: seq<nat>, mask: nat, g: nat)
    requires PushedFrom(c, n, k, dp, ndp0, mask, g) && Lowered(ndp0, ndp)
    ensures PushedFrom(c, n, k, dp, ndp, mask, g)
  {
    forall j: nat | j < g
      ensures PushedAt(c, n, k, dp, ndp, mask, j)
    {
      PushedAtLowered(c, n, k, dp, ndp0, ndp, mask, j);
    }
  }

  /** A goal `mask` already takes, or an unreached `mask`, has nothing to offer. */
  lemma PushedFromSkip(c: seq<seq<nat>>, n: nat, k: nat, dp: seq<nat>, ndp: seq<nat>, mask: nat, g: nat)
    requires PushedFrom(c, n, k, dp, ndp, mask, g)
    requires mask < |dp| ==> dp[mask] >= INF || g >= n || Bit(mask, g)
    ensures PushedFrom(c, n, k, dp, ndp, mask, g + 1)
  {
    assert PushedAt(c, n, k, dp, ndp, mask, g);
  }

  /** Once every goal was offered from `mask`, the entries below `mask + 1` are done. */
  lemma PushedBelowNext(c: seq<seq<nat>>, n: nat, k: nat, dp: seq<nat>, ndp: seq<nat>, mask: nat)
    requires PushedBelow(c, n, k, dp, ndp, mask) && PushedFrom(c, n, k, dp, ndp, mask, n)
    ensures PushedBelow(c, n, k, dp, ndp, mask + 1)
  {
    forall m: nat, j: nat | m < mask + 1
      ensures PushedAt(c, n, k, dp, ndp, m, j)
    {
      if m == mask && j < n {
        assert PushedAt(c, n, k, dp, ndp, mask, j);
      } else if m < mask {
        assert PushedAt(c, n, k, dp, ndp, m, j);
      }
    }
  }

  /** A clear bit `j < n` of a mask below `2^n` leaves room for one more box. */
  lemma FreeGoalRoom(mask: nat, j: nat, n: nat)
    requires mask < Pow2(n) && j < n && !Bit(mask, j)
    ensures mask + Pow2(j) < Pow2(n) && PopCount(mask) < n
  {
    SetBitBelow(mask, j, n);
    SetBit(mask, j);
    MaskBelow(mask + Pow2(j), n);
  }

  /** Offering box `k` goal `j` from reached entry `mask` keeps layer `k + 1` witnessed. */
  lemma WitnessOffer(c: seq<seq<nat>>, n: nat, k: nat, dp: seq<nat>, wit: seq<seq<nat>>,
                     ndp: seq<nat>, nwit: seq<seq<nat>>, mask: nat, j: nat)
    requires LayerWitnessed(c, n, k, dp, wit) && LayerWitnessed(c, n, k + 1, ndp, nwit)
    requires IsMatrix(c, n) && k < |c| && mask < |dp| && dp[mask] < INF && j < n && !Bit(mask, j)
    ensures mask + Pow2(j) < |ndp|
    ensures LayerWitnessed(c, n, k + 1, ndp[mask + Pow2(j) := dp[mask] + c[k][j]], nwit[mask + Pow2(j) := wit[mask] + [j]])
  {
    assert LayerWitAt(c, n, k, dp, wit, mask);
    var a, key := wit[mask], mask + Pow2(j);
    FreeGoalRoom(mask, j, n);
    MaskOfInjection(a, n);
    CoversSnoc(a, mask, j, n);
    CostSnoc(c, a, j);
    WitnessStore(c, n, k + 1, ndp, nwit, key, dp[mask] + c[k][j], a + [j]);
  }

  /** Storing an entry with a witness of its own keeps the other entries witnessed. */
  lemma WitnessStore(c: seq<seq<nat>>, n: nat, k: nat, dp: seq<nat>, wit: seq<seq<nat>>, key: nat, v: nat, w: seq<nat>)
    requires LayerWitnessed(c, n, k, dp, wit) && key < |dp|
    requires IsMatrix(c, n) && k <= |c| && |w| == k && Covers(w, key, n) && Cost(c, w) == v
    ensures LayerWitnessed(c, n, k, dp[key := v], wit[key := w])
  {
    var dp', wit' := dp[key := v], wit[key := w];
    assert LayerWitAt(c, n, k, dp', wit', key);
    forall m | 0 <= m < |dp'| && dp'[m] < INF
      ensures LayerWitAt(c, n, k, dp', wit', m)
    {
      if m != key {
        assert LayerWitAt(c, n, k, dp, wit, m);
        assert dp'[m] == dp[m] && wit'[m] == wit[m];
      }
    }
  }

  /** One step of the innermost loop: `ndp[nm] = min(ndp[nm], base + cost)`. */
  method Offer(ghost c: seq<seq<nat>>, n: nat, ghost k: nat, dp: seq<nat>, ghost wit: seq<seq<nat>>,
               ndp0: seq<nat>, ghost nwit0: seq<seq<nat>>, mask: nat, j: nat, cost: nat)
    returns (ndp: seq<nat>, ghost nwit: seq<seq<nat>>)
    requires LayerWitnessed(c, n, k, dp, wit) && LayerWitnessed(c, n, k + 1, ndp0, nwit0)
    requires IsMatrix(c, n) && k < |c| && mask < |dp| && dp[mask] < INF && j < n && !Bit(mask, j)
    requires cost == c[k][j]
    ensures LayerWitnessed(c, n, k + 1, ndp, nwit) && Lowered(ndp0, ndp)
    ensures PushedAt(c, n, k, dp, ndp, mask, j)
  {
    FreeGoalRoom(mask, j, n);
    var nm := mask + Pow2(j);
    var v := dp[mask] + cost;
    if v < ndp0[nm] {
      WitnessOffer(c, n, k, dp, wit, ndp0, nwit0, mask, j);
      ndp, nwit := ndp0[nm := v], nwit0[nm := wit[mask] + [j]];
    } else {
      ndp, nwit := ndp0, nwit0;
    }
  }

  /** The loop over goals for one entry: box `k` (at `b`) offered every goal `mask` leaves free. */
  method OfferGoals(dist: seq<map<Pos, nat>>, b: Pos, ghost c: seq<seq<nat>>, ghost k: nat,
                    dp: seq<nat>, ghost wit: seq<seq<nat>>, ndp0: seq<nat>, ghost nwit0: seq<seq<nat>>, mask: nat)
    returns (ndp: seq<nat>, ghost nwit: seq<seq<nat>>)
    requires k < |c| && IsMatrix(c, |dist|) && forall j :: 0 <= j < |dist| ==> c[k][j] == DistTo(dist, j, b)
    requires LayerWitnessed(c, |dist|, k, dp, wit) && LayerWitnessed(c, |dist|, k + 1, ndp0, nwit0)
    requires mask < |dp| && dp[mask] < INF
    ensures LayerWitnessed(c, |dist|, k + 1, ndp, nwit) && Lowered(ndp0, ndp)
    ensures PushedFrom(c, |dist|, k, dp, ndp, mask, |dist|)
  {
    var n := |dist|;
    ndp, nwit := ndp0, nwit0;
    var j := 0;
    while j < n
      invariant 0 <= j <= n
      invariant LayerWitnessed(c, n, k + 1, ndp, nwit) && Lowered(ndp0, ndp)
      invariant PushedFrom(c, n, k, dp, ndp, mask, j)
    {
      if Bit(mask, j) {
        PushedFromSkip(c, n, k, dp, ndp, mask, j);
      } else {
        ghost var prev := ndp;
        var cost := DistTo(dist, j, b);
        ndp, nwit := Offer(c, n, k, dp, wit, ndp, nwit, mask, j, cost);
        PushedFromStep(c, n, k, dp, prev, ndp, mask, j);
        LoweredTrans(ndp0, prev, ndp);
      }
      j := j + 1;
    }
  }

  lemma PushedFromStep(c: seq<seq<nat>>, n: nat, k: nat, dp: seq<nat>, ndp0: seq<nat>, ndp: seq<nat>, mask: nat, j: nat)
    requires PushedFrom(c, n, k, dp, ndp0, mask, j) && Lowered(ndp0, ndp) && PushedAt(c, n, k, dp, ndp, mask, j)
    ensures PushedFrom(c, n, k, dp, ndp, mask, j + 1)
  {
    PushedFromLowered(c, n, k, dp, ndp0, ndp, mask, j);
  }

  lemma LoweredTrans(a: seq<nat>, b: seq<nat>, c: seq<nat>)
    requires Lowered(a, b) && Lowered(b, c)
    ensures Lowered(a, c)
  {
  }

  /**
   * One pass of the outer loop of `heuristic`: a fresh `ndp`, filled by
   * offering box `k` (at `b`) every goal left free by every reached entry.
   */
  method NextLayer(dist: seq<map<Pos, nat>>, b: Pos, ghost c: seq<seq<nat>>, ghost k: nat,
                   dp: seq<nat>, ghost wit: seq<seq<nat>>)
    returns (ndp: seq<nat>, ghost nwit: seq<seq<nat>>)
    requires k < |c| && IsMatrix(c, |dist|) && forall j :: 0 <= j < |dist| ==> c[k][j] == DistTo(dist, j, b)
    requires LayerWitnessed(c, |dist|, k, dp, wit)
    ensures LayerWitnessed(c, |dist|, k + 1, ndp, nwit)
    ensures PushedBelow(c, |dist|, k, dp, ndp, Pow2(|dist|))
  {
    var n := |dist|;
    ndp := seq(Pow2(n), _ => INF);
    nwit := seq(Pow2(n), _ => []);
    var mask := 0;
    while mask < Pow2(n)
      invariant 0 <= mask <= Pow2(n)
      invariant LayerWitnessed(c, n, k + 1, ndp, nwit)
      invariant PushedBelow(c, n, k, dp, ndp, mask)
    {
      var base := dp[mask];
      if base >= INF {
        UnreachedEntry(c, n, k, dp, ndp, mask);
      } else {
        ghost var prev := ndp;
        ndp, nwit := OfferGoals(dist, b, c, k, dp, wit, ndp, nwit, mask);
        PushedBelowLowered(c, n, k, dp, prev, ndp, mask);
        PushedBelowNext(c, n, k, dp, ndp, mask);
      }
      mask := mask + 1;
    }
  }

  lemma UnreachedEntry(c: seq<seq<nat>>, n: nat, k: nat, dp: seq<nat>, ndp: seq<nat>, mask: nat)
    requires PushedBelow(c, n, k, dp, ndp, mask) && mask < |dp| && dp[mask] >= INF
    ensures PushedBelow(c, n, k, dp, ndp, mask + 1)
  {
    forall m: nat, j: nat | m < mask + 1
      ensures PushedAt(c, n, k, dp, ndp, m, j)
    {
      if m < mask {
        assert PushedAt(c, n, k, dp, ndp, m, j);
      }
    }
  }

  /** The first layer: only the empty mask is reached, at cost 0. */
  lemma FirstLayer(c: seq<seq<nat>>, n: nat, dp: seq<nat>, wit: seq<seq<nat>>)
    requires IsMatrix(c, n)
    requires |dp| == Pow2(n) && |wit| == Pow2(n) && dp[0] == 0 && wit[0] == []
    requires forall m :: 0 < m < |dp| ==> dp[m] == INF
    ensures LayerWitnessed(c, n, 0, dp, wit) && LayerBelow(c, n, 0, dp)
  {
    assert LayerWitAt(c, n, 0, dp, wit, 0);
    forall a | |a| == 0 && IsInjection(a, n)
      ensures BoundFor(c, n, dp, a)
    {
      assert a == [];
    }
  }

  /**
   * A full pass keeps the bound: an assignment of `k + 1` boxes is one of
   * `k` boxes (whose entry is reached, since its cost is below `INF`) plus
   * one free goal, which the pass offered.
   */
  lemma NextLayerBelow(c: seq<seq<nat>>, n: nat, k: nat, dp: seq<nat>, ndp: seq<nat>)
    requires IsMatrix(c, n) && k < |c| && AtMost(c, FAR) && FAR * k < INF
    requires |dp| == Pow2(n) && |ndp| == Pow2(n)
    requires LayerBelow(c, n, k, dp) && PushedBelow(c, n, k, dp, ndp, Pow2(n))
    ensures LayerBelow(c, n, k + 1, ndp)
  {
    forall a | |a| == k + 1 && IsInjection(a, n)
      ensures BoundFor(c, n, ndp, a)
    {
      ExtendBound(c, n, k, dp, ndp, a);
    }
  }

  lemma ExtendBound(c: seq<seq<nat>>, n: nat, k: nat, dp: seq<nat>, ndp: seq<nat>, a: seq<nat>)
    requires IsMatrix(c, n) && k < |c| && AtMost(c, FAR) && FAR * k < INF
    requires |dp| == Pow2(n) && |ndp| == Pow2(n)
    requires LayerBelow(c, n, k, dp) && PushedBelow(c, n, k, dp, ndp, Pow2(n))
    requires |a| == k + 1 && IsInjection(a, n)
    ensures BoundFor(c, n, ndp, a)
  {
    var init, g := a[..k], a[k];
    assert a == init + [g];
    InjectionInit(a, n);
    assert BoundFor(c, n, dp, init);
    CostAtMost(c, init);
    MaskSnoc(init, g, n);
    var m := MaskOf(init);
    assert PushedAt(c, n, k, dp, ndp, m, g);
    CostSnoc(c, init, g);
    MaskOfInjection(a, n);
  }

  // ---------------------------------------------------------------------------
  // min(dp)

  /** `min(s)`. */
  function SeqMin(s: seq<nat>): (r: nat)
    requires |s| > 0
    ensures r in s && forall i :: 0 <= i < |s| ==> r <= s[i]
    decreases |s|
  {
    if |s| == 1 then s[0]
    else
      var rest := SeqMin(s[..|s| - 1]);
      if s[|s| - 1] < rest then s[|s| - 1] else rest
  }

  /**
   * After a pass per box, the least entry is the least cost of sending the
   * boxes to distinct goals: some reached entry carries a witness, and
   * every assignment is undercut by the entry of its goals.
   */
  lemma LastLayerIsMin(c: seq<seq<nat>>, n: nat, dp: seq<nat>, wit: seq<seq<nat>>)
    requires IsMatrix(c, n) && |c| <= n && AtMost(c, FAR) && FAR * |c| < INF
    requires LayerWitnessed(c, n, |c|, dp, wit) && LayerBelow(c, n, |c|, dp)
    ensures |dp| > 0 && IsMinCost(c, n, |c|, SeqMin(dp))
  {
    var m := |c|;
    var r := Range(m);
    assert IsInjection(r, n);
    assert BoundFor(c, n, dp, r);
    CostAtMost(c, r);
    var v := SeqMin(dp);
    var i :| 0 <= i < |dp| && dp[i] == v;
    assert LayerWitAt(c, n, m, dp, wit, i);
    forall a | |a| == m && IsInjection(a, n)
      ensures v <= Cost(c, a)
    {
      assert BoundFor(c, n, dp, a);
    }
    assert |wit[i]| == m && IsInjection(wit[i], n) && Cost(c, wit[i]) == v;
  }

  // ---------------------------------------------------------------------------
  // The nearest-goal fallback

  /** The running `best` of the nearest-goal loop after the first `k` goals. */
  function NearestUpTo(dist: seq<map<Pos, nat>>, b: Pos, k: nat): nat
    requires k <= |dist|
  {
    if k == 0 then FAR else Min(NearestUpTo(dist, b, k - 1), DistTo(dist, k - 1, b))
  }

  /** The nearest-goal sum over the first `k` boxes. */
  function NearestSum(boxes: seq<Pos>, dist: seq<map<Pos, nat>>, k: nat): nat
    requires k <= |boxes|
  {
    if k == 0 then 0 else NearestSum(boxes, dist, k - 1) + NearestUpTo(dist, boxes[k - 1], |dist|)
  }

  /** A box's nearest-goal distance is at most 999 and at most its distance to any goal. */
  lemma {:induction false} NearestIsLeast(dist: seq<map<Pos, nat>>, b: Pos, k: nat)
    requires k <= |dist|
    ensures NearestUpTo(dist, b, k) <= FAR
    ensures forall j :: 0 <= j < k ==> NearestUpTo(dist, b, k) <= DistTo(dist, j, b)
    decreases k
  {
    if k > 0 {
      NearestIsLeast(dist, b, k - 1);
    }
  }

  /**
   * The nearest-goal sum never exceeds what any assignment of the boxes
   * to goals costs, distinct goals or not.
   */
  lemma {:induction false} NearestSumIsLowerBound(boxes: seq<Pos>, dist: seq<map<Pos, nat>>, c: seq<seq<nat>>, a: seq<nat>, k: nat)
    requires |c| == |boxes| && IsMatrix(c, |dist|)
    requires forall i, j :: 0 <= i < |boxes| && 0 <= j < |dist| ==> c[i][j] == DistTo(dist, j, boxes[i])
    requires |a| == |boxes| && forall i :: 0 <= i < |a| ==> a[i] < |dist|
    requires k <= |a|
    ensures NearestSum(boxes, dist, k) <= Cost(c, a[..k])
    decreases k
  {
    if k > 0 {
      NearestSumIsLowerBound(boxes, dist, c, a, k - 1);
      NearestIsLeast(dist, boxes[k - 1], |dist|);
      assert a[..k] == a[..k - 1] + [a[k - 1]];
      CostSnoc(c, a[..k - 1], a[k - 1]);
    }
  }

  /** The fallback of `heuristic` for more than 15 goals is a lower bound on every assignment's cost. */
  lemma NearestFallbackAdmissible(boxes: seq<Pos>, dist: seq<map<Pos, nat>>, a: seq<nat>)
    requires |a| == |boxes| && forall i :: 0 <= i < |a| ==> a[i] < |dist|
    ensures NearestSum(boxes, dist, |boxes|) <= Cost(DistMatrix(boxes, dist), a)
  {
    NearestSumIsLowerBound(boxes, dist, DistMatrix(boxes, dist), a, |a|);
    assert a[..|a|] == a;
  }

  /** The nearest-goal loop of `heuristic`. */
  method NearestGoalSum(boxes: seq<Pos>, dist: seq<map<Pos, nat>>) returns (total: nat)
    ensures total == NearestSum(boxes, dist, |boxes|)
  {
    total := 0;
    var i := 0;
    while i < |boxes|
      invariant 0 <= i <= |boxes| && total == NearestSum(boxes, dist, i)
    {
      var b := boxes[i];
      var best := FAR;
      var j := 0;
      while j < |dist|
        invariant 0 <= j <= |dist| && best == NearestUpTo(dist, b, j)
      {
        var d := DistTo(dist, j, b);
        best := Min(best, d);
        j := j + 1;
      }
      total := total + best;
      i := i + 1;
    }
  }

  // ---------------------------------------------------------------------------
  // heuristic

  /**
   * `heuristic(boxes)`: 0 without boxes; 999 per box when there is no goal
   * or more boxes than goals; the nearest-goal sum with more than 15 goals;
   * otherwise the least total push distance over all ways of sending the
   * boxes to distinct goals.
   */
  method Heuristic(boxes: seq<Pos>, dist: seq<map<Pos, nat>>) returns (h: nat)
    requires Capped(dist)
    ensures boxes == [] ==> h == 0
    ensures boxes != [] && (|dist| == 0 || |boxes| > |dist|) ==> h == FAR * |boxes|
    ensures boxes != [] && |boxes| <= |dist| && |dist| > 15 ==> h == NearestSum(boxes, dist, |boxes|)
    ensures boxes != [] && |boxes| <= |dist| <= 15 ==> IsMinCost(DistMatrix(boxes, dist), |dist|, |boxes|, h)
  {
    if boxes == [] {
      return 0;
    }
    var m := |boxes|;
    var n := |dist|;
    if n == 0 {
      return FAR * m;
    }
    if m > n {
      return FAR * m;
    }
    if n > 15 {
      h := NearestGoalSum(boxes, dist);
      return;
    }
    ghost var c := DistMatrix(boxes, dist);
    CappedMatrix(boxes, dist);
    var dp: seq<nat> := seq(Pow2(n), _ => INF)[0 := 0];
    ghost var wit: seq<seq<nat>> := seq(Pow2(n), _ => []);
    FirstLayer(c, n, dp, wit);
    var k := 0;
    while k < m
      invariant 0 <= k <= m
      invariant LayerWitnessed(c, n, k, dp, wit) && LayerBelow(c, n, k, dp)
    {
      var ndp: seq<nat>;
      ghost var nwit: seq<seq<nat>>;
      ndp, nwit := NextLayer(dist, boxes[k], c, k, dp, wit);
      NextLayerBelow(c, n, k, dp, ndp);
      dp, wit := ndp, nwit;
      k := k + 1;
    }
    LastLayerIsMin(c, n, dp, wit);
    h := SeqMin(dp);
  }
}
