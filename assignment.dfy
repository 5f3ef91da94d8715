/**
 * The box-to-goal assignment lower bound of backend/astar_level36.py: the
 * least total Manhattan distance over all ways of sending each box to its
 * own goal, computed by `min_assignment_cost` (a dynamic program over goal
 * masks) and by `assignment_heuristic` (all permutations with early cut-off).
 */
module Assignment {
  import opened Wrappers
  import opened Walks
  import opened Masks
  import opened AstarLevel

  // ---------------------------------------------------------------------------
  // Assignments and their cost

  /** No goal index repeats. */
  predicate Injective(a: seq<nat>) {
    forall i, j :: 0 <= i < j < |a| ==> a[i] != a[j]
  }

  /** `a` sends box `i` to goal `a[i]`, among goals `0..n-1`, no goal twice. */
  predicate IsInjection(a: seq<nat>, n: nat) {
    Injective(a) && forall i :: 0 <= i < |a| ==> a[i] < n
  }

  /** `c` gives a cost to every box (row) on every one of `n` goals (columns). */
  predicate IsMatrix(c: seq<seq<nat>>, n: nat) {
    forall i :: 0 <= i < |c| ==> |c[i]| == n
  }

  /** The total cost of sending box `i` to goal `a[i]` for every `i < |a|`. */
  function Cost(c: seq<seq<nat>>, a: seq<nat>): nat
    requires |a| <= |c| && forall i :: 0 <= i < |a| ==> a[i] < |c[i]|
    decreases |a|
  {
    if a == [] then 0 else Cost(c, a[..|a| - 1]) + c[|a| - 1][a[|a| - 1]]
  }

  lemma CostSnoc(c: seq<seq<nat>>, a: seq<nat>, g: nat)
    requires |a| < |c| && forall i :: 0 <= i < |a| ==> a[i] < |c[i]|
    requires g < |c[|a|]|
    ensures Cost(c, a + [g]) == Cost(c, a) + c[|a|][g]
  {
    assert (a + [g])[..|a|] == a;
  }

  /**
   * `v` is the least cost of sending the first `k` boxes to distinct goals
   * among `0..n-1`: some such assignment costs `v` and none costs less.
   */
  ghost predicate IsMinCost(c: seq<seq<nat>>, n: nat, k: nat, v: nat) {
    && IsMatrix(c, n) && k <= |c|
    && (exists a :: |a| == k && IsInjection(a, n) && Cost(c, a) == v)
    && (forall a :: |a| == k && IsInjection(a, n) ==> v <= Cost(c, a))
  }

  /** The least cost is unique. */
  lemma MinCostUnique(c: seq<seq<nat>>, n: nat, k: nat, v: nat, w: nat)
    requires IsMinCost(c, n, k, v) && IsMinCost(c, n, k, w)
    ensures v == w
  {
    var a :| |a| == k && IsInjection(a, n) && Cost(c, a) == v;
    var b :| |b| == k && IsInjection(b, n) && Cost(c, b) == w;
  }

  /** The Manhattan cost matrix: box `i` on goal `j` costs their Manhattan distance. */
  function ManhattanMatrix(boxes: seq<Pos>, goals: seq<Pos>): (c: seq<seq<nat>>)
    ensures |c| == |boxes| && IsMatrix(c, |goals|)
    ensures forall i, j :: 0 <= i < |boxes| && 0 <= j < |goals| ==> c[i][j] == Manhattan(boxes[i], goals[j])
    decreases |boxes|
  {
    if boxes == [] then []
    else
      var rest := ManhattanMatrix(boxes[..|boxes| - 1], goals);
      rest + [ManhattanRow(boxes[|boxes| - 1], goals)]
  }

  /** The distances from one box to every goal, in goal order. */
  function ManhattanRow(b: Pos, goals: seq<Pos>): (r: seq<nat>)
    ensures |r| == |goals| && forall j :: 0 <= j < |goals| ==> r[j] == Manhattan(b, goals[j])
    decreases |goals|
  {
    if goals == [] then [] else ManhattanRow(b, goals[..|goals| - 1]) + [Manhattan(b, goals[|goals| - 1])]
  }

  // ---------------------------------------------------------------------------
  // Masks of assignments

  /** The goals an assignment uses, as a mask. */
  function MaskOf(a: seq<nat>): nat
    decreases |a|
  {
    if a == [] then 0 else MaskOf(a[..|a| - 1]) + Pow2(a[|a| - 1])
  }

  /** An assignment's mask has its goals as bits, one bit per box, and stays below `2^n`. */
  lemma {:induction false} MaskOfInjection(a: seq<nat>, n: nat)
    requires IsInjection(a, n)
    ensures MaskOf(a) < Pow2(n) && PopCount(MaskOf(a)) == |a|
    ensures forall j: nat :: Bit(MaskOf(a), j) <==> j in a
    decreases |a|
  {
    if a == [] {
      forall j: nat
        ensures !Bit(0, j)
      {
        ZeroHasNoBits(j);
      }
    } else {
      var init, g := a[..|a| - 1], a[|a| - 1];
      assert a == init + [g];
      MaskOfInjection(init, n);
      assert g !in init;
      SetBit(MaskOf(init), g);
      SetBitBelow(MaskOf(init), g, n);
    }
  }

  /** `a` assigns the first `|a|` boxes to distinct goals, exactly the goals of mask `m`. */
  ghost predicate Covers(a: seq<nat>, m: nat, n: nat) {
    IsInjection(a, n) && |a| <= n && MaskOf(a) == m
  }

  /** Every entry of `dp` is the cost of the assignment `wit` records for it. */
  ghost predicate Witnessed(c: seq<seq<nat>>, n: nat, dp: map<nat, nat>, wit: map<nat, seq<nat>>) {
    && IsMatrix(c, n) && |c| == n
    && dp.Keys == wit.Keys
    && forall m {:trigger WitnessFor(c, n, dp, wit, m)} :: m in dp ==> WitnessFor(c, n, dp, wit, m)
  }

  /** Entry `m` of `dp` is the cost of the assignment `wit` records for it, which covers `m`. */
  ghost predicate WitnessFor(c: seq<seq<nat>>, n: nat, dp: map<nat, nat>, wit: map<nat, seq<nat>>, m: nat) {
    && IsMatrix(c, n) && |c| == n
    && m in dp && m in wit && Covers(wit[m], m, n) && Cost(c, wit[m]) == dp[m]
  }

  /** Entry `m` has been pushed forward: every goal `j` it leaves free was offered to the next box. */
  ghost predicate RelaxedAt(c: seq<seq<nat>>, n: nat, dp: map<nat, nat>, m: nat)
    requires IsMatrix(c, n) && |c| == n
  {
    m in dp && PopCount(m) < n ==>
      forall j :: 0 <= j < n && !Bit(m, j) ==>
        m + Pow2(j) in dp && dp[m + Pow2(j)] <= dp[m] + c[PopCount(m)][j]
  }

  /** Entry `m` exists and has been relaxed. */
  ghost predicate Settled(c: seq<seq<nat>>, n: nat, dp: map<nat, nat>, m: nat)
    requires IsMatrix(c, n) && |c| == n
  {
    m in dp && RelaxedAt(c, n, dp, m)
  }

  /** One more box sent to a goal the mask leaves free covers the mask with that goal added. */
  lemma CoversSnoc(a: seq<nat>, mask: nat, j: nat, n: nat)
    requires Covers(a, mask, n) && PopCount(mask) < n && j < n && !Bit(mask, j)
    ensures Covers(a + [j], mask + Pow2(j), n) && |a| == PopCount(mask)
  {
    MaskOfInjection(a, n);
    assert j !in a;
    assert (a + [j])[..|a|] == a;
    assert forall i :: 0 <= i < |a| ==> (a + [j])[i] == a[i];
  }

  /** Offering free goal `j` to the next box of entry `mask` gives an entry witnessed by one more step. */
  lemma WitnessedUpdate(c: seq<seq<nat>>, n: nat, dp: map<nat, nat>, wit: map<nat, seq<nat>>, mask: nat, j: nat)
    requires Witnessed(c, n, dp, wit)
    requires mask in dp && PopCount(mask) < n && j < n && !Bit(mask, j)
    ensures Witnessed(c, n, dp[mask + Pow2(j) := dp[mask] + c[PopCount(mask)][j]], wit[mask + Pow2(j) := wit[mask] + [j]])
  {
    assert WitnessFor(c, n, dp, wit, mask);
    var a, nmask := wit[mask], mask + Pow2(j);
    CoversSnoc(a, mask, j, n);
    CostSnoc(c, a, j);
    WitnessedStore(c, n, dp, wit, nmask, dp[mask] + c[PopCount(mask)][j], a + [j]);
  }

  /** Storing an entry with a witness of its own keeps every other entry witnessed. */
  lemma WitnessedStore(c: seq<seq<nat>>, n: nat, dp: map<nat, nat>, wit: map<nat, seq<nat>>, key: nat, v: nat, w: seq<nat>)
    requires Witnessed(c, n, dp, wit)
    requires Covers(w, key, n) && Cost(c, w) == v
    ensures Witnessed(c, n, dp[key := v], wit[key := w])
  {
    var dp', wit' := dp[key := v], wit[key := w];
    assert WitnessFor(c, n, dp', wit', key);
    forall m | m in dp'
      ensures WitnessFor(c, n, dp', wit', m)
    {
      if m != key {
        assert WitnessFor(c, n, dp, wit, m);
        assert dp'[m] == dp[m] && wit'[m] == wit[m];
      }
    }
  }

  /** Every entry of `dp0` is still in `dp`, at the same or a lower cost. */
  ghost predicate Lowered(dp0: map<nat, nat>, dp: map<nat, nat>) {
    forall m :: m in dp0 ==> m in dp && dp[m] <= dp0[m]
  }

  /** `dp` and `dp0` agree on every mask up to `mask`. */
  ghost predicate SameUpTo(dp0: map<nat, nat>, dp: map<nat, nat>, mask: nat) {
    forall m :: m <= mask ==> (m in dp <==> m in dp0) && (m in dp0 ==> dp[m] == dp0[m])
  }

  /** `dp` and `dp0` agree on every mask but `key`. */
  ghost predicate SameExcept(dp0: map<nat, nat>, dp: map<nat, nat>, key: nat) {
    forall m :: m != key ==> (m in dp <==> m in dp0) && (m in dp0 ==> dp[m] == dp0[m])
  }

  /** Two rounds of lowering, the second touching only an entry above `mask`, compose. */
  lemma LoweredTwice(dp0: map<nat, nat>, dp1: map<nat, nat>, dp2: map<nat, nat>, mask: nat, key: nat)
    requires Lowered(dp0, dp1) && SameUpTo(dp0, dp1, mask)
    requires Lowered(dp1, dp2) && SameExcept(dp1, dp2, key) && mask < key
    ensures Lowered(dp0, dp2) && SameUpTo(dp0, dp2, mask)
  {
    forall m | m in dp0
      ensures m in dp2 && dp2[m] <= dp0[m]
    {
      assert m in dp1 && dp1[m] <= dp0[m];
    }
    forall m | m <= mask
      ensures (m in dp2 <==> m in dp0) && (m in dp0 ==> dp2[m] == dp0[m])
    {
      assert m != key;
    }
  }

  /** Lowering (or adding) entry `key` keeps every other entry and lowers none above its old value. */
  lemma LowerEntry(dp0: map<nat, nat>, key: nat, v: nat)
    requires key !in dp0 || v < dp0[key]
    ensures Lowered(dp0, dp0[key := v]) && SameExcept(dp0, dp0[key := v], key)
  {
    var dp := dp0[key := v];
    forall m | m in dp0
      ensures m in dp && dp[m] <= dp0[m]
    {
      if m == key {
        assert dp[m] == v;
      } else {
        assert dp[m] == dp0[m];
      }
    }
  }

  /** One step of the inner loop: `dp[nmask] = cost` when that improves on the entry (or there is none). */
  method Offer(ghost c: seq<seq<nat>>, n: nat, dp0: map<nat, nat>, ghost wit0: map<nat, seq<nat>>, mask: nat, gi: nat, cost: nat)
    returns (dp: map<nat, nat>, ghost wit: map<nat, seq<nat>>)
    requires Witnessed(c, n, dp0, wit0)
    requires mask in dp0 && PopCount(mask) < n && gi < n && !Bit(mask, gi)
    requires cost == dp0[mask] + c[PopCount(mask)][gi]
    ensures Witnessed(c, n, dp, wit)
    ensures mask + Pow2(gi) in dp && dp[mask + Pow2(gi)] <= cost
    ensures Lowered(dp0, dp)
    ensures SameExcept(dp0, dp, mask + Pow2(gi))
  {
    var nmask := mask + Pow2(gi);
    if nmask !in dp0 || cost < dp0[nmask] {
      WitnessedUpdate(c, n, dp0, wit0, mask, gi);
      LowerEntry(dp0, nmask, cost);
      dp := dp0[nmask := cost];
      wit := wit0[nmask := wit0[mask] + [gi]];
      assert dp == dp0[mask + Pow2(gi) := dp0[mask] + c[PopCount(mask)][gi]];
    } else {
      dp, wit := dp0, wit0;
    }
  }

  // ---------------------------------------------------------------------------
  // min_assignment_cost

  /** The inner loop of `min_assignment_cost`: box `PopCount(mask)` offered every goal `mask` leaves free. */
  method RelaxFrom(boxes: seq<Pos>, goals: seq<Pos>, mask: nat, dp0: map<nat, nat>, ghost wit0: map<nat, seq<nat>>)
    returns (dp: map<nat, nat>, ghost wit: map<nat, seq<nat>>)
    requires |boxes| == |goals|
    requires Witnessed(ManhattanMatrix(boxes, goals), |boxes|, dp0, wit0)
    requires mask in dp0 && PopCount(mask) < |boxes|
    ensures Witnessed(ManhattanMatrix(boxes, goals), |boxes|, dp, wit)
    ensures RelaxedAt(ManhattanMatrix(boxes, goals), |boxes|, dp, mask)
    ensures Lowered(dp0, dp)
    ensures SameUpTo(dp0, dp, mask)
  {
    ghost var c := ManhattanMatrix(boxes, goals);
    var n := |boxes|;
    dp, wit := dp0, wit0;
    var k := PopCount(mask);
    var base := dp0[mask];
    var b := boxes[k];
    var gi := 0;
    while gi < n
      invariant 0 <= gi <= n
      invariant Witnessed(c, n, dp, wit)
      invariant Lowered(dp0, dp)
      invariant SameUpTo(dp0, dp, mask)
      invariant OfferedBelow(dp, mask, c[k], base, gi)
    {
      ghost var dpPrev := dp;
      if !Bit(mask, gi) {
        var cost := base + Manhattan(b, goals[gi]);
        assert cost == base + c[k][gi];
        dp, wit := Offer(c, n, dp, wit, mask, gi, cost);
        LoweredTwice(dp0, dpPrev, dp, mask, mask + Pow2(gi));
      }
      OfferedGrows(dpPrev, dp, mask, c[k], base, gi);
      gi := gi + 1;
    }
    OfferedIsRelaxed(c, n, dp, mask, base);
  }

  /** Once every goal has been offered from `mask` at its own entry's cost, `mask` is relaxed. */
  lemma OfferedIsRelaxed(c: seq<seq<nat>>, n: nat, dp: map<nat, nat>, mask: nat, base: nat)
    requires IsMatrix(c, n) && |c| == n && PopCount(mask) < n
    requires mask in dp && dp[mask] == base && OfferedBelow(dp, mask, c[PopCount(mask)], base, n)
    ensures RelaxedAt(c, n, dp, mask)
  {
  }

  /** Every goal below `g` that `mask` leaves free has been offered to the next box at cost `base + row[j]`. */
  ghost predicate OfferedBelow(dp: map<nat, nat>, mask: nat, row: seq<nat>, base: nat, g: nat)
    requires g <= |row|
  {
    forall j :: 0 <= j < g && !Bit(mask, j) ==> mask + Pow2(j) in dp && dp[mask + Pow2(j)] <= base + row[j]
  }

  lemma OfferedGrows(dp0: map<nat, nat>, dp: map<nat, nat>, mask: nat, row: seq<nat>, base: nat, g: nat)
    requires g < |row| && OfferedBelow(dp0, mask, row, base, g)
    requires Lowered(dp0, dp)
    requires !Bit(mask, g) ==> mask + Pow2(g) in dp && dp[mask + Pow2(g)] <= base + row[g]
    ensures OfferedBelow(dp, mask, row, base, g + 1)
  {
    forall j | 0 <= j < g + 1 && !Bit(mask, j)
      ensures mask + Pow2(j) in dp && dp[mask + Pow2(j)] <= base + row[j]
    {
      var key := mask + Pow2(j);
      if j < g {
        assert key in dp0 && dp0[key] <= base + row[j];
        assert key in dp && dp[key] <= dp0[key];
      } else {
        assert j == g;
      }
    }
  }

  /** Relaxing from `mask` changes only entries above it, and only downwards, so earlier relaxations stay in force. */
  lemma RelaxedStays(c: seq<seq<nat>>, n: nat, dp0: map<nat, nat>, dp: map<nat, nat>, mask: nat, m: nat)
    requires IsMatrix(c, n) && |c| == n
    requires m < mask && RelaxedAt(c, n, dp0, m)
    requires Lowered(dp0, dp)
    requires SameUpTo(dp0, dp, mask)
    ensures RelaxedAt(c, n, dp, m)
  {
  }

  /** Every non-zero mask below `2^n` is entered by relaxing the mask without one of its bits. */
  lemma ReachedByRelaxing(c: seq<seq<nat>>, n: nat, dp: map<nat, nat>, mask: nat)
    requires IsMatrix(c, n) && |c| == n
    requires 0 < mask < Pow2(n)
    requires forall m :: 0 <= m < mask ==> Settled(c, n, dp, m)
    ensures mask in dp
  {
    var j := SomeBit(mask);
    MaskBelow(mask, n);
    ClearBit(mask, j);
    var prev := mask - Pow2(j);
    SetBit(prev, j);
    assert Settled(c, n, dp, prev);
  }

  /** Dropping the last box of an injection leaves an injection that does not use the dropped goal. */
  lemma InjectionInit(a: seq<nat>, n: nat)
    requires IsInjection(a, n) && a != []
    ensures IsInjection(a[..|a| - 1], n) && a[|a| - 1] !in a[..|a| - 1]
  {
    var init := a[..|a| - 1];
    forall i | 0 <= i < |init|
      ensures init[i] != a[|a| - 1]
    {
      assert init[i] == a[i];
    }
  }

  /** Relaxing the entry of `init`'s goals bounds the entry of `init + [g]` by the cost of `init + [g]`. */
  lemma OptimalStep(c: seq<seq<nat>>, n: nat, dp: map<nat, nat>, init: seq<nat>, g: nat)
    requires IsMatrix(c, n) && |c| == n
    requires IsInjection(init, n) && g < n && g !in init && |init| < n
    requires MaskOf(init) in dp && dp[MaskOf(init)] <= Cost(c, init)
    requires Settled(c, n, dp, MaskOf(init))
    ensures MaskOf(init + [g]) in dp && dp[MaskOf(init + [g])] <= Cost(c, init + [g])
  {
    var m := MaskOf(init);
    MaskSnoc(init, g, n);
    CostSnoc(c, init, g);
    UseRelaxed(c, n, dp, m, g);
  }

  /** A settled entry has offered each free goal `j` to the next box. */
  lemma UseRelaxed(c: seq<seq<nat>>, n: nat, dp: map<nat, nat>, m: nat, j: nat)
    requires IsMatrix(c, n) && |c| == n
    requires Settled(c, n, dp, m) && PopCount(m) < n && j < n && !Bit(m, j)
    ensures m + Pow2(j) in dp && dp[m + Pow2(j)] <= dp[m] + c[PopCount(m)][j]
  {
    assert RelaxedAt(c, n, dp, m);
  }

  /** Sending one more box to an unused goal adds that goal's bit to the mask. */
  lemma MaskSnoc(init: seq<nat>, g: nat, n: nat)
    requires IsInjection(init, n) && g !in init
    ensures MaskOf(init + [g]) == MaskOf(init) + Pow2(g)
    ensures !Bit(MaskOf(init), g) && PopCount(MaskOf(init)) == |init|
  {
    MaskOfInjection(init, n);
    assert (init + [g])[..|init|] == init;
  }

  /** When every mask has been relaxed, each entry is at most the cost of any assignment onto its goals. */
  lemma {:induction false} RelaxedIsOptimal(c: seq<seq<nat>>, n: nat, dp: map<nat, nat>, a: seq<nat>)
    requires IsMatrix(c, n) && |c| == n
    requires 0 in dp && dp[0] == 0
    requires forall m :: 0 <= m < Pow2(n) ==> Settled(c, n, dp, m)
    requires IsInjection(a, n) && |a| <= n
    ensures MaskOf(a) in dp && dp[MaskOf(a)] <= Cost(c, a)
    decreases |a|
  {
    if a != [] {
      var init, g := a[..|a| - 1], a[|a| - 1];
      assert a == init + [g];
      InjectionInit(a, n);
      RelaxedIsOptimal(c, n, dp, init);
      MaskOfInjection(init, n);
      assert Settled(c, n, dp, MaskOf(init));
      OptimalStep(c, n, dp, init, g);
    }
  }

  /** Once every mask is relaxed, the full entry is the least cost of a bijection. */
  lemma FullEntryIsMin(c: seq<seq<nat>>, n: nat, dp: map<nat, nat>, wit: map<nat, seq<nat>>)
    requires Witnessed(c, n, dp, wit)
    requires 0 in dp && dp[0] == 0
    requires forall m :: 0 <= m < Pow2(n) ==> Settled(c, n, dp, m)
    ensures Full(n) in dp && IsMinCost(c, n, n, dp[Full(n)])
  {
    assert Settled(c, n, dp, Full(n));
    FullMask(n);
    forall a | |a| == n && IsInjection(a, n)
      ensures dp[Full(n)] <= Cost(c, a)
    {
      RelaxedIsOptimal(c, n, dp, a);
      MaskOfInjection(a, n);
      OnlyFullMask(MaskOf(a), n);
    }
    assert WitnessFor(c, n, dp, wit, Full(n));
    var a := wit[Full(n)];
    MaskOfInjection(a, n);
    assert |a| == n && IsInjection(a, n) && Cost(c, a) == dp[Full(n)];
  }

  /** Relaxing `mask` leaves every earlier mask relaxed. */
  lemma RelaxedStaysAll(c: seq<seq<nat>>, n: nat, dp0: map<nat, nat>, dp: map<nat, nat>, mask: nat)
    requires IsMatrix(c, n) && |c| == n
    requires forall m :: 0 <= m < mask ==> Settled(c, n, dp0, m)
    requires Lowered(dp0, dp)
    requires SameUpTo(dp0, dp, mask)
    ensures forall m :: 0 <= m < mask ==> Settled(c, n, dp, m)
  {
    forall m | 0 <= m < mask
      ensures Settled(c, n, dp, m)
    {
      assert Settled(c, n, dp0, m);
      RelaxedStays(c, n, dp0, dp, mask, m);
    }
  }

  /**
   * `min_assignment_cost`: an error on a size mismatch; otherwise the least
   * total Manhattan distance over all ways of sending box `i` to a goal of
   * its own, every goal used once.
   */
  method MinAssignmentCost(boxes: seq<Pos>, goals: seq<Pos>) returns (r: Result<nat>)
    ensures r.Err? <==> |boxes| != |goals|
    ensures r.Ok? ==> IsMinCost(ManhattanMatrix(boxes, goals), |goals|, |boxes|, r.value)
  {
    var n := |boxes|;
    if n != |goals| {
      return Err("boxes/goals size mismatch");
    }
    ghost var c := ManhattanMatrix(boxes, goals);
    var dp: map<nat, nat> := map[0 := 0];
    ghost var wit: map<nat, seq<nat>> := map[0 := []];
    var mask := 0;
    while mask < Pow2(n)
      invariant 0 <= mask <= Pow2(n)
      invariant Witnessed(c, n, dp, wit)
      invariant 0 in dp && dp[0] == 0
      invariant forall m :: 0 <= m < mask ==> Settled(c, n, dp, m)
    {
      if mask > 0 {
        ReachedByRelaxing(c, n, dp, mask);
      }
      if mask in dp && PopCount(mask) < n {
        ghost var dp0 := dp;
        dp, wit := RelaxFrom(boxes, goals, mask, dp, wit);
        RelaxedStaysAll(c, n, dp0, dp, mask);
        assert Settled(c, n, dp, mask);
      } else {
        assert Settled(c, n, dp, mask);
      }
      mask := mask + 1;
    }
    FullEntryIsMin(c, n, dp, wit);
    assert Full(n) == Pow2(n) - 1;
    return Ok(dp[Full(n)]);
  }

  // ---------------------------------------------------------------------------
  // assignment_heuristic

  /** `xs` without its element at index `i`. */
  function Remove(xs: seq<nat>, i: nat): (r: seq<nat>)
    requires i < |xs|
    ensures |r| == |xs| - 1
  {
    xs[..i] + xs[i + 1..]
  }

  /** `[x] + p` for every `p` of `ps`, in order. */
  function Prepend(x: nat, ps: seq<seq<nat>>): (r: seq<seq<nat>>)
    ensures |r| == |ps| && forall k :: 0 <= k < |ps| ==> r[k] == [x] + ps[k]
    decreases |ps|
  {
    if ps == [] then [] else Prepend(x, ps[..|ps| - 1]) + [[x] + ps[|ps| - 1]]
  }

  /** `itertools.permutations(xs)`, in its order: first element by position, then the permutations of the rest. */
  function Perms(xs: seq<nat>): seq<seq<nat>>
    decreases |xs|, |xs| + 1
  {
    if xs == [] then [[]] else PermsFrom(xs, 0)
  }

  /** The permutations of `xs` whose first element is at position `i` or later. */
  function PermsFrom(xs: seq<nat>, i: nat): seq<seq<nat>>
    requires i <= |xs|
    decreases |xs|, |xs| - i
  {
    if i == |xs| then [] else Prepend(xs[i], Perms(Remove(xs, i))) + PermsFrom(xs, i + 1)
  }

  lemma {:induction false} InPermsFrom(xs: seq<nat>, i: nat, p: seq<nat>)
    requires i <= |xs|
    ensures p in PermsFrom(xs, i) <==>
      |p| > 0 && exists j :: i <= j < |xs| && p[0] == xs[j] && p[1..] in Perms(Remove(xs, j))
    decreases |xs| - i
  {
    if i < |xs| {
      InPermsFrom(xs, i + 1, p);
      var head := Prepend(xs[i], Perms(Remove(xs, i)));
      if p in head {
        var k :| 0 <= k < |head| && head[k] == p;
        assert p[1..] == Perms(Remove(xs, i))[k];
      }
      if |p| > 0 && p[0] == xs[i] && p[1..] in Perms(Remove(xs, i)) {
        var k :| 0 <= k < |Perms(Remove(xs, i))| && Perms(Remove(xs, i))[k] == p[1..];
        assert head[k] == [p[0]] + p[1..] == p;
      }
    }
  }

  /** Every permutation of distinct elements is a distinct sequence of the same length over the same elements. */
  lemma {:induction false} PermsSound(xs: seq<nat>, p: seq<nat>)
    requires Injective(xs) && p in Perms(xs)
    ensures |p| == |xs| && Injective(p) && forall k :: 0 <= k < |p| ==> p[k] in xs
    decreases |xs|
  {
    if xs != [] {
      var j := FirstPick(xs, p);
      PermsSound(Remove(xs, j), p[1..]);
      ConsFacts(xs, j, p);
    }
  }

  /** A permutation of a non-empty sequence starts with some element and goes on with a permutation of the others. */
  lemma FirstPick(xs: seq<nat>, p: seq<nat>) returns (j: nat)
    requires xs != [] && p in Perms(xs)
    ensures j < |xs| && |p| > 0 && p[0] == xs[j] && p[1..] in Perms(Remove(xs, j))
  {
    InPermsFrom(xs, 0, p);
    j :| 0 <= j < |xs| && |p| > 0 && p[0] == xs[j] && p[1..] in Perms(Remove(xs, j));
  }

  /** Element `j` of distinct `xs` in front of a distinct sequence over the others gives a distinct sequence over `xs`. */
  lemma ConsFacts(xs: seq<nat>, j: nat, p: seq<nat>)
    requires Injective(xs) && j < |xs| && |p| > 0 && p[0] == xs[j]
    requires |p[1..]| == |Remove(xs, j)| && Injective(p[1..])
    requires forall k :: 0 <= k < |p[1..]| ==> p[1..][k] in Remove(xs, j)
    ensures |p| == |xs| && Injective(p) && forall k :: 0 <= k < |p| ==> p[k] in xs
  {
    var rest := p[1..];
    RemoveFacts(xs, j);
    forall k | 0 <= k < |p|
      ensures p[k] in xs && (k > 0 ==> p[k] != p[0])
    {
      if k > 0 {
        assert p[k] == rest[k - 1];
      }
    }
    forall k, l | 0 <= k < l < |p|
      ensures p[k] != p[l]
    {
      assert p[l] == rest[l - 1];
      if k > 0 {
        assert p[k] == rest[k - 1];
      }
    }
  }

  /** Every distinct sequence of the same length over the same distinct elements is listed. */
  lemma {:induction false} PermsComplete(xs: seq<nat>, p: seq<nat>)
    requires Injective(xs)
    requires |p| == |xs| && Injective(p) && forall k :: 0 <= k < |p| ==> p[k] in xs
    ensures p in Perms(xs)
    decreases |xs|
  {
    if xs != [] {
      var j :| 0 <= j < |xs| && xs[j] == p[0];
      RestOverOthers(xs, j, p);
      PermsComplete(Remove(xs, j), p[1..]);
      ConsInPerms(xs, j, p);
    }
  }

  /** Past its first element `xs[j]`, a distinct sequence over distinct `xs` is a distinct sequence over the others. */
  lemma RestOverOthers(xs: seq<nat>, j: nat, p: seq<nat>)
    requires Injective(xs) && j < |xs|
    requires |p| == |xs| && Injective(p) && forall k :: 0 <= k < |p| ==> p[k] in xs
    requires p[0] == xs[j]
    ensures |p[1..]| == |Remove(xs, j)| && Injective(p[1..])
    ensures forall k :: 0 <= k < |p[1..]| ==> p[1..][k] in Remove(xs, j)
  {
    RemoveFacts(xs, j);
    var rest := p[1..];
    forall k | 0 <= k < |rest|
      ensures rest[k] in Remove(xs, j)
    {
      assert rest[k] == p[k + 1] != p[0];
    }
    forall k, l | 0 <= k < l < |rest|
      ensures rest[k] != rest[l]
    {
      assert rest[k] == p[k + 1] && rest[l] == p[l + 1];
    }
  }

  /** `xs[j]` followed by a permutation of the other elements is a permutation of `xs`. */
  lemma ConsInPerms(xs: seq<nat>, j: nat, p: seq<nat>)
    requires j < |xs| && |p| > 0 && p[0] == xs[j] && p[1..] in Perms(Remove(xs, j))
    ensures p in Perms(xs)
  {
    InPermsFrom(xs, 0, p);
  }

  /** Removing position `j` of a distinct sequence keeps it distinct and removes exactly `xs[j]`. */
  lemma RemoveFacts(xs: seq<nat>, j: nat)
    requires Injective(xs) && j < |xs|
    ensures Injective(Remove(xs, j))
    ensures forall v :: v in Remove(xs, j) <==> v in xs && v != xs[j]
  {
    var r := Remove(xs, j);
    assert forall k :: 0 <= k < |r| ==> r[k] == if k < j then xs[k] else xs[k + 1];
    forall v | v in xs && v != xs[j]
      ensures v in r
    {
      var k :| 0 <= k < |xs| && xs[k] == v;
      if k < j {
        assert r[k] == v;
      } else {
        assert r[k - 1] == v;
      }
    }
  }

  /** `range(n)`. */
  function Range(n: nat): (r: seq<nat>)
    ensures |r| == n && forall i :: 0 <= i < n ==> r[i] == i
  {
    seq(n, i requires 0 <= i < n => i)
  }

  /** The permutations of `range(n)` are exactly the bijections of `n` boxes onto `n` goals. */
  lemma PermsOfRange(n: nat, p: seq<nat>)
    ensures p in Perms(Range(n)) <==> |p| == n && IsInjection(p, n)
  {
    if p in Perms(Range(n)) {
      PermsSound(Range(n), p);
    }
    if |p| == n && IsInjection(p, n) {
      forall k | 0 <= k < |p|
        ensures p[k] in Range(n)
      {
        assert Range(n)[p[k]] == p[k];
      }
      PermsComplete(Range(n), p);
    }
  }

  /** The goal-index permutations `assignment_heuristic` runs through. */
  function GoalPerms(n: nat): (ps: seq<seq<nat>>)
    ensures forall q, i :: q in ps && 0 <= i < |q| ==> q[i] < n
  {
    PermsBelow(n);
    Perms(Range(n))
  }

  lemma PermsBelow(n: nat)
    ensures forall q, i :: q in Perms(Range(n)) && 0 <= i < |q| ==> q[i] < n
  {
    forall q | q in Perms(Range(n))
      ensures IsInjection(q, n)
    {
      PermsOfRange(n, q);
    }
  }

  /** The zip of boxes with goals in the order `p`: the distance of the first `k` pairs. */
  function ZipSum(blist: seq<Pos>, glist: seq<Pos>, p: seq<nat>, k: nat): nat
    requires k <= |blist| && k <= |p| && forall i :: 0 <= i < |p| ==> p[i] < |glist|
    decreases k
  {
    if k == 0 then 0 else ZipSum(blist, glist, p, k - 1) + Manhattan(blist[k - 1], glist[p[k - 1]])
  }

  function Min(a: nat, b: nat): nat {
    if a <= b then a else b
  }

  /** `zip` stops at the shorter of the box list and the permutation. */
  function ZipCost(blist: seq<Pos>, glist: seq<Pos>, p: seq<nat>): nat
    requires forall i :: 0 <= i < |p| ==> p[i] < |glist|
  {
    ZipSum(blist, glist, p, Min(|blist|, |p|))
  }

  lemma {:induction false} ZipSumGrows(blist: seq<Pos>, glist: seq<Pos>, p: seq<nat>, k: nat, l: nat)
    requires k <= l <= |blist| && l <= |p| && forall i :: 0 <= i < |p| ==> p[i] < |glist|
    ensures ZipSum(blist, glist, p, k) <= ZipSum(blist, glist, p, l)
    decreases l
  {
    if k < l {
      ZipSumGrows(blist, glist, p, k, l - 1);
    }
  }

  /** The least of `init` and the costs of the permutations in `ps`. */
  function MinOver(blist: seq<Pos>, glist: seq<Pos>, ps: seq<seq<nat>>, init: nat): nat
    requires forall q, i :: q in ps && 0 <= i < |q| ==> q[i] < |glist|
    decreases |ps|
  {
    if ps == [] then init
    else Min(MinOver(blist, glist, ps[..|ps| - 1], init), ZipCost(blist, glist, ps[|ps| - 1]))
  }

  /** `MinOver` is a lower bound on every listed cost and is one of them or `init`. */
  lemma {:induction false} MinOverIsLeast(blist: seq<Pos>, glist: seq<Pos>, ps: seq<seq<nat>>, init: nat)
    requires forall q, i :: q in ps && 0 <= i < |q| ==> q[i] < |glist|
    ensures MinOver(blist, glist, ps, init) <= init
    ensures forall q :: q in ps ==> MinOver(blist, glist, ps, init) <= ZipCost(blist, glist, q)
    ensures MinOver(blist, glist, ps, init) == init ||
            exists q :: q in ps && MinOver(blist, glist, ps, init) == ZipCost(blist, glist, q)
    decreases |ps|
  {
    if ps != [] {
      var init' := ps[..|ps| - 1];
      MinOverIsLeast(blist, glist, init', init);
      assert forall q :: q in init' ==> q in ps;
      assert ps == init' + [ps[|ps| - 1]];
    }
  }

  /**
   * One permutation of `assignment_heuristic`: the running sum, abandoned as
   * soon as it reaches `best`.  Below `best` it is the permutation's cost,
   * and it is below `best` exactly when that cost is.
   */
  method BoundedZipCost(blist: seq<Pos>, glist: seq<Pos>, p: seq<nat>, best: nat) returns (s: nat)
    requires forall i :: 0 <= i < |p| ==> p[i] < |glist|
    ensures s < best <==> ZipCost(blist, glist, p) < best
    ensures s < best ==> s == ZipCost(blist, glist, p)
  {
    var len := Min(|blist|, |p|);
    s := 0;
    var i := 0;
    while i < len
      invariant 0 <= i <= len
      invariant s == ZipSum(blist, glist, p, i)
    {
      s := s + Manhattan(blist[i], glist[p[i]]);
      i := i + 1;
      if s >= best {
        ZipSumGrows(blist, glist, p, i, len);
        return;
      }
    }
  }

  /**
   * `assignment_heuristic`: the least zip cost over all permutations of the
   * goal list, capped at the starting `best` of 10^9.
   */
  method AssignmentHeuristic(blist: seq<Pos>, glist: seq<Pos>) returns (best: nat)
    ensures best == MinOver(blist, glist, GoalPerms(|glist|), 1_000_000_000)
  {
    var perms := GoalPerms(|glist|);
    best := 1_000_000_000;
    var t := 0;
    while t < |perms|
      invariant 0 <= t <= |perms|
      invariant best == MinOver(blist, glist, perms[..t], 1_000_000_000)
    {
      var s := BoundedZipCost(blist, glist, perms[t], best);
      if s < best {
        best := s;
      }
      assert perms[..t + 1][..t] == perms[..t];
      t := t + 1;
    }
    assert perms[..t] == perms;
  }

  /** With as many boxes as goals, a permutation's zip cost is its cost under a matrix that prices each of its pairs by distance. */
  lemma {:induction false} ZipIsCost(boxes: seq<Pos>, goals: seq<Pos>, c: seq<seq<nat>>, p: seq<nat>, k: nat)
    requires |boxes| == |goals| == |p| == |c| && IsMatrix(c, |goals|) && IsInjection(p, |goals|) && k <= |p|
    requires forall i :: 0 <= i < |p| ==> c[i][p[i]] == Manhattan(boxes[i], goals[p[i]])
    ensures ZipSum(boxes, goals, p, k) == Cost(c, p[..k])
    decreases k
  {
    if k > 0 {
      ZipIsCost(boxes, goals, c, p, k - 1);
      assert p[..k][..k - 1] == p[..k - 1];
    }
  }

  /** Over the permutations of `range(n)`, zip cost and assignment cost coincide. */
  lemma PermCostsAreCosts(boxes: seq<Pos>, goals: seq<Pos>)
    requires |boxes| == |goals|
    ensures forall q :: q in GoalPerms(|goals|) ==>
      |q| == |goals| && IsInjection(q, |goals|) && ZipCost(boxes, goals, q) == Cost(ManhattanMatrix(boxes, goals), q)
  {
    forall q | q in GoalPerms(|goals|)
      ensures |q| == |goals| && IsInjection(q, |goals|) && ZipCost(boxes, goals, q) == Cost(ManhattanMatrix(boxes, goals), q)
    {
      PermCostIsCost(boxes, goals, q);
    }
  }

  lemma PermCostIsCost(boxes: seq<Pos>, goals: seq<Pos>, q: seq<nat>)
    requires |boxes| == |goals| && q in GoalPerms(|goals|)
    ensures |q| == |goals| && IsInjection(q, |goals|) && ZipCost(boxes, goals, q) == Cost(ManhattanMatrix(boxes, goals), q)
  {
    PermsOfRange(|goals|, q);
    ZipCostIsCost(boxes, goals, ManhattanMatrix(boxes, goals), q);
  }

  /** For a full assignment, the zip cost is its cost in any matrix of box-to-goal distances. */
  lemma ZipCostIsCost(boxes: seq<Pos>, goals: seq<Pos>, c: seq<seq<nat>>, q: seq<nat>)
    requires |boxes| == |goals| == |q| == |c| && IsMatrix(c, |goals|) && IsInjection(q, |goals|)
    requires forall i, j :: 0 <= i < |c| && 0 <= j < |goals| ==> c[i][j] == Manhattan(boxes[i], goals[j])
    ensures ZipCost(boxes, goals, q) == Cost(c, q)
  {
    ZipIsCost(boxes, goals, c, q, |q|);
    assert q[..|q|] == q;
  }

  /**
   * The two heuristics agree: with as many boxes as goals, the permutation
   * search returns the least assignment cost the dynamic program computes,
   * unless that cost is 10^9 or more, where its starting value stands.
   */
  lemma HeuristicsAgree(boxes: seq<Pos>, goals: seq<Pos>, v: nat)
    requires |boxes| == |goals|
    requires IsMinCost(ManhattanMatrix(boxes, goals), |goals|, |boxes|, v)
    ensures MinOver(boxes, goals, GoalPerms(|goals|), 1_000_000_000) == Min(v, 1_000_000_000)
  {
    var n := |goals|;
    var c := ManhattanMatrix(boxes, goals);
    var perms := GoalPerms(n);
    PermCostsAreCosts(boxes, goals);
    NoPermBelowMin(boxes, goals, c, perms, v);
    var a :| |a| == n && IsInjection(a, n) && Cost(c, a) == v;
    PermsOfRange(n, a);
    MinOverMatches(boxes, goals, perms, 1_000_000_000, v, a);
  }

  /** No listed assignment whose zip cost is its cost in `c` comes under the least cost in `c`. */
  lemma NoPermBelowMin(boxes: seq<Pos>, goals: seq<Pos>, c: seq<seq<nat>>, perms: seq<seq<nat>>, v: nat)
    requires |boxes| == |goals| && IsMinCost(c, |goals|, |boxes|, v)
    requires forall q, i :: q in perms && 0 <= i < |q| ==> q[i] < |goals|
    requires forall q :: q in perms ==> |q| == |goals| && IsInjection(q, |goals|) && ZipCost(boxes, goals, q) == Cost(c, q)
    ensures forall q :: q in perms ==> v <= ZipCost(boxes, goals, q)
  {
    forall q | q in perms
      ensures v <= ZipCost(boxes, goals, q)
    {
      assert |q| == |boxes| && IsInjection(q, |goals|);
    }
  }

  /** When `v` is the least listed cost, attained by `q0`, the running minimum from `init` is `min(v, init)`. */
  lemma MinOverMatches(blist: seq<Pos>, glist: seq<Pos>, ps: seq<seq<nat>>, init: nat, v: nat, q0: seq<nat>)
    requires forall q, i :: q in ps && 0 <= i < |q| ==> q[i] < |glist|
    requires forall q :: q in ps ==> v <= ZipCost(blist, glist, q)
    requires q0 in ps && ZipCost(blist, glist, q0) == v
    ensures MinOver(blist, glist, ps, init) == Min(v, init)
  {
    MinOverIsLeast(blist, glist, ps, init);
  }
}
