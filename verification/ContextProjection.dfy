/**
 * src/reader/projection.ts, projectContext: leases, turns, claims and failures share one budget. What
 * a view weighs is an arbitrary function of what it shows.
 */
module ContextProjection {
  import opened Base
  import opened Budget
  import opened Projection

  /** What a context shows: the first of the leases and turns, each in some form, and counts of the rest. */
  datatype View<A, T> = View(active: seq<A>, turns: seq<T>, overlaps: nat, claims: nat, unavailable: nat)

  datatype Totals = Totals(overlaps: nat, claims: nat, unavailable: nat)

  /** Bytes of the wrapped view without its size digits, and of the bare value. */
  datatype Weights<!A, !T> = Weights(wrapped: View<A, T> -> nat, bare: View<A, T> -> nat)

  predicate Holds<A, T>(v: View<A, T>, w: Weights<A, T>, byteBudget: nat)
  {
    Fits(w.wrapped(v), byteBudget)
  }

  /** A nested view tried under a smaller budget, or none when that budget is too small for it. */
  type Nested<!S, !V> = (S, nat) -> Option<V>

  const NESTED_BUDGETS: seq<nat> := [8192, 4096, 2048, 1024, 768, 512, 384, 256]

  /** The nested budgets, largest first: none exceeds the outer one. */
  function BudgetsFor(outer: nat): (bs: seq<nat>)
    ensures |bs| == 8
    ensures forall i | 0 <= i < 8 :: bs[i] == if outer < NESTED_BUDGETS[i] then outer else NESTED_BUDGETS[i]
  {
    seq(8, i requires 0 <= i < 8 => if outer < NESTED_BUDGETS[i] then outer else NESTED_BUDGETS[i])
  }

  /** The view is one of the source under some nested budget, and no larger nested budget gives one that fits. */
  ghost predicate LargestNested<S, V>(source: S, shown: V, outer: nat, project: Nested<S, V>, fits: V -> bool)
  {
    exists i :: 0 <= i < 8 && project(source, BudgetsFor(outer)[i]) == Some(shown) && fits(shown)
      && forall j | 0 <= j < i :: !NestedFits(source, BudgetsFor(outer)[j], project, fits)
  }

  predicate NestedFits<S, V>(source: S, budget: nat, project: Nested<S, V>, fits: V -> bool)
  {
    var candidate := project(source, budget);
    candidate.Some? && fits(candidate.value)
  }

  /** A budget that repeats the one before it is not tried again; trying it would change nothing. */
  method LargestNestedProjection<S, V(==)>(source: S, outer: nat, project: Nested<S, V>, fits: V -> bool)
    returns (item: Option<V>)
    requires outer > 0
    ensures item.Some? ==> LargestNested(source, item.value, outer, project, fits)
    ensures item.None? ==> forall i | 0 <= i < 8 :: !NestedFits(source, BudgetsFor(outer)[i], project, fits)
  {
    var budgets := BudgetsFor(outer);
    for i := 0 to 8
      invariant forall j | 0 <= j < i :: !NestedFits(source, budgets[j], project, fits)
    {
      if i > 0 && budgets[i] == budgets[i - 1] { continue; }
      var candidate := project(source, budgets[i]);
      if candidate.Some? && fits(candidate.value) {
        return candidate;
      }
    }
    return None;
  }

  datatype Inputs<!L, !R, !A, !T> = Inputs(
    leases: seq<L>, turns: seq<R>, totals: Totals,
    nestedLease: Nested<L, A>, nestedTurn: Nested<R, T>,
    weights: Weights<A, T>, preferTurns: bool, byteBudget: nat)

  /** Every shown lease and turn is a nested view of the one at its place, under a budget no larger than the outer. */
  ghost predicate Faithful<L, R, A, T>(v: View<A, T>, c: Inputs<L, R, A, T>)
  {
    && |v.active| <= |c.leases| && |v.turns| <= |c.turns|
    && (forall i | 0 <= i < |v.active| :: IsNested(c.leases[i], v.active[i], c.byteBudget, c.nestedLease))
    && (forall i | 0 <= i < |v.turns| :: IsNested(c.turns[i], v.turns[i], c.byteBudget, c.nestedTurn))
    && v.overlaps <= c.totals.overlaps && v.claims <= c.totals.claims && v.unavailable <= c.totals.unavailable
  }

  ghost predicate IsNested<S, V>(source: S, shown: V, outer: nat, project: Nested<S, V>)
  {
    exists budget: nat :: budget <= outer && project(source, budget) == Some(shown)
  }

  function MinimalView<A, T>(): View<A, T>
  {
    View([], [], 0, 0, 0)
  }

  /** No more overlaps, and no more claims, leave the view within its budget and its quota. */
  predicate ClaimsStop<A, T>(v: View<A, T>, after: View<A, T>, totals: Totals, w: Weights<A, T>, startBytes: nat,
                             quota: nat, byteBudget: nat)
  {
    && (after.overlaps < totals.overlaps ==>
          var more := v.(overlaps := after.overlaps + 1);
          !Holds(more, w, byteBudget) || w.bare(more) - startBytes > quota)
    && (after.claims < totals.claims ==>
          var more := after.(claims := after.claims + 1);
          !Holds(more, w, byteBudget) || w.bare(more) - startBytes > quota)
  }

  /** Compact claims first, within a quota of bytes over the empty view; what does not fit is left out. */
  method AddClaims<A, T>(v: View<A, T>, totals: Totals, w: Weights<A, T>, startBytes: nat, quota: nat, byteBudget: nat)
    returns (after: View<A, T>)
    requires Holds(v, w, byteBudget) && v.overlaps <= totals.overlaps && v.claims <= totals.claims
    ensures Holds(after, w, byteBudget)
    ensures after == v.(overlaps := after.overlaps, claims := after.claims)
    ensures v.overlaps <= after.overlaps <= totals.overlaps && v.claims <= after.claims <= totals.claims
    ensures after != v ==> w.bare(after) - startBytes <= quota
    ensures ClaimsStop(v, after, totals, w, startBytes, quota, byteBudget)
  {
    hide Holds;
    after := v;
    while after.overlaps < totals.overlaps
      invariant Holds(after, w, byteBudget) && after == v.(overlaps := after.overlaps)
      invariant v.overlaps <= after.overlaps <= totals.overlaps
      invariant after != v ==> w.bare(after) - startBytes <= quota
    {
      var more := after.(overlaps := after.overlaps + 1);
      if !Holds(more, w, byteBudget) || w.bare(more) - startBytes > quota { break; }
      after := more;
    }
    while after.claims < totals.claims
      invariant Holds(after, w, byteBudget) && after == v.(overlaps := after.overlaps, claims := after.claims)
      invariant v.overlaps <= after.overlaps <= totals.overlaps && v.claims <= after.claims <= totals.claims
      invariant after.overlaps < totals.overlaps ==>
        !Holds(v.(overlaps := after.overlaps + 1), w, byteBudget)
        || w.bare(v.(overlaps := after.overlaps + 1)) - startBytes > quota
      invariant after != v ==> w.bare(after) - startBytes <= quota
    {
      var more := after.(claims := after.claims + 1);
      if !Holds(more, w, byteBudget) || w.bare(more) - startBytes > quota { break; }
      after := more;
    }
  }

  function FitsLease<A, T>(v: View<A, T>, w: Weights<A, T>, byteBudget: nat): A -> bool
  {
    a => Holds(v.(active := v.active + [a]), w, byteBudget)
  }

  function FitsTurn<A, T>(v: View<A, T>, w: Weights<A, T>, byteBudget: nat): T -> bool
  {
    t => Holds(v.(turns := v.turns + [t]), w, byteBudget)
  }

  /** The next lease fits in no form, or there is none. */
  predicate LeasesStop<L, R, A, T>(v: View<A, T>, c: Inputs<L, R, A, T>)
    requires c.byteBudget > 0
  {
    |v.active| < |c.leases| ==> forall i | 0 <= i < 8 ::
      !NestedFits(c.leases[|v.active|], BudgetsFor(c.byteBudget)[i], c.nestedLease,
                  FitsLease(v, c.weights, c.byteBudget))
  }

  /** The next turn fits in no form, or there is none. */
  predicate TurnsStop<L, R, A, T>(v: View<A, T>, c: Inputs<L, R, A, T>)
    requires c.byteBudget > 0
  {
    |v.turns| < |c.turns| ==> forall i | 0 <= i < 8 ::
      !NestedFits(c.turns[|v.turns|], BudgetsFor(c.byteBudget)[i], c.nestedTurn, FitsTurn(v, c.weights, c.byteBudget))
  }

  /**
   * Each list stops at the first that does not fit when its turn comes: claims within their quota over
   * the empty view, the preferred of leases and turns, the other, and claims again within the budget.
   */
  ghost predicate Filled<L, R, A, T>(early: View<A, T>, v: View<A, T>, c: Inputs<L, R, A, T>)
    requires c.byteBudget > 0
  {
    var w, startBytes := c.weights, Measured(c.weights.wrapped(MinimalView()));
    var both := early.(active := v.active, turns := v.turns);
    && early.active == [] && early.turns == [] && early.unavailable <= 1
    && ClaimsStop(MinimalView(), early.(unavailable := 0), c.totals, w, startBytes, Min(4096, c.byteBudget / 3),
                  c.byteBudget)
    && (if c.preferTurns then TurnsStop(both.(active := []), c) && LeasesStop(both, c)
        else LeasesStop(both.(turns := []), c) && TurnsStop(both, c))
    && ClaimsStop(both, v.(unavailable := early.unavailable), c.totals, w, startBytes, c.byteBudget, c.byteBudget)
  }

  /** The first leases, each in the largest form that fits; the first that fits in none ends the list. */
  method AddActive<L, R, A(==), T(==)>(v: View<A, T>, c: Inputs<L, R, A, T>) returns (after: View<A, T>)
    requires c.byteBudget > 0 && Holds(v, c.weights, c.byteBudget) && Faithful(v, c) && v.active == []
    ensures Holds(after, c.weights, c.byteBudget) && Faithful(after, c) && after == v.(active := after.active)
    ensures LeasesStop(after, c)
  {
    after := v;
    for i := 0 to |c.leases|
      invariant |after.active| == i && after == v.(active := after.active)
      invariant Holds(after, c.weights, c.byteBudget) && Faithful(after, c)
    {
      var item := LargestNestedProjection(c.leases[i], c.byteBudget, c.nestedLease,
                                          FitsLease(after, c.weights, c.byteBudget));
      if item.None? { break; }
      NestedIsNested(c.leases[i], item.value, c.byteBudget, c.nestedLease, FitsLease(after, c.weights, c.byteBudget));
      after := after.(active := after.active + [item.value]);
    }
  }

  /** Likewise the turns. */
  method AddTurns<L, R, A(==), T(==)>(v: View<A, T>, c: Inputs<L, R, A, T>) returns (after: View<A, T>)
    requires c.byteBudget > 0 && Holds(v, c.weights, c.byteBudget) && Faithful(v, c) && v.turns == []
    ensures Holds(after, c.weights, c.byteBudget) && Faithful(after, c) && after == v.(turns := after.turns)
    ensures TurnsStop(after, c)
  {
    after := v;
    for i := 0 to |c.turns|
      invariant |after.turns| == i && after == v.(turns := after.turns)
      invariant Holds(after, c.weights, c.byteBudget) && Faithful(after, c)
    {
      var item := LargestNestedProjection(c.turns[i], c.byteBudget, c.nestedTurn,
                                          FitsTurn(after, c.weights, c.byteBudget));
      if item.None? { break; }
      NestedIsNested(c.turns[i], item.value, c.byteBudget, c.nestedTurn, FitsTurn(after, c.weights, c.byteBudget));
      after := after.(turns := after.turns + [item.value]);
    }
  }

  lemma NestedIsNested<S, V>(source: S, shown: V, outer: nat, project: Nested<S, V>, fits: V -> bool)
    requires LargestNested(source, shown, outer, project, fits)
    ensures IsNested(source, shown, outer, project) && fits(shown)
  {
    var i :| 0 <= i < 8 && project(source, BudgetsFor(outer)[i]) == Some(shown);
    assert BudgetsFor(outer)[i] <= outer;
  }

  /**
   * The whole context. It throws only when the empty view does not fit; otherwise its result fits, and
   * shows leases and turns from the front of their lists, each as a nested view.
   */
  method ProjectContext<L, R, A(==), T(==)>(c: Inputs<L, R, A, T>) returns (result: Result<View<A, T>, BudgetError>)
    requires c.byteBudget > 0
    ensures result.Ok? <==> Holds(MinimalView(), c.weights, c.byteBudget)
    ensures result.Err? ==> IsTooSmall(result.error, c.byteBudget, c.weights.wrapped(MinimalView()))
    ensures result.Ok? ==> Holds(result.value, c.weights, c.byteBudget) && Faithful(result.value, c)
    ensures result.Ok? ==> exists early :: Filled(early, result.value, c)
    ensures result.Ok? && result.value.unavailable < c.totals.unavailable ==>
      !Holds(result.value.(unavailable := result.value.unavailable + 1), c.weights, c.byteBudget)
  {
    hide Faithful, ClaimsStop, LeasesStop, TurnsStop, Holds;
    HoldsMeans(MinimalView(), c.weights, c.byteBudget);
    var w, byteBudget := c.weights, c.byteBudget;
    var v: View<A, T> := MinimalView();
    MinimalFaithful(c);
    var minimum := WrapReaderProjection(w.wrapped(v), byteBudget);
    if minimum.Err? {
      return Err(minimum.error);
    }
    var startBytes := minimum.value;
    v := AddClaims(v, c.totals, w, startBytes, Min(4096, byteBudget / 3), byteBudget);
    if c.totals.unavailable > 0 && Holds(v.(unavailable := 1), w, byteBudget) {
      v := v.(unavailable := 1);
    }
    CountsFaithful(MinimalView(), v, c);
    ghost var early := v;
    if !c.preferTurns {
      v := AddActive(v, c);
    }
    v := AddTurns(v, c);
    if c.preferTurns {
      v := AddActive(v, c);
    }
    var before := v;
    WithinTotals(v, c);
    v := AddClaims(v, c.totals, w, startBytes, byteBudget, byteBudget);
    assert Filled(early, v, c) by {
      StagesFill(early, before, v, c);
    }
    ghost var filled := v;
    while v.unavailable < c.totals.unavailable
      invariant Holds(v, w, byteBudget) && v.unavailable <= c.totals.unavailable
      invariant v == before.(overlaps := v.overlaps, claims := v.claims, unavailable := v.unavailable)
      invariant v == filled.(unavailable := v.unavailable)
      invariant v.overlaps <= c.totals.overlaps && v.claims <= c.totals.claims
    {
      if !Holds(v.(unavailable := v.unavailable + 1), w, byteBudget) { break; }
      v := v.(unavailable := v.unavailable + 1);
    }
    CountsFaithful(before, v, c);
    StillFilled(early, filled, v, c);
    HoldsMeans(v, w, byteBudget);
    var final := WrapReaderProjection(w.wrapped(v), byteBudget);
    if final.Err? {
      assert false;
    }
    return Ok(v);
  }

  lemma HoldsMeans<A, T>(v: View<A, T>, w: Weights<A, T>, byteBudget: nat)
    ensures Holds(v, w, byteBudget) <==> Measured(w.wrapped(v)) <= byteBudget
  {
  }

  lemma StagesFill<L, R, A, T>(early: View<A, T>, both: View<A, T>, v: View<A, T>, c: Inputs<L, R, A, T>)
    requires c.byteBudget > 0
    requires early.active == [] && early.turns == [] && early.unavailable <= 1
    requires both == early.(active := both.active, turns := both.turns)
    requires v == both.(overlaps := v.overlaps, claims := v.claims)
    requires var w, startBytes := c.weights, Measured(c.weights.wrapped(MinimalView()));
      && ClaimsStop(MinimalView(), early.(unavailable := 0), c.totals, w, startBytes, Min(4096, c.byteBudget / 3),
                    c.byteBudget)
      && ClaimsStop(both, v, c.totals, w, startBytes, c.byteBudget, c.byteBudget)
    requires if c.preferTurns then TurnsStop(early.(turns := both.turns), c) && LeasesStop(both, c)
             else LeasesStop(early.(active := both.active), c) && TurnsStop(both, c)
    ensures Filled(early, v, c)
  {
    hide ClaimsStop, LeasesStop, TurnsStop;
    assert both.(active := []) == early.(turns := both.turns) && both.(turns := []) == early.(active := both.active);
    assert early.(active := v.active, turns := v.turns) == both && v.(unavailable := early.unavailable) == v;
  }

  lemma StillFilled<L, R, A, T>(early: View<A, T>, filled: View<A, T>, v: View<A, T>, c: Inputs<L, R, A, T>)
    requires c.byteBudget > 0 && Filled(early, filled, c) && v == filled.(unavailable := v.unavailable)
    ensures Filled(early, v, c)
  {
    hide ClaimsStop, LeasesStop, TurnsStop;
    assert v.(unavailable := early.unavailable) == filled.(unavailable := early.unavailable);
  }

  lemma MinimalFaithful<L, R, A, T>(c: Inputs<L, R, A, T>)
    ensures Faithful(MinimalView(), c)
  {
  }

  lemma WithinTotals<L, R, A, T>(v: View<A, T>, c: Inputs<L, R, A, T>)
    requires Faithful(v, c)
    ensures v.overlaps <= c.totals.overlaps && v.claims <= c.totals.claims && v.unavailable <= c.totals.unavailable
  {
  }

  lemma CountsFaithful<L, R, A, T>(v: View<A, T>, after: View<A, T>, c: Inputs<L, R, A, T>)
    requires Faithful(v, c) && after.active == v.active && after.turns == v.turns
    requires after.overlaps <= c.totals.overlaps && after.claims <= c.totals.claims
      && after.unavailable <= c.totals.unavailable
    ensures Faithful(after, c)
  {
  }
}
