/**
 * src/reader/projection.ts: bounded views that start from a minimum and grow one parameter at a time.
 * The size of a view is an arbitrary function of its parameters here: that a projection which starts
 * within its budget never leaves it does not depend on how sizes add up.
 */
module Projection {
  import opened Base
  import opened Budget

  predicate Fits(bytes: nat, byteBudget: nat)
  {
    Measured(bytes) <= byteBudget
  }

  /** The error of a budget that the minimum does not fit. */
  predicate IsTooSmall(error: BudgetError, byteBudget: nat, bytes: nat)
  {
    error == TooSmall(byteBudget, Measured(bytes))
  }

  /** Grows a count as long as the next one is accepted. */
  method AppendWhileFits(total: nat, initial: nat, tryCount: nat -> bool) returns (shown: nat)
    requires initial <= total
    ensures initial <= shown <= total
    ensures forall c | initial < c <= shown :: tryCount(c)
    ensures shown < total ==> !tryCount(shown + 1)
  {
    shown := initial;
    while shown < total
      invariant initial <= shown <= total
      invariant forall c | initial < c <= shown :: tryCount(c)
    {
      if !tryCount(shown + 1) { break; }
      shown := shown + 1;
    }
  }

  /* ------------------------------ turns ------------------------------ */

  /** What varies in the view of a turn. */
  datatype TurnView = TurnView(
    requestBytes: nat, responseBytes: nat, actionTexts: seq<nat>, evidence: nat, changedPaths: nat,
    subagentEvidence: nat)

  const MINIMAL_TURN := TurnView(0, 0, [], 0, 0, 0)

  datatype TurnLimits = TurnLimits(request: nat, response: nat, action: nat)

  /** What a turn has: whether it was answered, and how many of everything else. */
  datatype TurnTotals = TurnTotals(answered: bool, actions: nat, evidence: nat, changedPaths: nat,
                                   subagentEvidence: nat)

  type TurnSize = TurnView -> nat

  predicate WithinTurn(v: TurnView, totals: TurnTotals, limits: TurnLimits)
  {
    && v.requestBytes <= limits.request && v.responseBytes <= limits.response
    && |v.actionTexts| <= totals.actions && (forall i | 0 <= i < |v.actionTexts| :: v.actionTexts[i] <= limits.action)
    && v.evidence <= totals.evidence && v.changedPaths <= totals.changedPaths
    && v.subagentEvidence <= totals.subagentEvidence
  }

  /** The parameters in the order in which they grow. */
  datatype Knob = Request | Response | NextAction | Evidence | ChangedPaths | SubagentEvidence

  /** One parameter set; for the actions, one more shown with so much text. */
  function Set(v: TurnView, knob: Knob, c: nat): TurnView
  {
    match knob
    case Request => v.(requestBytes := c)
    case Response => v.(responseBytes := c)
    case NextAction => v.(actionTexts := v.actionTexts + [c])
    case Evidence => v.(evidence := c)
    case ChangedPaths => v.(changedPaths := c)
    case SubagentEvidence => v.(subagentEvidence := c)
  }

  /** The values of a parameter that the budget accepts, as the search tests them. */
  function Accepts(v: TurnView, knob: Knob, size: TurnSize, byteBudget: nat): int -> bool
  {
    (c: int) => c >= 0 && Fits(size(Set(v, knob, c)), byteBudget)
  }

  function Counts(v: TurnView, knob: Knob, size: TurnSize, byteBudget: nat): nat -> bool
  {
    (c: nat) => Fits(size(Set(v, knob, c)), byteBudget)
  }

  /** No longer excerpt fits, provided that shorter ones fit whenever longer ones do. */
  ghost predicate Longest(v: TurnView, knob: Knob, size: TurnSize, byteBudget: nat, limit: nat, shown: nat)
  {
    Monotonic(Accepts(v, knob, size, byteBudget), limit) ==>
      forall c | shown < c <= limit :: !Accepts(v, knob, size, byteBudget)(c)
  }

  /** All are shown, or one more does not fit. */
  predicate Most(v: TurnView, knob: Knob, size: TurnSize, byteBudget: nat, total: nat, shown: nat)
  {
    shown < total ==> !Fits(size(Set(v, knob, shown + 1)), byteBudget)
  }

  /** Each action's excerpt is the longest that fits after the actions before it. */
  ghost predicate LongestActions(v: TurnView, actions: seq<nat>, size: TurnSize, byteBudget: nat, limit: nat)
  {
    forall i | 0 <= i < |actions| ::
      Longest(v.(actionTexts := actions[..i]), NextAction, size, byteBudget, limit, actions[i])
  }

  lemma NoActions(v: TurnView, size: TurnSize, byteBudget: nat, limit: nat)
    ensures LongestActions(v, [], size, byteBudget, limit)
  {
  }

  lemma LongestPush(v: TurnView, actions: seq<nat>, c: nat, size: TurnSize, byteBudget: nat, limit: nat)
    requires LongestActions(v, actions, size, byteBudget, limit)
    requires Longest(v.(actionTexts := actions), NextAction, size, byteBudget, limit, c)
    ensures LongestActions(v, actions + [c], size, byteBudget, limit)
  {
    hide Longest;
    var more := actions + [c];
    forall i | 0 <= i < |more|
      ensures Longest(v.(actionTexts := more[..i]), NextAction, size, byteBudget, limit, more[i]) {
      assert more[..i] == actions[..i];
      assert i == |actions| ==> actions[..i] == actions;
    }
  }

  /** Each parameter in its turn is as large as the budget left room for, the later ones still at their minimum. */
  ghost predicate Greedy(v: TurnView, totals: TurnTotals, limits: TurnLimits, size: TurnSize, byteBudget: nat)
  {
    var v1 := Set(MINIMAL_TURN, Request, v.requestBytes);
    var v2 := Set(v1, Response, v.responseBytes);
    var v3 := v2.(actionTexts := v.actionTexts);
    var v4 := Set(v3, Evidence, v.evidence);
    var v5 := Set(v4, ChangedPaths, v.changedPaths);
    && Longest(MINIMAL_TURN, Request, size, byteBudget, limits.request, v.requestBytes)
    && (totals.answered ==> Longest(v1, Response, size, byteBudget, limits.response, v.responseBytes))
    && LongestActions(v2, v.actionTexts, size, byteBudget, limits.action)
    && (|v.actionTexts| < totals.actions ==> !Fits(size(Set(v3, NextAction, 0)), byteBudget))
    && Most(v3, Evidence, size, byteBudget, totals.evidence, v.evidence)
    && Most(v4, ChangedPaths, size, byteBudget, totals.changedPaths, v.changedPaths)
    && Most(v5, SubagentEvidence, size, byteBudget, totals.subagentEvidence, v.subagentEvidence)
  }

  /** One excerpt, grown as far as it fits; without any the view fits. */
  method Excerpt(v: TurnView, knob: Knob, size: TurnSize, byteBudget: nat, limit: nat) returns (shown: nat)
    requires Fits(size(Set(v, knob, 0)), byteBudget)
    ensures shown <= limit && Fits(size(Set(v, knob, shown)), byteBudget)
    ensures Longest(v, knob, size, byteBudget, limit, shown)
  {
    var best := MaximizeReaderBudget(limit, Accepts(v, knob, size, byteBudget));
    if best < 0 {
      assert false;
    }
    shown := best;
  }

  /** One more action, with as much of its text as fits; none when it does not fit even without text. */
  method AppendAction(v: TurnView, size: TurnSize, byteBudget: nat, limit: nat) returns (next: Option<TurnView>)
    ensures next.None? ==> !Fits(size(Set(v, NextAction, 0)), byteBudget)
    ensures next.Some? ==> Fits(size(next.value), byteBudget) && next.value.actionTexts != []
    ensures next.Some? ==>
      var c := next.value.actionTexts[|next.value.actionTexts| - 1];
      c <= limit && next.value == Set(v, NextAction, c) && Longest(v, NextAction, size, byteBudget, limit, c)
  {
    var best := MaximizeReaderBudget(limit, Accepts(v, NextAction, size, byteBudget));
    if best < 0 {
      assert !Accepts(v, NextAction, size, byteBudget)(0);
      return None;
    }
    return Some(Set(v, NextAction, best));
  }

  /** Projects a turn: it throws only when the minimum does not fit, and its result fits. */
  method ProjectTurn(totals: TurnTotals, limits: TurnLimits, size: TurnSize, byteBudget: nat)
    returns (result: Result<TurnView, BudgetError>)
    requires byteBudget > 0
    ensures result.Ok? <==> Fits(size(MINIMAL_TURN), byteBudget)
    ensures result.Err? ==> IsTooSmall(result.error, byteBudget, size(MINIMAL_TURN))
    ensures result.Ok? ==> Fits(size(result.value), byteBudget) && WithinTurn(result.value, totals, limits)
    ensures result.Ok? ==> Greedy(result.value, totals, limits, size, byteBudget)
  {
    hide Fits, Longest, LongestActions;
    FitsMeans(size(MINIMAL_TURN), byteBudget);
    var minimum := WrapReaderProjection(size(MINIMAL_TURN), byteBudget);
    if minimum.Err? {
      return Err(minimum.error);
    }
    var requestBytes := Excerpt(MINIMAL_TURN, Request, size, byteBudget, limits.request);
    var v1 := Set(MINIMAL_TURN, Request, requestBytes);
    var v2 := v1;
    if totals.answered {
      var responseBytes := Excerpt(v1, Response, size, byteBudget, limits.response);
      v2 := Set(v1, Response, responseBytes);
    }
    var v3 := v2;
    NoActions(v2, size, byteBudget, limits.action);
    var index := 0;
    while index < totals.actions
      invariant 0 <= index <= totals.actions && |v3.actionTexts| == index
      invariant v3 == v2.(actionTexts := v3.actionTexts) && Fits(size(v3), byteBudget)
      invariant forall i | 0 <= i < index :: v3.actionTexts[i] <= limits.action
      invariant LongestActions(v2, v3.actionTexts, size, byteBudget, limits.action)
    {
      var next := AppendAction(v3, size, byteBudget, limits.action);
      if next.None? { break; }
      LongestPush(v2, v3.actionTexts, next.value.actionTexts[index], size, byteBudget, limits.action);
      v3 := next.value;
      index := index + 1;
    }
    var v4 := Grown(v3, Evidence, size, byteBudget, totals.evidence);
    var v5 := Grown(v4, ChangedPaths, size, byteBudget, totals.changedPaths);
    var v := Grown(v5, SubagentEvidence, size, byteBudget, totals.subagentEvidence);
    FitsMeans(size(v), byteBudget);
    var final := WrapReaderProjection(size(v), byteBudget);
    if final.Err? {
      assert false;
    }
    return Ok(v);
  }

  /** One list, grown item by item from none. */
  method Grown(v: TurnView, knob: Knob, size: TurnSize, byteBudget: nat, total: nat) returns (after: TurnView)
    requires Set(v, knob, 0) == v && Fits(size(v), byteBudget)
    ensures exists shown: nat ::
      shown <= total && after == Set(v, knob, shown) && Most(v, knob, size, byteBudget, total, shown)
    ensures Fits(size(after), byteBudget)
  {
    var shown := AppendWhileFits(total, 0, Counts(v, knob, size, byteBudget));
    assert shown > 0 ==> Counts(v, knob, size, byteBudget)(shown);
    assert shown < total ==> !Counts(v, knob, size, byteBudget)(shown + 1);
    after := Set(v, knob, shown);
  }

  lemma FitsMeans(bytes: nat, byteBudget: nat)
    ensures Fits(bytes, byteBudget) <==> Measured(bytes) <= byteBudget
  {
  }

  /* ------------------------------ pages of evidence actions ------------------------------ */

  /** A page of a subagent turn: its excerpts, and the actions from `offset` on. */
  datatype EvidencePage = EvidencePage(offset: nat, shown: nat, nextCursor: Option<nat>, view: TurnView)

  datatype EvidenceError = BadCursor | Budget(error: BudgetError)

  function Start(cursor: Option<nat>, total: nat): (offset: Result<nat, EvidenceError>)
  {
    if cursor.None? then Ok(0) else if cursor.value > total then Err(BadCursor) else Ok(cursor.value)
  }

  /** A page shows consecutive actions and names the next, if there is one; it fits, and it makes progress. */
  predicate IsEvidencePage(page: EvidencePage, offset: nat, total: nat, size: TurnSize, byteBudget: nat)
  {
    && page.offset == offset && page.shown == |page.view.actionTexts| && offset + page.shown <= total
    && page.nextCursor == (if offset + page.shown >= total then None else Some(offset + page.shown))
    && Fits(size(page.view), byteBudget)
    && (offset < total ==> page.shown > 0)
  }

  /** `size` measures the pages from this cursor. The page without actions fits first, then grows. */
  method ProjectSubagentEvidence(
    cursor: Option<nat>, total: nat, answered: bool, limits: TurnLimits, size: TurnSize, byteBudget: nat)
    returns (result: Result<EvidencePage, EvidenceError>)
    requires byteBudget > 0
    ensures Start(cursor, total).Err? ==> result == Err(BadCursor)
    ensures Start(cursor, total).Ok? ==>
      var offset, one := Start(cursor, total).value, Set(MINIMAL_TURN, NextAction, 0);
      && (result.Ok? ==> IsEvidencePage(result.value, offset, total, size, byteBudget))
      && (result.Err? ==>
            || (!Fits(size(MINIMAL_TURN), byteBudget)
                && result.error == Budget(TooSmall(byteBudget, Measured(size(MINIMAL_TURN)))))
            || (offset < total && !Fits(size(one), byteBudget)
                && result.error == Budget(TooSmall(byteBudget, Measured(size(one))))))
  {
    hide Longest, Measured;
    var start := Start(cursor, total);
    if start.Err? {
      return Err(BadCursor);
    }
    var offset := start.value;
    var v := MINIMAL_TURN;
    var minimum := WrapReaderProjection(size(v), byteBudget);
    if minimum.Err? {
      return Err(Budget(minimum.error));
    }
    if offset < total {
      var first := AppendAction(v, size, byteBudget, limits.action);
      if first.None? {
        var forced := WrapReaderProjection(size(Set(v, NextAction, 0)), byteBudget);
        return Err(Budget(forced.error));
      }
      v := first.value;
    }
    assert Set(v, Request, 0) == v;
    var requestBytes := Excerpt(v, Request, size, byteBudget, limits.request);
    v := Set(v, Request, requestBytes);
    if answered {
      assert Set(v, Response, 0) == v;
      var responseBytes := Excerpt(v, Response, size, byteBudget, limits.response);
      v := Set(v, Response, responseBytes);
    }
    var index := offset + |v.actionTexts|;
    while index < total
      invariant offset <= index <= total && |v.actionTexts| == index - offset
      invariant Fits(size(v), byteBudget)
      invariant offset < total ==> |v.actionTexts| > 0
    {
      var next := AppendAction(v, size, byteBudget, limits.action);
      if next.None? { break; }
      v := next.value;
      index := index + 1;
    }
    var shown := |v.actionTexts|;
    var final := WrapReaderProjection(size(v), byteBudget);
    if final.Err? {
      assert false;
    }
    return Ok(EvidencePage(offset, shown, if offset + shown >= total then None else Some(offset + shown), v));
  }

  /** The pages a caller gets who follows the cursors from the start; budgets may differ. */
  predicate FollowedPages(pages: seq<EvidencePage>, total: nat)
    decreases |pages|
  {
    && |pages| > 0
    && var last := pages[|pages| - 1];
    var offset := if |pages| == 1 then 0
                  else if pages[|pages| - 2].nextCursor.Some? then pages[|pages| - 2].nextCursor.value else total + 1;
    && last.offset == offset && offset + last.shown <= total && (offset < total ==> last.shown > 0)
    && last.nextCursor == (if offset + last.shown >= total then None else Some(offset + last.shown))
    && (|pages| > 1 ==> FollowedPages(pages[..|pages| - 1], total))
  }

  function ShownBy(pages: seq<EvidencePage>): nat
    decreases |pages|
  {
    if pages == [] then 0 else ShownBy(pages[..|pages| - 1]) + pages[|pages| - 1].shown
  }

  /** The pages tile the action list: each begins where the last ended, and there are no more pages than actions. */
  lemma {:induction false} EvidencePagesTile(pages: seq<EvidencePage>, total: nat)
    requires FollowedPages(pages, total)
    ensures var last := pages[|pages| - 1];
      && last.offset + last.shown == ShownBy(pages) <= total
      && (last.nextCursor.None? <==> ShownBy(pages) == total)
      && (total > 0 ==> |pages| <= ShownBy(pages))
    decreases |pages|
  {
    if |pages| == 1 {
      assert pages[..0] == [];
    } else {
      EvidencePagesTile(pages[..|pages| - 1], total);
    }
  }
}
