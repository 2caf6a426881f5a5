/**
 * src/reader/record-page.ts: one field of a record is read in pages under a byte budget. A page ends
 * between two code points and carries a cursor to the next; no byte is lost and none is read twice.
 */
module RecordPage {
  import opened Base
  import opened Unicode
  import opened Budget

  /** What a cursor is bound to: the query, and the record as it was. */
  datatype Binding = Binding(
    project: Digest,
    scope: string,
    recordKind: string,
    identity: string,
    field: string,
    query: Digest,
    recordSha256: Digest)

  /** A cursor after decoding; its text form and checksum are not part of this model. */
  datatype PageCursor = PageCursor(binding: Binding, offset: nat)

  datatype PageError =
    | OtherQuery | TargetChanged | OutsideField | NotABoundary
    | OverBudget(budgetError: BudgetError)

  datatype Page = Page(start: nat, end: nat, text: Bytes, complete: bool, nextCursor: Option<PageCursor>, reported: nat)

  /** Bytes of the envelope of a page apart from the digits of its own size. */
  type Envelope = (nat, nat) -> nat

  /** The cursor's query is compared before the record it is for. */
  function DecodeCursor(cursor: PageCursor, expected: Binding, bytes: Bytes): (offset: Result<nat, PageError>)
    ensures offset.Ok? <==>
      cursor.binding == expected && 0 < cursor.offset < |bytes| && IsBoundary(bytes, cursor.offset)
    ensures offset.Ok? ==> offset.value == cursor.offset
  {
    if cursor.binding.(recordSha256 := expected.recordSha256) != expected then Err(OtherQuery)
    else if cursor.binding.recordSha256 != expected.recordSha256 then Err(TargetChanged)
    else if cursor.offset <= 0 || cursor.offset >= |bytes| then Err(OutsideField)
    else if !IsBoundary(bytes, cursor.offset) then Err(NotABoundary)
    else Ok(cursor.offset)
  }

  function StartOf(cursor: Option<PageCursor>, binding: Binding, bytes: Bytes): (start: Result<nat, PageError>)
    ensures start.Ok? ==> start.value <= |bytes| && IsBoundary(bytes, start.value)
    ensures start.Ok? ==> start.value < |bytes| || bytes == []
  {
    if cursor.None? then Ok(0) else DecodeCursor(cursor.value, binding, bytes)
  }

  predicate Fits(envelope: Envelope, byteBudget: nat, start: nat, end: nat)
  {
    Measured(envelope(start, end)) <= byteBudget
  }

  /** Longer partial pages take no fewer bytes: the text, its range and the cursor only grow. */
  ghost predicate GrowsWithEnd(envelope: Envelope, bytes: Bytes, start: nat)
  {
    forall a: nat, b: nat | start < a <= b < |bytes| && IsBoundary(bytes, a) && IsBoundary(bytes, b) ::
      envelope(start, a) <= envelope(start, b)
  }

  /** The page from `start` to `end`, whatever chose the end. */
  ghost predicate IsPage(page: Page, binding: Binding, bytes: Bytes, start: nat)
  {
    && page.start == start && start <= page.end <= |bytes|
    && IsBoundary(bytes, start) && IsBoundary(bytes, page.end)
    && (start < page.end || bytes == [])
    && page.text == bytes[start..page.end]
    && page.complete == (page.end == |bytes|)
    && page.nextCursor == if page.complete then None else Some(PageCursor(binding, page.end))
  }

  /** A partial page is as long as the budget allows. */
  ghost predicate IsLargest(page: Page, envelope: Envelope, byteBudget: nat, bytes: Bytes)
  {
    && (page.complete <==> Fits(envelope, byteBudget, page.start, |bytes|))
    && forall e: nat | page.end < e < |bytes| && IsBoundary(bytes, e) && !page.complete ::
         !Fits(envelope, byteBudget, page.start, e)
  }

  /** The bytes from `start` to `end` are one code point. */
  ghost predicate IsCodePoint(bytes: Bytes, start: nat, end: nat)
  {
    start < end <= |bytes| && IsBoundary(bytes, end) && forall i | start < i < end :: !IsBoundary(bytes, i)
  }

  /** Neither the rest of the field nor its next code point alone fits; the error says what the latter needs. */
  ghost predicate NoPageFits(envelope: Envelope, byteBudget: nat, bytes: Bytes, start: nat, error: PageError)
  {
    && !Fits(envelope, byteBudget, start, |bytes|)
    && exists e: nat ::
         && (IsCodePoint(bytes, start, e) || (bytes == [] && e == 0))
         && !Fits(envelope, byteBudget, start, e)
         && error == OverBudget(TooSmall(byteBudget, Measured(envelope(start, e))))
  }

  method PageAt(binding: Binding, bytes: Bytes, byteBudget: nat, envelope: Envelope, start: nat, end: nat)
    returns (result: Result<Page, BudgetError>)
    requires start <= end <= |bytes| && IsBoundary(bytes, start) && IsBoundary(bytes, end)
      && (start < end || bytes == [])
    requires byteBudget > 0
    ensures result.Ok? <==> Fits(envelope, byteBudget, start, end)
    ensures result.Ok? ==> IsPage(result.value, binding, bytes, start) && result.value.end == end
    ensures result.Ok? ==> result.value.reported == Measured(envelope(start, end))
    ensures result.Err? ==> result.error == TooSmall(byteBudget, Measured(envelope(start, end)))
  {
    var complete := end == |bytes|;
    var nextCursor := if complete then None else Some(PageCursor(binding, end));
    var size := WrapReaderProjection(envelope(start, end), byteBudget);
    match size
    case Err(error) => return Err(error);
    case Ok(reported) => return Ok(Page(start, end, bytes[start..end], complete, nextCursor, reported));
  }

  /**
   * One page. The complete page is tried first, since leaving out the next cursor can make it shorter
   * than a partial one; the partial pages are searched by halving.
   */
  method PageSelectedText(
    bytes: Bytes, binding: Binding, byteBudget: int, cursor: Option<PageCursor>, envelope: Envelope)
    returns (result: Result<Page, PageError>)
    ensures byteBudget <= 0 ==> result == Err(OverBudget(NotPositive))
    ensures byteBudget > 0 ==> var start := StartOf(cursor, binding, bytes);
      && (start.Err? ==> result == Err(start.error))
      && (result.Ok? ==> start.Ok? && IsPage(result.value, binding, bytes, start.value))
      && (result.Ok? ==> Fits(envelope, byteBudget, start.value, result.value.end)
                         && result.value.reported == Measured(envelope(start.value, result.value.end)))
      && (result.Ok? && GrowsWithEnd(envelope, bytes, start.value) ==>
          IsLargest(result.value, envelope, byteBudget, bytes))
      && (start.Ok? && result.Err? ==> NoPageFits(envelope, byteBudget, bytes, start.value, result.error))
  {
    hide Measured, Serialized, GrowsWithEnd;
    if byteBudget <= 0 {
      return Err(OverBudget(NotPositive));
    }
    var decoded := StartOf(cursor, binding, bytes);
    if decoded.Err? {
      return Err(decoded.error);
    }
    var start := decoded.value;
    if |bytes| == 0 {
      if cursor.Some? {
        assert false;
      }
      var empty := PageAt(binding, bytes, byteBudget, envelope, 0, 0);
      match empty
      case Ok(page) => return Ok(page);
      case Err(error) => return Err(OverBudget(error));
    }
    var whole := PageAt(binding, bytes, byteBudget, envelope, start, |bytes|);
    if whole.Ok? {
      return Ok(whole.value);
    }
    var next := NextCodePointEnd(bytes, start);
    var minimumEnd := next.value;
    var low, high := minimumEnd, |bytes| - 1;
    var best: Option<Page> := None;
    while low <= high
      invariant minimumEnd <= low <= high + 1 <= |bytes| || (low == minimumEnd == |bytes| && high == |bytes| - 1)
      invariant best.Some? ==>
        && IsPage(best.value, binding, bytes, start) && best.value.end < low && !best.value.complete
        && Fits(envelope, byteBudget, start, best.value.end)
        && best.value.reported == Measured(envelope(start, best.value.end))
      invariant best.Some? ==> forall e: nat | best.value.end < e < low :: !IsBoundary(bytes, e)
      invariant best.None? ==> low == minimumEnd
      invariant GrowsWithEnd(envelope, bytes, start) ==>
        forall e: nat | high < e < |bytes| && IsBoundary(bytes, e) :: !Fits(envelope, byteBudget, start, e)
    {
      var middle := low + (high - low) / 2;
      var end := PreviousCodePointBoundary(bytes, middle, minimumEnd);
      var attempt := PageAt(binding, bytes, byteBudget, envelope, start, end);
      if attempt.Ok? {
        best := Some(attempt.value);
        low := middle + 1;
      } else {
        if GrowsWithEnd(envelope, bytes, start) {
          NothingBeyondFits(envelope, byteBudget, bytes, start, end, middle);
        }
        high := middle - 1;
      }
    }
    if best.Some? {
      return Ok(best.value);
    }
    assert IsCodePoint(bytes, start, minimumEnd);
    var least := PageAt(binding, bytes, byteBudget, envelope, start, minimumEnd);
    match least
    case Ok(page) => return Ok(page);
    case Err(error) => return Err(OverBudget(error));
  }

  /** When the page up to the last boundary before `middle` does not fit, no longer partial page does. */
  lemma NothingBeyondFits(envelope: Envelope, byteBudget: nat, bytes: Bytes, start: nat, end: nat, middle: nat)
    requires GrowsWithEnd(envelope, bytes, start)
    requires start < end < |bytes| && IsBoundary(bytes, end) && !Fits(envelope, byteBudget, start, end)
    requires forall i | end < i <= middle :: 0 <= i <= |bytes| ==> !IsBoundary(bytes, i)
    ensures forall e: nat | middle <= e < |bytes| && end <= e && IsBoundary(bytes, e) ::
      !Fits(envelope, byteBudget, start, e)
  {
    forall e: nat | middle <= e < |bytes| && end <= e && IsBoundary(bytes, e)
      ensures !Fits(envelope, byteBudget, start, e)
    {
      MeasuredMonotone(envelope(start, end), envelope(start, e));
    }
  }

  /* ------------------------------ following the cursors ------------------------------ */

  function Texts(pages: seq<Page>): (s: Bytes)
  {
    if pages == [] then [] else Texts(pages[..|pages| - 1]) + pages[|pages| - 1].text
  }

  /**
   * The pages a caller gets who starts without a cursor and hands each page's cursor to the next
   * call. Budgets and envelopes may differ from page to page.
   */
  ghost predicate Followed(pages: seq<Page>, binding: Binding, bytes: Bytes)
  {
    && |pages| > 0
    && var last := pages[|pages| - 1];
    if |pages| == 1 then IsPage(last, binding, bytes, 0)
    else
      && Followed(pages[..|pages| - 1], binding, bytes)
      && var start := StartOf(pages[|pages| - 2].nextCursor, binding, bytes);
      pages[|pages| - 2].nextCursor.Some? && start.Ok? && IsPage(last, binding, bytes, start.value)
  }

  /** A partial page's cursor is accepted for the same query and record, and leads to where the page ended. */
  lemma CursorLeadsOn(page: Page, binding: Binding, bytes: Bytes, start: nat)
    requires IsPage(page, binding, bytes, start) && !page.complete
    ensures StartOf(page.nextCursor, binding, bytes) == Ok(page.end)
    ensures forall other: Binding :: DecodeCursor(page.nextCursor.value, other, bytes).Ok? ==> other == binding
  {
  }

  /**
   * Lossless paging: at every point the page texts together are the field up to the last page's end,
   * and the field itself once a page is complete; every page holds whole code points and at least
   * one, so there are at most as many pages as code points.
   */
  lemma {:induction false} PagesAreLossless(cs: seq<Scalar>, pages: seq<Page>, binding: Binding) returns (k: nat)
    requires Followed(pages, binding, Utf8(cs))
    ensures var last := pages[|pages| - 1];
      && k <= |cs| && (cs != [] ==> |pages| <= k)
      && last.end == |Utf8(cs[..k])| && Texts(pages) == Utf8(cs[..k])
      && (last.complete ==> Texts(pages) == Utf8(cs))
    ensures forall i | 0 <= i < |pages| :: HoldsCodePoints(pages[i], cs)
    decreases |pages|
  {
    hide Utf8, HoldsCodePoints, IsBoundary;
    var bytes := Utf8(cs);
    var last := pages[|pages| - 1];
    var earlier := pages[..|pages| - 1];
    var j := 0;
    FirstByteStarts(cs);
    if earlier == [] {
      assert last.start == 0 && Texts(earlier) == [];
      EmptyText();
    } else {
      CursorLeadsOn(pages[|pages| - 2], binding, bytes, pages[|pages| - 2].start);
      j := PagesAreLossless(cs, earlier, binding);
      assert forall i | 0 <= i < |earlier| :: pages[i] == earlier[i];
    }
    WholeCodePoints(last, binding, cs);
    k := Advance(cs, j, last.start, last.end);
    assert cs[..|cs|] == cs;
    if last.complete {
      WholeText(cs, k);
    }
  }

  ghost predicate HoldsCodePoints(page: Page, cs: seq<Scalar>)
  {
    exists j, k :: 0 <= j <= k <= |cs| && (cs != [] ==> j < k) && page.text == Utf8(cs[j..k])
  }

  lemma EmptyText()
    ensures Utf8([]) == []
  {
  }

  lemma WholeCodePoints(page: Page, binding: Binding, cs: seq<Scalar>)
    requires IsPage(page, binding, Utf8(cs), page.start)
    ensures HoldsCodePoints(page, cs)
  {
    var j, k := BetweenBoundaries(cs, page.start, page.end);
    FirstByteStarts(cs);
  }

  lemma LongerPrefix(cs: seq<Scalar>, k: nat, j: nat)
    requires k < j <= |cs|
    ensures |Utf8(cs[..k])| < |Utf8(cs[..j])|
  {
    Utf8Concat(cs[..k], cs[k..j]);
    assert cs[..k] + cs[k..j] == cs[..j];
    FirstByteStarts(cs[k..j]);
  }

  /** A later boundary is a longer prefix, and the bytes between the two complete it. */
  lemma Advance(cs: seq<Scalar>, j: nat, from: nat, to: nat) returns (k: nat)
    requires j <= |cs| && from == |Utf8(cs[..j])| && from <= to <= |Utf8(cs)| && IsBoundary(Utf8(cs), to)
    ensures j <= k <= |cs| && to == |Utf8(cs[..k])| && (from < to ==> j < k)
    ensures Utf8(cs[..j]) + Utf8(cs)[from..to] == Utf8(cs[..k])
  {
    k := BoundaryIsPrefix(cs, to);
    PrefixIsBoundary(cs, j);
    if k < j {
      LongerPrefix(cs, k, j);
    }
    assert Utf8(cs)[..to] == Utf8(cs)[..from] + Utf8(cs)[from..to];
  }

  lemma WholeText(cs: seq<Scalar>, k: nat)
    requires k <= |cs| && |Utf8(cs[..k])| == |Utf8(cs)|
    ensures Utf8(cs[..k]) == Utf8(cs)
  {
    PrefixIsBoundary(cs, k);
  }
}
