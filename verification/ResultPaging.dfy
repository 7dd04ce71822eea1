/**
 Pages of ranked candidates (src/operations.rs `read`, `set_omissions`), in full
 form: a brief lists what does not fit as omissions, a search goes on at a cursor.
 Candidates are named by rank.
 */
module ResultPaging {
  import opened Wrappers

  datatype Candidate = Candidate(required: bool, exact: bool)

  datatype Stream = Results | Omitted

  datatype Cursor = Cursor(stream: Stream, offset: nat)

  datatype Page = Page(
    items: seq<nat>, omitted: seq<nat>, next: Option<Cursor>, count: nat, truncated: bool,
    incomplete: bool, reason: Option<string>, truncatedExact: bool)

  datatype Failure = Stale | BelowMinimum | Unsettled

  type Cost = Page -> Option<nat>

  // `most` is the search's own limit on results; a brief has none.
  datatype Reading = Reading(
    brief: bool, candidates: seq<Candidate>, most: Option<nat>, limit: nat, cost: Cost, envelope: Page)

  predicate Fits(r: Reading, p: Page) {
    r.cost(p).Some? && r.cost(p).value <= r.limit
  }

  predicate Fresh(r: Reading) {
    r.envelope.items == [] && r.envelope.omitted == []
  }

  function Range(a: nat, b: nat): seq<nat> {
    if b <= a then [] else Range(a, b - 1) + [b - 1]
  }

  lemma {:induction false} RangeConcat(a: nat, b: nat, c: nat)
    requires a <= b <= c
    ensures Range(a, b) + Range(b, c) == Range(a, c)
  {
    if b < c {
      RangeConcat(a, b, c - 1);
      assert Range(a, b) + Range(b, c) == Range(a, b) + Range(b, c - 1) + [c - 1];
    } else {
      assert Range(a, b) + [] == Range(a, b);
    }
  }

  predicate RequiredFrom(r: Reading, next: nat) {
    exists i | next <= i < |r.candidates| :: r.candidates[i].required
  }

  function CursorAt(r: Reading, stream: Stream, next: nat): Option<Cursor> {
    if next < |r.candidates| then Some(Cursor(stream, next)) else None
  }

  // What is said of the candidates from one rank on.
  function SetOmissions(r: Reading, p: Page, next: nat): Page
    requires next <= |r.candidates|
  {
    var more := next < |r.candidates|;
    p.(count := |r.candidates| - next,
       truncated := more,
       incomplete := more || r.envelope.incomplete,
       reason := if more then Some(if r.brief && RequiredFrom(r, next) then "required_items_omitted"
                                   else "results_omitted")
                 else r.envelope.reason,
       next := CursorAt(r, if r.brief then Omitted else Results, next))
  }

  // The page that serves ranks `start` to `next` as items.
  function ItemsPage(r: Reading, start: nat, next: nat): Page
    requires next <= |r.candidates|
  {
    SetOmissions(r, r.envelope.(items := Range(start, next)), next)
  }

  // The same with the ranks up to `last` listed as omitted.
  function BriefPage(r: Reading, start: nat, next: nat, last: nat): Page
    requires next <= last <= |r.candidates|
  {
    if last == next then ItemsPage(r, start, next)
    else ItemsPage(r, start, next).(omitted := Range(next, last), next := CursorAt(r, Omitted, last))
  }

  // A page of omissions only.
  function OmittedPage(r: Reading, start: nat, last: nat): Page
    requires start <= last <= |r.candidates|
  {
    r.envelope.(incomplete := true,
                reason := Some(if RequiredFrom(r, start) then "required_items_omitted" else "results_omitted"),
                count := |r.candidates| - start,
                omitted := Range(start, last),
                next := CursorAt(r, Omitted, last))
  }

  function SearchPage(r: Reading, start: nat, next: nat): Page
    requires next <= |r.candidates|
  {
    ItemsPage(r, start, next).(truncatedExact := exists i | next <= i < |r.candidates| :: r.candidates[i].exact)
  }

  // ----- what a page may be

  /** Ranks in order from the cursor: first as items, then as omissions, then a cursor just after them. */
  ghost predicate Serves(r: Reading, at: Cursor, p: Page, items: nat, last: nat) {
    && at.offset <= items <= last <= |r.candidates|
    && p.items == Range(at.offset, items) && p.omitted == Range(items, last)
    && p.next == (if last == |r.candidates| then None else Some(Cursor(if r.brief then Omitted else Results, last)))
    && (!r.brief ==> at.stream == Results && last == items && (at.offset < |r.candidates| ==> at.offset < last))
    && (at.stream == Omitted ==> items == at.offset && (at.offset < |r.candidates| ==> at.offset < last))
    // the count is of the candidates not served as items from here
    && p.count == |r.candidates| - items
    && Fits(r, p)
  }

  // A candidate that must not be missing is among those left.
  ghost predicate RequiredLeft(r: Reading, from: nat) {
    exists c :: from <= c < |r.candidates| && r.candidates[c].required
  }

  // What the page says of the candidates it does not serve as items.
  ghost predicate Reports(r: Reading, at: Cursor, p: Page, items: nat) {
    if at.stream == Omitted then
      p.incomplete
      && p.reason == Some(if RequiredLeft(r, at.offset) then "required_items_omitted" else "results_omitted")
    else
      && (p.truncated <==> items < |r.candidates|)
      && (p.incomplete <==> items < |r.candidates| || r.envelope.incomplete)
      && p.reason == (if items == |r.candidates| then r.envelope.reason
                      else Some(if r.brief && RequiredLeft(r, items) then "required_items_omitted"
                                else "results_omitted"))
      && (!r.brief ==> (p.truncatedExact <==> exists i | items <= i < |r.candidates| :: r.candidates[i].exact))
  }

  // Where a page stops, one more did not fit.
  ghost predicate Greedy(r: Reading, at: Cursor, items: nat, last: nat)
    requires at.offset <= items <= last <= |r.candidates|
  {
    && (at.stream == Results && items < |r.candidates| && (r.most.Some? ==> items < at.offset + r.most.value) ==>
          !Fits(r, ItemsPage(r, at.offset, items + 1)))
    && (at.stream == Results && r.brief && last < |r.candidates| ==> !Fits(r, BriefPage(r, at.offset, items, last + 1)))
    && (at.stream == Omitted && last < |r.candidates| ==> !Fits(r, OmittedPage(r, at.offset, last + 1)))
  }

  // As many items as fit and as the search allows, one after the other.
  predicate Filled(r: Reading, start: nat, next: nat) {
    && start <= next <= |r.candidates|
    && (forall j | start <= j <= next :: Fits(r, ItemsPage(r, start, j)))
    && (next < |r.candidates| && (r.most.Some? ==> next < start + r.most.value) ==>
        !Fits(r, ItemsPage(r, start, next + 1)))
  }

  /** The budget holds no page from the cursor: which page it is that does not fit. */
  predicate TooSmall(r: Reading, at: Cursor, items: nat)
    requires at.offset <= |r.candidates|
  {
    if at.stream == Omitted then
      || !Fits(r, OmittedPage(r, at.offset, at.offset))
      || (at.offset < |r.candidates| && !Fits(r, OmittedPage(r, at.offset, at.offset + 1)))
    else
      || !Fits(r, ItemsPage(r, at.offset, at.offset))
      || (!r.brief && Filled(r, at.offset, items)
          && (items == at.offset < |r.candidates| || !Fits(r, SearchPage(r, at.offset, items))))
  }

  // Some page that is costed from this cursor has no count.
  predicate CostFails(r: Reading, at: Cursor, items: nat)
    requires at.offset <= |r.candidates|
  {
    var start, n := at.offset, |r.candidates|;
    if at.stream == Omitted then exists j | start <= j <= n :: r.cost(OmittedPage(r, start, j)) == None
    else
      || (exists j | start <= j <= n :: r.cost(ItemsPage(r, start, j)) == None)
      || (start <= items <= n
          && if r.brief then exists j | items <= j <= n :: r.cost(BriefPage(r, start, items, j)) == None
             else r.cost(SearchPage(r, start, items)) == None)
  }

  predicate StaleAt(r: Reading, at: Cursor) {
    at.offset > |r.candidates| || (!r.brief && at.stream == Omitted)
  }

  method Settle(r: Reading, p: Page) returns (res: Result<bool, Failure>)
    ensures res.Ok? ==> r.cost(p).Some? && (res.value <==> Fits(r, p))
    ensures res.Err? ==> res.error == Unsettled && r.cost(p) == None
  {
    var used := r.cost(p);
    if used.None? {
      return Err(Unsettled);
    }
    return Ok(used.value <= r.limit);
  }

  method Require(r: Reading, p: Page) returns (res: Result<Page, Failure>)
    ensures res.Ok? <==> Fits(r, p)
    ensures res.Ok? ==> res.value == p
    ensures res.Err? ==> res.error != Stale && (res.error == Unsettled ==> r.cost(p) == None)
  {
    var fits := Settle(r, p);
    if fits.Err? {
      return Err(fits.error);
    }
    return if fits.value then Ok(p) else Err(BelowMinimum);
  }

  method ReadOmitted(r: Reading, start: nat) returns (res: Result<Page, Failure>, ghost last: nat)
    requires Fresh(r) && r.brief && start <= |r.candidates|
    ensures res.Ok? ==>
      Serves(r, Cursor(Omitted, start), res.value, start, last) && Greedy(r, Cursor(Omitted, start), start, last)
    ensures res.Ok? ==> res.value == OmittedPage(r, start, last)
    ensures res.Ok? ==>
      Fits(r, OmittedPage(r, start, start)) && (start < |r.candidates| ==> Fits(r, OmittedPage(r, start, start + 1)))
    ensures res.Err? ==> res.error != Stale
    ensures res == Err(Unsettled) ==> CostFails(r, Cursor(Omitted, start), start)
    ensures res == Err(BelowMinimum) ==>
      !Fits(r, OmittedPage(r, start, start)) || (start < |r.candidates| && !Fits(r, OmittedPage(r, start, start + 1)))
  {
    hide Fits;
    last := start;
    var page := OmittedPage(r, start, start);
    var base := Require(r, page);
    if base.Err? {
      return Err(base.error), start;
    }
    var next := start;
    while next < |r.candidates|
      invariant start <= next <= |r.candidates| && page == OmittedPage(r, start, next) && Fits(r, page)
      invariant next > start ==> Fits(r, OmittedPage(r, start, start + 1))
    {
      var candidate := page.(omitted := page.omitted + [next], next := CursorAt(r, Omitted, next + 1));
      assert candidate == OmittedPage(r, start, next + 1);
      var fits := Settle(r, candidate);
      if fits.Err? {
        return Err(fits.error), next;
      }
      if !fits.value {
        break;
      }
      page := candidate;
      next := next + 1;
    }
    if next == start && start < |r.candidates| {
      return Err(BelowMinimum), next;
    }
    return Ok(page), next;
  }

  // As many items as fit, and as the search allows.
  method ServeItems(r: Reading, start: nat) returns (res: Result<Page, Failure>, next: nat)
    requires Fresh(r) && start <= |r.candidates|
    ensures start <= next <= |r.candidates|
    ensures res.Ok? ==> res.value == ItemsPage(r, start, next) && Fits(r, res.value)
    ensures res.Ok? ==> Filled(r, start, next)
    ensures res.Err? ==> res.error != Stale
    ensures res == Err(Unsettled) ==> exists j | start <= j <= |r.candidates| :: r.cost(ItemsPage(r, start, j)) == None
    ensures res == Err(BelowMinimum) ==> !Fits(r, ItemsPage(r, start, start))
  {
    hide Fits;
    next := start;
    var page := SetOmissions(r, r.envelope, start);
    assert page == ItemsPage(r, start, start);
    res := Require(r, page);
    if res.Err? {
      return;
    }
    while next < |r.candidates| && (r.most.Some? ==> next < start + r.most.value)
      invariant start <= next <= |r.candidates| && page == ItemsPage(r, start, next)
      invariant forall j | start <= j <= next :: Fits(r, ItemsPage(r, start, j))
    {
      var candidate := SetOmissions(r, page.(items := page.items + [next]), next + 1);
      assert candidate == ItemsPage(r, start, next + 1);
      var fits := Settle(r, candidate);
      if fits.Err? {
        return Err(fits.error), next;
      }
      if !fits.value {
        break;
      }
      page := candidate;
      next := next + 1;
    }
    return Ok(page), next;
  }

  // What does not fit is listed for as long as the list fits.
  method ListOmitted(r: Reading, start: nat, next: nat) returns (res: Result<Page, Failure>, last: nat)
    requires Fresh(r) && r.brief && start <= next <= |r.candidates| && Fits(r, ItemsPage(r, start, next))
    ensures next <= last <= |r.candidates|
    ensures res.Ok? ==> res.value == BriefPage(r, start, next, last) && Fits(r, res.value)
    ensures res.Ok? && last < |r.candidates| ==> !Fits(r, BriefPage(r, start, next, last + 1))
    ensures res.Err? ==> res.error == Unsettled
    ensures res.Err? ==> exists j | next <= j <= |r.candidates| :: r.cost(BriefPage(r, start, next, j)) == None
  {
    hide Fits;
    var page := ItemsPage(r, start, next);
    last := next;
    while last < |r.candidates|
      invariant next <= last <= |r.candidates| && page == BriefPage(r, start, next, last) && Fits(r, page)
    {
      var candidate := page.(omitted := page.omitted + [last], next := CursorAt(r, Omitted, last + 1));
      assert candidate == BriefPage(r, start, next, last + 1);
      var fits := Settle(r, candidate);
      if fits.Err? {
        return Err(fits.error), last;
      }
      if !fits.value {
        break;
      }
      page := candidate;
      last := last + 1;
    }
    return Ok(page), last;
  }

  /**
   One page from a cursor. It serves ranks in order from there and hands out the
   cursor after them; a search, or a page of omissions, moves on. It fails exactly if
   the budget is too small for that, unless a count does not settle.
   */
  method Read(r: Reading, at: Cursor) returns (res: Result<Page, Failure>, ghost items: nat, ghost last: nat)
    requires Fresh(r)
    ensures res == Err(Stale) <==> StaleAt(r, at)
    ensures res == Err(BelowMinimum) ==> TooSmall(r, at, items)
    ensures res.Ok? ==> !TooSmall(r, at, items)
    ensures res == Err(Unsettled) ==> CostFails(r, at, items)
    ensures res.Ok? ==>
      Serves(r, at, res.value, items, last) && Greedy(r, at, items, last) && Reports(r, at, res.value, items)
  {
    hide Fits;
    items, last := 0, 0;
    var start := at.offset;
    if start > |r.candidates| {
      return Err(Stale), 0, 0;
    }
    if !r.brief && at.stream != Results {
      return Err(Stale), 0, 0;
    }
    if at.stream == Omitted {
      res, last := ReadOmitted(r, start);
      items := start;
      return;
    }
    var served, next := ServeItems(r, start);
    items, last := next, next;
    if served.Err? {
      res := served;
      return;
    }
    if r.brief {
      res, last := ListOmitted(r, start, next);
      return;
    }
    if next == start && start < |r.candidates| {
      return Err(BelowMinimum), items, last;
    }
    res := Require(r, SearchPage(r, start, next));
  }

  // ----- following the cursors

  datatype Turn = Turn(reading: Reading, page: Page, items: nat, last: nat)

  ghost predicate Chain(brief: bool, candidates: seq<Candidate>, turns: seq<Turn>, at: Cursor) {
    && turns != []
    && turns[0].reading.brief == brief && turns[0].reading.candidates == candidates
    && Serves(turns[0].reading, at, turns[0].page, turns[0].items, turns[0].last)
    && (if |turns| == 1 then turns[0].page.next == None
        else turns[0].page.next.Some? && Chain(brief, candidates, turns[1..], turns[0].page.next.value))
  }

  function Entries(turns: seq<Turn>): seq<nat> {
    if turns == [] then [] else turns[0].page.items + turns[0].page.omitted + Entries(turns[1..])
  }

  // The budget of a step: ranks left, and for a brief the change to the omission list.
  function Left(n: nat, brief: bool, at: Cursor): nat
    requires at.offset <= n
  {
    n - at.offset + if brief && at.stream == Results then 1 else 0
  }

  /**
   Every candidate appears exactly once over a whole chain, in rank order, as an
   item or as an omission; the number of pages is bounded by what was left.
   */
  lemma {:induction false} ChainConserves(brief: bool, candidates: seq<Candidate>, turns: seq<Turn>, at: Cursor)
    requires Chain(brief, candidates, turns, at)
    ensures at.offset <= |candidates| && Entries(turns) == Range(at.offset, |candidates|)
    ensures |turns| <= 1 + Left(|candidates|, brief, at)
  {
    hide Fits;
    var t := turns[0];
    RangeConcat(at.offset, t.items, t.last);
    if |turns| == 1 {
      assert turns[1..] == [];
      assert Entries(turns) == Range(at.offset, t.last);
    } else {
      ChainConserves(brief, candidates, turns[1..], t.page.next.value);
      RangeConcat(at.offset, t.last, |candidates|);
    }
  }

  // Once a brief lists omissions it serves no more items.
  lemma {:induction false} OmissionsLast(candidates: seq<Candidate>, turns: seq<Turn>, at: Cursor)
    requires Chain(true, candidates, turns, at)
    ensures forall i :: 1 <= i < |turns| ==> turns[i].page.items == []
  {
    hide Fits;
    if |turns| > 1 {
      OmissionsLast(candidates, turns[1..], turns[0].page.next.value);
      assert turns[1].page.items == [] by {
        var next := turns[0].page.next.value;
        assert turns[1..][0] == turns[1];
        assert next.stream == Omitted;
      }
      forall i | 1 <= i < |turns| ensures turns[i].page.items == [] {
        if i > 1 {
          assert turns[i] == turns[1..][i - 1];
        }
      }
    }
  }
}
