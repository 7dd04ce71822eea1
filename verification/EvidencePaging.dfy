/**
 Pages of evidence (src/operations.rs `evidence_page`). Members lie one after the
 other in one flat space of offsets, each as long as its text and one more, and a
 cursor is an offset in that space. What a page costs is any function of the page.
 */
module EvidencePaging {
  import opened Machine
  import opened Utf8
  import opened Wrappers

  datatype Evidence = Evidence(id: string, text: string, hasText: bool, required: bool)

  // Bytes `start..stop` of a member's text.
  datatype Fragment = Fragment(member: nat, start: nat, stop: nat, ranged: bool)

  datatype Page = Page(
    items: seq<Fragment>, next: Option<nat>, truncated: bool, incomplete: bool, reason: Option<string>, omitted: nat)

  datatype Failure = Stale | BelowMinimum(needed: nat) | Unsettled

  type Cost = Page -> Option<nat>

  datatype Reading = Reading(brief: bool, selected: seq<Evidence>, limit: nat, unit: nat, cost: Cost, envelope: Page)

  predicate Fits(r: Reading, p: Page) {
    r.cost(p).Some? && r.cost(p).value <= r.limit
  }

  // ----- the flat space

  function Bytes(e: Evidence): seq<byte> {
    Encode(e.text)
  }

  function Base(sel: seq<Evidence>, i: nat): nat
    requires i <= |sel|
  {
    if i == 0 then 0 else Base(sel, i - 1) + |Bytes(sel[i - 1])| + 1
  }

  function Total(sel: seq<Evidence>): nat {
    Base(sel, |sel|)
  }

  lemma {:induction false} BaseGrows(sel: seq<Evidence>, i: nat, j: nat)
    requires i <= j <= |sel|
    ensures Base(sel, i) + (j - i) <= Base(sel, j)
  {
    if i < j {
      BaseGrows(sel, i, j - 1);
    }
  }

  // A place where a member's text may be taken up.
  predicate Startable(e: Evidence, start: nat) {
    start <= |Bytes(e)| && Boundary(Bytes(e), start) && (e.text != "" ==> start < |Bytes(e)|)
  }

  predicate PlaceOf(sel: seq<Evidence>, offset: nat, i: nat) {
    i < |sel| && Base(sel, i) <= offset < Base(sel, i + 1) && Startable(sel[i], offset - Base(sel, i))
  }

  predicate ValidOffset(sel: seq<Evidence>, offset: nat) {
    exists i | 0 <= i < |sel| :: PlaceOf(sel, offset, i)
  }

  lemma OnePlace(sel: seq<Evidence>, offset: nat, i: nat, j: nat)
    requires i < |sel| && Base(sel, i) <= offset < Base(sel, i + 1)
    requires j < |sel| && Base(sel, j) <= offset < Base(sel, j + 1)
    ensures i == j
  {
    if i < j {
      BaseGrows(sel, i + 1, j);
    } else if j < i {
      BaseGrows(sel, j + 1, i);
    }
  }

  function FlatStart(sel: seq<Evidence>, f: Fragment): nat
    requires f.member < |sel|
  {
    Base(sel, f.member) + f.start
  }

  // The gap after a text belongs to the fragment that ends it.
  function FlatEnd(sel: seq<Evidence>, f: Fragment): nat
    requires f.member < |sel|
  {
    if f.stop == |Bytes(sel[f.member])| then Base(sel, f.member + 1) else Base(sel, f.member) + f.stop
  }

  // A piece of one text, whole characters, and not nothing unless the text is.
  predicate WellCut(sel: seq<Evidence>, f: Fragment) {
    && f.member < |sel| && Startable(sel[f.member], f.start)
    && f.start <= f.stop <= |Bytes(sel[f.member])| && Boundary(Bytes(sel[f.member]), f.stop)
    && (sel[f.member].text != "" ==> f.start < f.stop)
  }

  // Fragments that follow one another from one offset to another.
  predicate Covers(sel: seq<Evidence>, items: seq<Fragment>, from: nat, to: nat) {
    if items == [] then from == to
    else
      var f := items[|items| - 1];
      WellCut(sel, f) && to == FlatEnd(sel, f) && Covers(sel, items[..|items| - 1], from, FlatStart(sel, f))
  }

  lemma CoversSnoc(sel: seq<Evidence>, items: seq<Fragment>, from: nat, f: Fragment)
    requires WellCut(sel, f) && Covers(sel, items, from, FlatStart(sel, f))
    ensures Covers(sel, items + [f], from, FlatEnd(sel, f))
  {
    assert (items + [f])[..|items|] == items;
  }

  lemma {:induction false} CoversConcat(sel: seq<Evidence>, a: seq<Fragment>, b: seq<Fragment>, from: nat, mid: nat,
                                        to: nat)
    requires Covers(sel, a, from, mid) && Covers(sel, b, mid, to)
    ensures Covers(sel, a + b, from, to)
  {
    if b == [] {
      assert a + b == a;
    } else {
      var f := b[|b| - 1];
      CoversConcat(sel, a, b[..|b| - 1], from, mid, FlatStart(sel, f));
      assert (a + b)[..|a + b| - 1] == a + b[..|b| - 1];
    }
  }

  lemma {:induction false} CoversForward(sel: seq<Evidence>, items: seq<Fragment>, from: nat, to: nat)
    requires Covers(sel, items, from, to)
    ensures from + |items| <= to
  {
    if items != [] {
      var f := items[|items| - 1];
      FragmentForward(sel, f);
      CoversForward(sel, items[..|items| - 1], from, FlatStart(sel, f));
    }
  }

  lemma FragmentForward(sel: seq<Evidence>, f: Fragment)
    requires WellCut(sel, f)
    ensures Base(sel, f.member) <= FlatStart(sel, f) < FlatEnd(sel, f) <= Base(sel, f.member + 1)
  {
  }

  // ----- what tiling means for the texts

  // The pieces of one member, put together.
  function Pieces(sel: seq<Evidence>, items: seq<Fragment>, m: nat): seq<byte>
    requires m < |sel| && forall f :: f in items ==> WellCut(sel, f)
  {
    if items == [] then []
    else
      var f := items[|items| - 1];
      assert f in items && WellCut(sel, f);
      Pieces(sel, items[..|items| - 1], m) + if f.member == m then Bytes(sel[m])[f.start..f.stop] else []
  }

  lemma {:induction false} CoversWellCut(sel: seq<Evidence>, items: seq<Fragment>, from: nat, to: nat)
    requires Covers(sel, items, from, to)
    ensures forall f :: f in items ==> WellCut(sel, f)
  {
    if items != [] {
      var f := items[|items| - 1];
      CoversWellCut(sel, items[..|items| - 1], from, FlatStart(sel, f));
      assert items == items[..|items| - 1] + [f];
    }
  }

  // How much of a member lies before an offset.
  function Before(sel: seq<Evidence>, m: nat, offset: nat): nat
    requires m < |sel|
  {
    if offset <= Base(sel, m) then 0
    else if offset >= Base(sel, m + 1) then |Bytes(sel[m])|
    else offset - Base(sel, m)
  }

  /**
   Fragments that cover the space from the start to an offset hold exactly the
   bytes before it: nothing is left out, repeated or out of order.
   */
  lemma {:induction false} PiecesAreText(sel: seq<Evidence>, items: seq<Fragment>, to: nat, m: nat)
    requires Covers(sel, items, 0, to) && m < |sel|
    ensures forall f :: f in items ==> WellCut(sel, f)
    ensures Before(sel, m, to) <= |Bytes(sel[m])|
    ensures Pieces(sel, items, m) == Bytes(sel[m])[..Before(sel, m, to)]
  {
    hide Startable, Boundary, Encode, FlatEnd, FlatStart, Before;
    CoversWellCut(sel, items, 0, to);
    BeforeBounds(sel, m, to);
    if items == [] {
      BaseGrows(sel, 0, m);
    } else {
      var f := items[|items| - 1];
      PiecesAreText(sel, items[..|items| - 1], FlatStart(sel, f), m);
      PieceStep(sel, f, m);
    }
  }

  lemma BeforeBounds(sel: seq<Evidence>, m: nat, offset: nat)
    requires m < |sel|
    ensures Before(sel, m, offset) <= |Bytes(sel[m])|
    ensures offset == 0 ==> Before(sel, m, offset) == 0
  {
  }

  lemma PieceStep(sel: seq<Evidence>, f: Fragment, m: nat)
    requires WellCut(sel, f) && m < |sel|
    ensures Before(sel, m, FlatStart(sel, f)) <= |Bytes(sel[m])| && Before(sel, m, FlatEnd(sel, f)) <= |Bytes(sel[m])|
    ensures f.start <= f.stop <= |Bytes(sel[f.member])|
    ensures Bytes(sel[m])[..Before(sel, m, FlatStart(sel, f))]
        + (if f.member == m then Bytes(sel[m])[f.start..f.stop] else [])
            == Bytes(sel[m])[..Before(sel, m, FlatEnd(sel, f))]
  {
    hide Startable, Boundary, Encode;
    FragmentForward(sel, f);
    var bytes := Bytes(sel[m]);
    if f.member < m {
      BaseGrows(sel, f.member + 1, m);
    } else if f.member > m {
      BaseGrows(sel, m + 1, f.member);
    } else {
      assert bytes[..f.start] + bytes[f.start..f.stop] == bytes[..f.stop];
    }
  }

  // A member ends only with a fragment that says so, even when its text is empty.
  lemma {:induction false} EveryMemberServed(sel: seq<Evidence>, items: seq<Fragment>, to: nat, m: nat)
    returns (f: Fragment)
    requires Covers(sel, items, 0, to) && m < |sel| && Base(sel, m + 1) <= to
    ensures f in items && f.member == m && f.stop == |Bytes(sel[m])|
  {
    hide Startable, Boundary, Encode;
    f := Fragment(m, 0, 0, false);
    BaseGrows(sel, 0, m + 1);
    if items != [] {
      f := items[|items| - 1];
      FragmentForward(sel, f);
      if f.member != m || f.stop != |Bytes(sel[m])| {
        if f.member < m {
          BaseGrows(sel, f.member + 1, m);
        } else if f.member > m {
          BaseGrows(sel, m + 1, f.member);
        }
        f := EveryMemberServed(sel, items[..|items| - 1], FlatStart(sel, f), m);
      }
    }
  }

  // ----- one page

  // Members that a cursor leaves unfinished.
  function Unfinished(sel: seq<Evidence>, cursor: nat, n: nat): nat
    requires n <= |sel|
  {
    if n == 0 then 0 else Unfinished(sel, cursor, n - 1) + if Base(sel, n) > cursor then 1 else 0
  }

  lemma {:induction false} UnfinishedFrom(sel: seq<Evidence>, cursor: nat, n: nat, done: nat)
    requires n <= |sel| && done <= |sel| && Base(sel, done) <= cursor && (done < |sel| ==> cursor < Base(sel, done + 1))
    ensures Unfinished(sel, cursor, n) == if n <= done then 0 else n - done
  {
    if n > 0 {
      UnfinishedFrom(sel, cursor, n - 1, done);
      if n <= done {
        BaseGrows(sel, n, done);
      } else {
        BaseGrows(sel, done + 1, n);
      }
    }
  }

  predicate RequiredFrom(sel: seq<Evidence>, i: nat) {
    exists j :: i <= j < |sel| && sel[j].required
  }

  // The page that adds one member's text, from `start` to `stop`, to those before it.
  function Make(r: Reading, acc: seq<Fragment>, i: nat, start: nat, stop: nat): Page
    requires i < |r.selected|
  {
    var whole := stop == |Bytes(r.selected[i])|;
    var next := if whole then Base(r.selected, i + 1) else Base(r.selected, i) + stop;
    var more := next < Total(r.selected);
    var done := if whole then i + 1 else i;
    Page(acc + [Fragment(i, start, stop, !r.brief || start != 0 || !whole)],
         if more then Some(next) else None,
         more,
         more || r.envelope.incomplete,
         if more && r.brief then Some(if RequiredFrom(r.selected, done) then "required_items_omitted"
                                      else "results_omitted")
         else if more then Some("evidence_page") else r.envelope.reason,
         if r.brief then |r.selected| - done else r.envelope.omitted)
  }

  // All that is left, without cursors.
  function Rest(r: Reading, offset: nat, i: nat): seq<Fragment>
    requires i <= |r.selected|
  {
    if i == 0 then []
    else if offset >= Base(r.selected, i) then []
    else
      var start := if offset > Base(r.selected, i - 1) then offset - Base(r.selected, i - 1) else 0;
      Rest(r, offset, i - 1) + [Fragment(i - 1, start, |Bytes(r.selected[i - 1])|, !r.brief || start != 0)]
  }

  function Complete(r: Reading, offset: nat): Page {
    r.envelope.(items := Rest(r, offset, |r.selected|), truncated := false)
  }

  function End(r: Reading, p: Page): nat {
    if p.next.Some? then p.next.value else Total(r.selected)
  }

  predicate MemberLeft(sel: seq<Evidence>, cursor: nat, j: nat)
    requires j < |sel|
  {
    Base(sel, j + 1) > cursor
  }

  predicate RequiredLeft(sel: seq<Evidence>, cursor: nat) {
    exists j | 0 <= j < |sel| :: MemberLeft(sel, cursor, j) && sel[j].required
  }

  // What a reply may be: fragments from the offset on, a cursor just after them,
  // and true statements about what is left.
  predicate Serves(r: Reading, offset: nat, p: Page) {
    && Fits(r, p)
    && Covers(r.selected, p.items, offset, End(r, p)) && Ranged(r, p.items)
    && offset < End(r, p) <= Total(r.selected)
    && (p.next.Some? ==> End(r, p) < Total(r.selected))
    && Reports(r, p)
  }

  // A fragment states its range unless a brief shows the whole text.
  predicate Ranged(r: Reading, items: seq<Fragment>) {
    forall f :: f in items ==>
      f.member < |r.selected| && (f.ranged <==> !r.brief || f.start != 0 || f.stop != |Bytes(r.selected[f.member])|)
  }

  predicate Reports(r: Reading, p: Page) {
    && (p.truncated <==> p.next.Some?)
    && (p.incomplete <==> p.next.Some? || r.envelope.incomplete)
    && p.omitted == (if r.brief then Unfinished(r.selected, End(r, p), |r.selected|) else r.envelope.omitted)
    && (p.next.Some? && !r.brief ==> p.reason == Some("evidence_page"))
    && (p.next.None? ==> p.reason == r.envelope.reason)
    && (p.next.Some? && r.brief ==>
          p.reason == Some(if RequiredLeft(r.selected, p.next.value) then "required_items_omitted"
                           else "results_omitted"))
  }

  // A fresh reply, before any evidence is in it.
  predicate Fresh(r: Reading) {
    r.envelope.items == [] && r.envelope.next == None && (r.brief ==> r.envelope.omitted == 0)
  }

  lemma RequiredLeftFrom(sel: seq<Evidence>, cursor: nat, done: nat)
    requires done <= |sel| && Base(sel, done) <= cursor && (done < |sel| ==> cursor < Base(sel, done + 1))
    ensures RequiredLeft(sel, cursor) <==> RequiredFrom(sel, done)
  {
    hide Base;
    forall j | 0 <= j < |sel| ensures MemberLeft(sel, cursor, j) <==> done <= j {
      if done <= j {
        BaseGrows(sel, done + 1, j + 1);
      } else {
        BaseGrows(sel, j + 1, done);
      }
    }
  }

  lemma MakeReports(r: Reading, acc: seq<Fragment>, i: nat, start: nat, stop: nat)
    requires i < |r.selected| && stop <= |Bytes(r.selected[i])|
    ensures Reports(r, Make(r, acc, i, start, stop))
    ensures End(r, Make(r, acc, i, start, stop)) == FlatEnd(r.selected, Fragment(i, start, stop, true))
    ensures FlatEnd(r.selected, Fragment(i, start, stop, true)) <= Total(r.selected)
  {
    hide Unfinished, RequiredLeft, RequiredFrom, Bytes, Encode;
    var sel := r.selected;
    var p := Make(r, acc, i, start, stop);
    var whole := stop == |Bytes(sel[i])|;
    var done := if whole then i + 1 else i;
    var cursor := if whole then Base(sel, i + 1) else Base(sel, i) + stop;
    BaseGrows(sel, i + 1, |sel|);
    BaseNext(sel, i);
    if done < |sel| { BaseNext(sel, done); }
    UnfinishedFrom(sel, cursor, |sel|, done);
    RequiredLeftFrom(sel, cursor, done);
    hide Base;
  }

  lemma MakeServes(r: Reading, acc: seq<Fragment>, offset: nat, i: nat, start: nat, stop: nat)
    requires i < |r.selected| && WellCut(r.selected, Fragment(i, start, stop, true))
    requires Covers(r.selected, acc, offset, Base(r.selected, i) + start) && Ranged(r, acc)
    requires Fits(r, Make(r, acc, i, start, stop))
    ensures Serves(r, offset, Make(r, acc, i, start, stop))
  {
    hide Reports, Covers, Fits, Startable, Boundary, Bytes, Ranged;
    var p := Make(r, acc, i, start, stop);
    var f := p.items[|acc|];
    assert f == Fragment(i, start, stop, f.ranged);
    WellCutRanged(r.selected, f);
    RangedSnoc(r, acc, i, start, stop);
    MakeReports(r, acc, i, start, stop);
    CoversSnoc(r.selected, acc, offset, f);
    FragmentForward(r.selected, f);
    CoversForward(r.selected, acc, offset, Base(r.selected, i) + start);
  }

  lemma RangedSnoc(r: Reading, acc: seq<Fragment>, i: nat, start: nat, stop: nat)
    requires i < |r.selected| && Ranged(r, acc)
    ensures Ranged(r, Make(r, acc, i, start, stop).items)
  {
    hide Base, RequiredFrom, Encode;
  }

  lemma WellCutRanged(sel: seq<Evidence>, f: Fragment)
    requires WellCut(sel, f.(ranged := true))
    ensures WellCut(sel, f)
  {
  }

  // Stopping at this boundary fits.
  predicate FitsTo(r: Reading, acc: seq<Fragment>, i: nat, start: nat, stop: nat)
    requires i < |r.selected|
  {
    Boundary(Bytes(r.selected[i]), stop) && Fits(r, Make(r, acc, i, start, stop))
  }

  // How far the search looks.
  function Reach(r: Reading, i: nat, start: nat): nat
    requires i < |r.selected|
  {
    var length := |Bytes(r.selected[i])|;
    if start + r.limit * 8 < length then start + r.limit * 8 else length
  }

  // Where a longer fragment fits, so does a shorter one.
  predicate Monotone(r: Reading, acc: seq<Fragment>, i: nat, start: nat)
    requires i < |r.selected|
  {
    forall a: nat, b: nat ::
      start < a <= b <= Reach(r, i, start) && Boundary(Bytes(r.selected[i]), a) && FitsTo(r, acc, i, start, b) ==>
        FitsTo(r, acc, i, start, a)
  }

  /**
   The search for a longer fragment than the shortest one that fits. The cost may
   rise and fall as it likes: what comes back fits, and ends at a boundary. If
   shorter fragments fit wherever longer ones do, it is the longest that fits.
   */
  method Search(r: Reading, acc: seq<Fragment>, i: nat, start: nat, first: nat)
    returns (res: Result<Page, Failure>, ghost stop: nat)
    requires i < |r.selected| && Boundary(Bytes(r.selected[i]), start) && Boundary(Bytes(r.selected[i]), first)
    requires start < first <= |Bytes(r.selected[i])| && Fits(r, Make(r, acc, i, start, first))
    ensures res.Ok? ==>
      && first <= stop <= |Bytes(r.selected[i])| && Boundary(Bytes(r.selected[i]), stop)
      && res.value == Make(r, acc, i, start, stop) && Fits(r, res.value)
    ensures res.Ok? && Monotone(r, acc, i, start) ==>
      forall k: nat :: stop < k <= Reach(r, i, start) ==> !FitsTo(r, acc, i, start, k)
    ensures res.Err? ==> res.error == Unsettled
    ensures res.Err? ==> first <= stop <= |Bytes(r.selected[i])| && Boundary(Bytes(r.selected[i]), stop)
    ensures res.Err? ==> r.cost(Make(r, acc, i, start, stop)) == None
  {
    hide Make, Boundary;
    var bytes := Bytes(r.selected[i]);
    var lo: nat := first;
    var top := Utf8End(bytes, Reach(r, i, start));
    var hi: int := top;
    var best := Make(r, acc, i, start, first);
    stop := first;
    while lo <= hi
      invariant first <= lo <= |bytes| + 1 && hi <= |bytes| && (lo <= |bytes| ==> Boundary(bytes, lo))
      invariant first <= stop <= |bytes| && Boundary(bytes, stop)
      invariant best == Make(r, acc, i, start, stop) && Fits(r, best)
      invariant stop <= lo && forall k: nat :: stop < k < lo ==> !Boundary(bytes, k)
      invariant Monotone(r, acc, i, start) ==>
        forall k: nat :: hi < k <= Reach(r, i, start) ==> !FitsTo(r, acc, i, start, k)
      decreases hi - lo
    {
      var mid := Utf8End(bytes, lo + (hi - lo) / 2);
      var out := Make(r, acc, i, start, mid);
      var used := r.cost(out);
      if used.None? {
        return Err(Unsettled), mid;
      }
      if used.value <= r.limit {
        best, stop := out, mid;
        lo := NextBoundary(bytes, mid + 1);
      } else {
        if mid == first {
          break;
        }
        hi := mid - 1;
      }
    }
    return Ok(best), stop;
  }

  method NextBoundary(bytes: seq<byte>, at: nat) returns (next: nat)
    requires at <= |bytes| + 1
    ensures at <= next <= |bytes| + 1 && (next <= |bytes| ==> Boundary(bytes, next))
    ensures forall k: nat :: at <= k < next && k <= |bytes| ==> !Boundary(bytes, k)
  {
    next := at;
    while next < |bytes| && !Boundary(bytes, next)
      invariant at <= next <= |bytes| + 1
      invariant forall k: nat :: at <= k < next ==> !Boundary(bytes, k)
    {
      next := next + 1;
    }
  }

  // ----- skipping the complete page

  // What a page may take, in bytes at the very least.
  predicate MayFit(r: Reading, minimum: nat) {
    minimum <= Saturated(r.limit * r.unit)
  }

  // The complete page is not ruled out by its size.
  predicate Tried(r: Reading, offset: nat) {
    MayFit(r, Saturated(BodyBytes(r.selected, offset, |r.selected|)))
  }

  // What is left of a member from an offset on.
  function Remaining(sel: seq<Evidence>, offset: nat, i: nat): seq<byte>
    requires i < |sel| && offset < Base(sel, i + 1)
  {
    if offset <= Base(sel, i) then Bytes(sel[i])
    else if offset - Base(sel, i) <= |Bytes(sel[i])| then Bytes(sel[i])[offset - Base(sel, i)..]
    else []
  }

  // The distinct bodies among the first members that the offset leaves something of.
  function Bodies(sel: seq<Evidence>, offset: nat, n: nat): set<(string, seq<byte>)>
    requires n <= |sel|
  {
    if n == 0 || offset >= Base(sel, n) then {}
    else Bodies(sel, offset, n - 1) + {(sel[n - 1].id, Remaining(sel, offset, n - 1))}
  }

  // Their bytes.
  function BodyBytes(sel: seq<Evidence>, offset: nat, n: nat): nat
    requires n <= |sel|
  {
    if n == 0 || offset >= Base(sel, n) then 0
    else
      BodyBytes(sel, offset, n - 1)
      + if (sel[n - 1].id, Remaining(sel, offset, n - 1)) in Bodies(sel, offset, n - 1) then 0
        else |Encode(sel[n - 1].id)| + |Remaining(sel, offset, n - 1)|
  }

  lemma {:induction false} BodyBytesGrow(sel: seq<Evidence>, offset: nat, n: nat, m: nat)
    requires n <= m <= |sel|
    ensures BodyBytes(sel, offset, n) <= BodyBytes(sel, offset, m)
  {
    if n < m {
      BodyBytesGrow(sel, offset, n, m - 1);
      BaseGrows(sel, m - 1, m);
    }
  }

  /** Checks the cursor, and whether the complete page can be ruled out by its size alone. */
  method MayBeComplete(r: Reading, offset: nat) returns (res: Result<bool, Failure>)
    requires offset < Total(r.selected)
    ensures res.Err? <==> !ValidOffset(r.selected, offset)
    ensures res.Err? ==> res.error == Stale
    ensures res.Ok? ==> (res.value <==> Tried(r, offset))
  {
    hide Encode, Boundary;
    var sel := r.selected;
    var seen: set<(string, seq<byte>)> := {};
    var minimum, base, i: nat := 0, 0, 0;
    while i < |sel|
      invariant i <= |sel| && base == Base(sel, i)
      invariant seen == Bodies(sel, offset, i) && minimum == Saturated(BodyBytes(sel, offset, i))
      invariant offset < base ==> ValidOffset(sel, offset)
    {
      var e := sel[i];
      var end := base + |Bytes(e)| + 1;
      if offset < end {
        var start := if offset > base then offset - base else 0;
        if !Boundary(Bytes(e), start) || (e.text != "" && start == |Bytes(e)|) {
          NotStartable(sel, offset, i);
          return Err(Stale);
        }
        ValidSoFar(sel, offset, i);
        var body := (e.id, Bytes(e)[start..]);
        assert Remaining(sel, offset, i) == Bytes(e)[start..];
        if body !in seen {
          seen := seen + {body};
          minimum := Saturated(Saturated(minimum + |Encode(e.id)|) + (|Bytes(e)| - start));
        }
        assert seen == Bodies(sel, offset, i + 1);
        assert minimum == Saturated(BodyBytes(sel, offset, i + 1));
        if !MayFit(r, minimum) {
          BodyBytesGrow(sel, offset, i + 1, |sel|);
          return Ok(false);
        }
      }
      base := end;
      i := i + 1;
    }
    return Ok(MayFit(r, minimum));
  }

  lemma NotStartable(sel: seq<Evidence>, offset: nat, i: nat)
    requires i < |sel| && offset < Base(sel, i + 1)
    requires (offset < Base(sel, i) ==> ValidOffset(sel, offset))
    requires var start := if offset > Base(sel, i) then offset - Base(sel, i) else 0;
      !Boundary(Bytes(sel[i]), start) || (sel[i].text != "" && start == |Bytes(sel[i])|)
    ensures !ValidOffset(sel, offset)
  {
    if sel[i].text != "" {
      assert |Encode(sel[i].text)| >= |EncodeChar(sel[i].text[0])|;
    }
    if ValidOffset(sel, offset) {
      var j :| 0 <= j < |sel| && PlaceOf(sel, offset, j);
      if Base(sel, i) <= offset {
        OnePlace(sel, offset, i, j);
      }
    }
  }

  lemma ValidSoFar(sel: seq<Evidence>, offset: nat, i: nat)
    requires i < |sel| && offset < Base(sel, i + 1)
    requires (offset < Base(sel, i) ==> ValidOffset(sel, offset))
    requires var start := if offset > Base(sel, i) then offset - Base(sel, i) else 0;
      Boundary(Bytes(sel[i]), start) && !(sel[i].text != "" && start == |Bytes(sel[i])|)
    ensures ValidOffset(sel, offset)
    ensures offset > Base(sel, i) ==> offset - Base(sel, i) <= |Bytes(sel[i])|
  {
    if offset >= Base(sel, i) {
      assert PlaceOf(sel, offset, i);
    }
  }

  // ----- the page

  method Whole(r: Reading, offset: nat) returns (p: Page)
    ensures p == Complete(r, offset)
  {
    var items: seq<Fragment>, base := [], 0;
    for i := 0 to |r.selected|
      invariant base == Base(r.selected, i) && items == Rest(r, offset, i)
    {
      var end := base + |Bytes(r.selected[i])| + 1;
      if offset < end {
        var start := if offset > base then offset - base else 0;
        items := items + [Fragment(i, start, |Bytes(r.selected[i])|, !r.brief || start != 0)];
      }
      base := end;
    }
    return r.envelope.(items := items, truncated := false);
  }

  lemma StartOfPlace(sel: seq<Evidence>, offset: nat, i: nat)
    requires ValidOffset(sel, offset) && i < |sel| && offset < Base(sel, i + 1)
    ensures offset <= Base(sel, i) ==> Startable(sel[i], 0)
    ensures offset > Base(sel, i) ==> Startable(sel[i], offset - Base(sel, i)) && PlaceOf(sel, offset, i)
    ensures offset == Base(sel, i) ==> PlaceOf(sel, offset, i)
  {
    hide Boundary, Encode;
    TextHasBytes(sel[i]);
    if offset >= Base(sel, i) {
      var j :| 0 <= j < |sel| && PlaceOf(sel, offset, j);
      OnePlace(sel, offset, i, j);
    }
  }

  lemma TextHasBytes(e: Evidence)
    ensures e.text != "" <==> Bytes(e) != []
    ensures Boundary(Bytes(e), 0) && Boundary(Bytes(e), |Bytes(e)|)
  {
  }

  lemma {:induction false} RestCovers(r: Reading, offset: nat, n: nat)
    requires ValidOffset(r.selected, offset) && n <= |r.selected|
    ensures offset < Base(r.selected, n) ==> Covers(r.selected, Rest(r, offset, n), offset, Base(r.selected, n))
    ensures offset >= Base(r.selected, n) ==> Rest(r, offset, n) == []
    ensures Ranged(r, Rest(r, offset, n))
  {
    hide Boundary, Encode, Bytes, ValidOffset, PlaceOf, Covers;
    BaseZero(r.selected);
    CoversNothing(r.selected, offset);
    if n > 0 && offset < Base(r.selected, n) {
      BaseGrows(r.selected, n - 1, n);
      RestCovers(r, offset, n - 1);
      StartOfPlace(r.selected, offset, n - 1);
      RestNext(r, offset, n - 1);
    }
  }

  lemma CoversNothing(sel: seq<Evidence>, offset: nat)
    ensures Covers(sel, [], offset, offset)
  {
  }

  lemma RestNext(r: Reading, offset: nat, i: nat)
    requires i < |r.selected| && offset < Base(r.selected, i + 1)
    requires offset <= Base(r.selected, i) ==> Startable(r.selected[i], 0)
    requires offset > Base(r.selected, i) ==> Startable(r.selected[i], offset - Base(r.selected, i))
    requires
      if offset < Base(r.selected, i) then Covers(r.selected, Rest(r, offset, i), offset, Base(r.selected, i))
      else Rest(r, offset, i) == []
    requires Ranged(r, Rest(r, offset, i))
    ensures Covers(r.selected, Rest(r, offset, i + 1), offset, Base(r.selected, i + 1))
      && Ranged(r, Rest(r, offset, i + 1))
  {
    hide Boundary, Encode, Base, Covers;
    TextHasBytes(r.selected[i]);
    CoversNothing(r.selected, offset);
    var start := if offset > Base(r.selected, i) then offset - Base(r.selected, i) else 0;
    var f := Fragment(i, start, |Bytes(r.selected[i])|, !r.brief || start != 0);
    assert Rest(r, offset, i + 1) == Rest(r, offset, i) + [f];
    CoversSnoc(r.selected, Rest(r, offset, i), offset, f);
  }

  lemma CompleteServes(r: Reading, offset: nat)
    requires Fresh(r) && ValidOffset(r.selected, offset) && offset < Total(r.selected) && Fits(r, Complete(r, offset))
    ensures Serves(r, offset, Complete(r, offset))
  {
    hide Rest, Covers, Fits, ValidOffset, Base;
    RestCovers(r, offset, |r.selected|);
    UnfinishedFrom(r.selected, Total(r.selected), |r.selected|, |r.selected|);
  }

  // The shortest fragment that is a step forward: one character, or an empty text.
  function FirstStop(e: Evidence, start: nat): nat {
    if start < |Bytes(e)| then CharEnd(Bytes(e), start) else start
  }

  lemma FirstStopIsNext(e: Evidence, start: nat)
    requires Startable(e, start)
    ensures start <= FirstStop(e, start) <= |Bytes(e)| && Boundary(Bytes(e), FirstStop(e, start))
    ensures start < |Bytes(e)| ==> start < FirstStop(e, start)
    ensures start == |Bytes(e)| <==> e.text == ""
  {
    TextHasBytes(e);
    if start < |Bytes(e)| {
      CharEndIsNext(e.text, start);
    }
  }

  // Neither all of the first member nor one character of it fits.
  predicate Stuck(r: Reading, offset: nat, needed: nat) {
    exists i | 0 <= i < |r.selected| ::
      PlaceOf(r.selected, offset, i) && StuckAt(r, i, offset - Base(r.selected, i), needed)
  }

  predicate StuckAt(r: Reading, i: nat, start: nat, needed: nat)
    requires i < |r.selected|
  {
    && !Fits(r, Make(r, [], i, start, |Bytes(r.selected[i])|))
    && r.cost(Make(r, [], i, start, FirstStop(r.selected[i], start))) == Some(needed)
    && needed > r.limit
  }

  // Where a member is taken up from an offset.
  function StartAt(sel: seq<Evidence>, offset: nat, i: nat): nat
    requires i < |sel|
  {
    if offset > Base(sel, i) then offset - Base(sel, i) else 0
  }

  // The page with all that is left of the members before one, and of that one up to a boundary.
  predicate NoCountAt(r: Reading, offset: nat, i: nat, stop: nat)
    requires i < |r.selected|
  {
    && offset < Base(r.selected, i + 1) && StartAt(r.selected, offset, i) <= stop <= |Bytes(r.selected[i])|
    && Boundary(Bytes(r.selected[i]), stop)
    && r.cost(Make(r, Rest(r, offset, i), i, StartAt(r.selected, offset, i), stop)) == None
  }

  // Some page that is costed from this offset has no count.
  ghost predicate CostFails(r: Reading, offset: nat) {
    || (Tried(r, offset) && r.cost(Complete(r, offset)) == None)
    || exists i: nat, stop: nat :: i < |r.selected| && NoCountAt(r, offset, i, stop)
  }

  // The page so far, on reaching a member.
  predicate Reached(r: Reading, offset: nat, acc: Page, i: nat)
    requires i <= |r.selected|
  {
    && acc.items == Rest(r, offset, i)
    && if offset >= Base(r.selected, i) then acc == r.envelope
    else
      && acc.items != [] && Serves(r, offset, acc)
      && Covers(r.selected, acc.items, offset, Base(r.selected, i)) && Ranged(r, acc.items)
  }

  // A page that ends before a member had no room for a single character of it.
  predicate NoRoomFor(r: Reading, offset: nat, i: nat, p: Page)
    requires i < |r.selected|
  {
    && offset < Base(r.selected, i) && p.items == Rest(r, offset, i)
    && !Fits(r, Make(r, p.items, i, 0, FirstStop(r.selected[i], 0)))
  }

  // A page that ends inside a member had no room for the rest of it, nor, where shorter
  // fragments fit wherever longer ones do, for a single character more.
  ghost predicate NoRoomInside(r: Reading, offset: nat, i: nat, stop: nat, p: Page)
    requires i < |r.selected|
  {
    var before, start := Rest(r, offset, i), StartAt(r.selected, offset, i);
    && start < stop < |Bytes(r.selected[i])| && p == Make(r, before, i, start, stop)
    && !Fits(r, Make(r, before, i, start, |Bytes(r.selected[i])|))
    && (Monotone(r, before, i, start) ==>
          forall k: nat :: stop < k <= Reach(r, i, start) ==> !FitsTo(r, before, i, start, k))
  }

  /** A page stops only where there is no room for more. */
  ghost predicate Full(r: Reading, offset: nat, p: Page) {
    p.next.Some? ==>
      exists i | 0 <= i < |r.selected| ::
        || (p.next.value == Base(r.selected, i) && NoRoomFor(r, offset, i, p))
        || exists stop: nat :: p.next.value == Base(r.selected, i) + stop && NoRoomInside(r, offset, i, stop, p)
  }

  /**
   One page. A cursor that is no place in the space is stale; otherwise the page
   serves at least one whole character or finishes a member, and as much as there is
   room for, unless the budget is too small for that or the count does not settle.
   */
  method EvidencePage(r: Reading, offset: nat) returns (res: Result<Page, Failure>)
    requires Fresh(r)
    ensures r.selected == [] && offset == 0 ==>
      if Fits(r, r.envelope) then res == Ok(r.envelope)
      else if r.cost(r.envelope) == None then res == Err(Unsettled)
      else res == Err(BelowMinimum(r.cost(r.envelope).value))
    ensures !(r.selected == [] && offset == 0) ==> (res == Err(Stale) <==> !ValidOffset(r.selected, offset))
    ensures !(r.selected == [] && offset == 0) && res.Ok? ==> Serves(r, offset, res.value) && Full(r, offset, res.value)
    ensures !(r.selected == [] && offset == 0) && res.Err? && res.error.BelowMinimum? ==>
      Stuck(r, offset, res.error.needed)
    ensures ValidOffset(r.selected, offset) && Fits(r, Complete(r, offset)) && Tried(r, offset) ==>
      res == Ok(Complete(r, offset))
    ensures !(r.selected == [] && offset == 0) && res == Err(Unsettled) ==> CostFails(r, offset)
  {
    hide Boundary, Encode, ValidOffset, Serves, Fits, Make, Rest, Complete, Stuck, BodyBytes, Full;
    BaseGrows(r.selected, 0, |r.selected|);
    var total := Total(r.selected);
    if offset >= total {
      NoPlaceBeyond(r.selected, offset);
    }
    if total == 0 && offset == 0 {
      res := Finish(r, r.envelope);
      return;
    }
    if offset >= total {
      return Err(Stale);
    }
    var may := MayBeComplete(r, offset);
    if may.Err? {
      return Err(may.error);
    }
    if may.value {
      var complete := Whole(r, offset);
      FitsMeans(r, complete);
      var used := r.cost(complete);
      if used.None? {
        return Err(Unsettled);
      }
      if used.value <= r.limit {
        CompleteServes(r, offset);
        CompleteIsFull(r, offset);
        return Ok(complete);
      }
    }
    res := Partial(r, offset);
  }

  method Finish(r: Reading, p: Page) returns (res: Result<Page, Failure>)
    ensures res.Ok? <==> Fits(r, p)
    ensures res.Ok? ==> res.value == p
    ensures res.Err? ==>
      (res.error == Unsettled && r.cost(p) == None) || (res.error.BelowMinimum? && r.cost(p) == Some(res.error.needed))
  {
    var used := r.cost(p);
    if used.None? {
      return Err(Unsettled);
    }
    return if used.value <= r.limit then Ok(p) else Err(BelowMinimum(used.value));
  }

  lemma FitsMeans(r: Reading, p: Page)
    ensures Fits(r, p) <==> r.cost(p).Some? && r.cost(p).value <= r.limit
  {
  }

  lemma NoPlaceBeyond(sel: seq<Evidence>, offset: nat)
    requires offset >= Total(sel)
    ensures !ValidOffset(sel, offset)
  {
    forall i | 0 <= i < |sel| ensures !PlaceOf(sel, offset, i) {
      BaseGrows(sel, i + 1, |sel|);
    }
  }

  // The page member by member, when not all that is left fits.
  method Partial(r: Reading, offset: nat) returns (res: Result<Page, Failure>)
    requires Fresh(r) && ValidOffset(r.selected, offset) && offset < Total(r.selected)
    ensures res.Ok? ==> Serves(r, offset, res.value) && Full(r, offset, res.value)
    ensures res.Err? && res.error.BelowMinimum? ==> Stuck(r, offset, res.error.needed)
    ensures res.Err? ==> res.error != Stale && (res.error.Unsettled? ==> CostFails(r, offset))
  {
    hide Boundary, Encode, ValidOffset, Serves, Fits, Make, Stuck, Base, Covers, Full;
    var acc := r.envelope;
    var base, i: nat := 0, 0;
    BaseZero(r.selected);
    while i < |r.selected|
      invariant i <= |r.selected| && base == Base(r.selected, i) && Reached(r, offset, acc, i)
    {
      var e := r.selected[i];
      var end := base + |Bytes(e)| + 1;
      BaseNext(r.selected, i);
      if offset < end {
        var start := if offset > base then offset - base else 0;
        var full := Make(r, acc.items, i, start, |Bytes(e)|);
        var used := r.cost(full);
        ReachedCovers(r, offset, acc, i, start);
        if used.None? {
          NoCountMeans(r, offset, i, start, |Bytes(e)|, full);
          return Err(Unsettled);
        }
        FitsMeans(r, full);
        if used.value > r.limit {
          res := Cut(r, offset, acc, i, start);
          return;
        }
        FullReaches(r, offset, acc, i, start);
        acc := full;
      }
      base := end;
      i := i + 1;
    }
    ReachedServes(r, offset, acc);
    ReachedEnd(r, offset, acc, |r.selected|);
    LastIsFull(r, offset, acc);
    res := Finish(r, acc);
  }

  // The last member of a page, served in part or not at all.
  method Cut(r: Reading, offset: nat, acc: Page, i: nat, start: nat) returns (res: Result<Page, Failure>)
    requires Fresh(r) && i < |r.selected| && offset < Base(r.selected, i + 1) && Reached(r, offset, acc, i)
    requires start == (if offset > Base(r.selected, i) then offset - Base(r.selected, i) else 0)
    requires Startable(r.selected[i], start) && Covers(r.selected, acc.items, offset, Base(r.selected, i) + start)
      && Ranged(r, acc.items)
    requires acc.items == [] ==> PlaceOf(r.selected, offset, i)
    requires !Fits(r, Make(r, acc.items, i, start, |Bytes(r.selected[i])|))
    ensures res.Ok? ==> Serves(r, offset, res.value) && Full(r, offset, res.value)
    ensures res.Err? && res.error.BelowMinimum? ==> Stuck(r, offset, res.error.needed)
    ensures res.Err? ==> res.error != Stale && (res.error.Unsettled? ==> CostFails(r, offset))
  {
    hide Boundary, Encode, Serves, Fits, Make, Base, Covers, CharEnd, Full;
    var e := r.selected[i];
    var first := FirstStop(e, start);
    FirstStopIsNext(e, start);
    var minimum := Make(r, acc.items, i, start, first);
    var needed := r.cost(minimum);
    if needed.None? {
      NoCountMeans(r, offset, i, start, first, minimum);
      return Err(Unsettled);
    }
    FitsMeans(r, minimum);
    if needed.value > r.limit {
      if acc.items != [] {
        EndIsFull(r, offset, acc, i);
        return Ok(acc);
      }
      return Err(BelowMinimum(needed.value));
    }
    var best, stop := Search(r, acc.items, i, start, first);
    if best.Ok? {
      MakeServes(r, acc.items, offset, i, start, stop);
      CutIsFull(r, offset, i, start, stop, best.value);
    } else {
      NoCountMeans(r, offset, i, start, stop, Make(r, acc.items, i, start, stop));
    }
    return best;
  }

  lemma LastIsFull(r: Reading, offset: nat, p: Page)
    requires p.next == None
    ensures Full(r, offset, p)
  {
  }

  lemma CompleteIsFull(r: Reading, offset: nat)
    requires Fresh(r)
    ensures Full(r, offset, Complete(r, offset))
  {
  }

  // The members before one are served to their ends.
  lemma ReachedEnd(r: Reading, offset: nat, acc: Page, i: nat)
    requires i <= |r.selected| && Reached(r, offset, acc, i) && acc.items != []
    ensures offset < Base(r.selected, i)
    ensures acc.next == if Base(r.selected, i) < Total(r.selected) then Some(Base(r.selected, i)) else None
  {
    hide Reports, Ranged, Fits, WellCut;
  }

  lemma EndIsFull(r: Reading, offset: nat, acc: Page, i: nat)
    requires i < |r.selected| && Reached(r, offset, acc, i) && acc.items != []
    requires !Fits(r, Make(r, acc.items, i, 0, FirstStop(r.selected[i], 0)))
    ensures Full(r, offset, acc)
  {
    hide Fits, Make, Encode, NoRoomInside, Serves, Rest;
    ReachedEnd(r, offset, acc, i);
    BaseGrows(r.selected, i, |r.selected|);
    assert NoRoomFor(r, offset, i, acc);
  }

  lemma CutIsFull(r: Reading, offset: nat, i: nat, start: nat, stop: nat, p: Page)
    requires i < |r.selected| && start == StartAt(r.selected, offset, i)
    requires start < stop <= |Bytes(r.selected[i])|
    requires p == Make(r, Rest(r, offset, i), i, start, stop) && Fits(r, p)
    requires !Fits(r, Make(r, Rest(r, offset, i), i, start, |Bytes(r.selected[i])|))
    requires Monotone(r, Rest(r, offset, i), i, start) ==>
               forall k: nat :: stop < k <= Reach(r, i, start) ==> !FitsTo(r, Rest(r, offset, i), i, start, k)
    ensures Full(r, offset, p)
  {
    hide Fits, Encode, Monotone, NoRoomFor, Rest, Reach, FitsTo;
    assert NoRoomInside(r, offset, i, stop, p);
  }

  lemma NoCountMeans(r: Reading, offset: nat, i: nat, start: nat, stop: nat, p: Page)
    requires i < |r.selected| && offset < Base(r.selected, i + 1) && start == StartAt(r.selected, offset, i)
    requires start <= stop <= |Bytes(r.selected[i])|
    requires Boundary(Bytes(r.selected[i]), stop) || stop == |Bytes(r.selected[i])|
    requires p == Make(r, Rest(r, offset, i), i, start, stop) && r.cost(p) == None
    ensures CostFails(r, offset)
  {
    hide Encode, Make, Rest, Base;
    assert NoCountAt(r, offset, i, stop);
  }

  lemma BaseZero(sel: seq<Evidence>)
    ensures Base(sel, 0) == 0
  {
  }

  lemma BaseNext(sel: seq<Evidence>, i: nat)
    requires i < |sel|
    ensures Base(sel, i + 1) == Base(sel, i) + |Bytes(sel[i])| + 1
  {
  }

  lemma ReachedCovers(r: Reading, offset: nat, acc: Page, i: nat, start: nat)
    requires Fresh(r) && ValidOffset(r.selected, offset) && i < |r.selected| && offset < Base(r.selected, i + 1)
      && Reached(r, offset, acc, i)
    requires start == if offset > Base(r.selected, i) then offset - Base(r.selected, i) else 0
    ensures Startable(r.selected[i], start) && Covers(r.selected, acc.items, offset, Base(r.selected, i) + start)
      && Ranged(r, acc.items)
    ensures acc.items == [] ==> PlaceOf(r.selected, offset, i)
  {
    hide Boundary, Encode, ValidOffset, Base, PlaceOf, Startable;
    StartOfPlace(r.selected, offset, i);
  }

  lemma RestSnoc(r: Reading, offset: nat, i: nat)
    requires i < |r.selected| && offset < Base(r.selected, i + 1)
    ensures var start, stop := StartAt(r.selected, offset, i), |Bytes(r.selected[i])|;
      Rest(r, offset, i + 1) == Rest(r, offset, i) + [Fragment(i, start, stop, !r.brief || start != 0)]
  {
    hide Encode, Base;
  }

  lemma FullReaches(r: Reading, offset: nat, acc: Page, i: nat, start: nat)
    requires i < |r.selected| && offset < Base(r.selected, i + 1)
    requires Startable(r.selected[i], start) && Covers(r.selected, acc.items, offset, Base(r.selected, i) + start)
      && Ranged(r, acc.items)
    requires Fits(r, Make(r, acc.items, i, start, |Bytes(r.selected[i])|))
    requires start == StartAt(r.selected, offset, i) && acc.items == Rest(r, offset, i)
    ensures Reached(r, offset, Make(r, acc.items, i, start, |Bytes(r.selected[i])|), i + 1)
  {
    hide Encode, Base, Fits, Serves, Boundary, Ranged, Rest, Covers;
    var stop := |Bytes(r.selected[i])|;
    RestSnoc(r, offset, i);
    TextHasBytes(r.selected[i]);
    MakeServes(r, acc.items, offset, i, start, stop);
    var p := Make(r, acc.items, i, start, stop);
    var f := p.items[|acc.items|];
    WellCutRanged(r.selected, f);
    RangedSnoc(r, acc.items, i, start, stop);
    CoversSnoc(r.selected, acc.items, offset, f);
  }

  lemma ReachedServes(r: Reading, offset: nat, acc: Page)
    requires offset < Total(r.selected) && Reached(r, offset, acc, |r.selected|)
    ensures Serves(r, offset, acc) && Fits(r, acc)
  {
    hide Reports, Covers;
  }

  // ----- following the cursors

  /** A cursor that a page hands out is never stale. */
  lemma CursorIsValid(r: Reading, offset: nat, p: Page)
    requires Serves(r, offset, p) && p.next.Some?
    ensures ValidOffset(r.selected, p.next.value) && offset < p.next.value < Total(r.selected)
  {
    hide Reports, Encode, Boundary, CharEnd;
    var sel := r.selected;
    CoversForward(sel, p.items, offset, p.next.value);
    var f := p.items[|p.items| - 1];
    TextHasBytes(sel[f.member]);
    if f.stop == |Bytes(sel[f.member])| {
      BaseGrows(sel, f.member + 1, |sel|);
      TextHasBytes(sel[f.member + 1]);
      assert PlaceOf(sel, p.next.value, f.member + 1);
    } else {
      assert PlaceOf(sel, p.next.value, f.member);
    }
  }

  datatype Turn = Turn(reading: Reading, page: Page)

  // Pages read one after the other, each from the cursor of the last, to the end.
  // Budget and cost may be others on every page.
  predicate Chain(sel: seq<Evidence>, turns: seq<Turn>, from: nat) {
    && turns != []
    && turns[0].reading.selected == sel && Serves(turns[0].reading, from, turns[0].page)
    && (if |turns| == 1 then turns[0].page.next == None
        else turns[0].page.next.Some? && Chain(sel, turns[1..], turns[0].page.next.value))
  }

  function AllItems(turns: seq<Turn>): seq<Fragment> {
    if turns == [] then [] else turns[0].page.items + AllItems(turns[1..])
  }

  lemma {:induction false} ChainCovers(sel: seq<Evidence>, turns: seq<Turn>, from: nat)
    requires Chain(sel, turns, from)
    ensures Covers(sel, AllItems(turns), from, Total(sel))
    ensures from + |turns| <= Total(sel)
  {
    hide Covers, Reports;
    var p := turns[0].page;
    if |turns| == 1 {
      assert AllItems(turns[1..]) == [];
      assert AllItems(turns) == p.items;
    } else {
      ChainCovers(sel, turns[1..], p.next.value);
      CoversConcat(sel, p.items, AllItems(turns[1..]), from, p.next.value, Total(sel));
    }
  }

  // Some fragment carries the end of the member.
  predicate Ended(sel: seq<Evidence>, items: seq<Fragment>, m: nat)
    requires m < |sel|
  {
    exists f :: f in items && f.member == m && f.stop == |Bytes(sel[m])|
  }

  /**
   Reading from the start until no cursor is left gives every text exactly once and
   in order, in pieces that are text themselves, and takes no more pages than there
   are offsets.
   */
  lemma ChainTiles(sel: seq<Evidence>, turns: seq<Turn>)
    requires Chain(sel, turns, 0)
    ensures forall f :: f in AllItems(turns) ==> WellCut(sel, f)
    ensures forall m | 0 <= m < |sel| :: Pieces(sel, AllItems(turns), m) == Bytes(sel[m])
    ensures forall m | 0 <= m < |sel| :: Ended(sel, AllItems(turns), m)
    ensures |turns| <= Total(sel)
  {
    hide Covers, Chain, WellCut, Pieces, Encode;
    var items := AllItems(turns);
    ChainCovers(sel, turns, 0);
    CoversWellCut(sel, items, 0, Total(sel));
    forall m | 0 <= m < |sel|
      ensures Pieces(sel, items, m) == Bytes(sel[m])
      ensures Ended(sel, items, m)
    {
      PiecesAreText(sel, items, Total(sel), m);
      BaseGrows(sel, m + 1, |sel|);
      assert Base(sel, m) < Base(sel, m + 1);
      assert Before(sel, m, Total(sel)) == |Bytes(sel[m])|;
      assert Bytes(sel[m])[..|Bytes(sel[m])|] == Bytes(sel[m]);
      var f := EveryMemberServed(sel, items, Total(sel), m);
    }
  }

  // Each piece is whole characters.
  lemma PieceIsText(sel: seq<Evidence>, f: Fragment) returns (piece: string)
    requires WellCut(sel, f)
    ensures Encode(piece) == Bytes(sel[f.member])[f.start..f.stop]
  {
    piece := SliceIsText(sel[f.member].text, f.start, f.stop);
  }
}
