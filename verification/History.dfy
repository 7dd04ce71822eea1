/**
 Evidence published no later than a retained view, newest first
 (src/store.rs `history_at`, `historical_members`).
 */
module History {
  import opened Wrappers
  import opened LegacyOrder

  datatype Occurrence = Occurrence(item: string, rank: nat, body: string)

  // A row of `views` with its members; views older than the clock have no number.
  datatype View = View(id: string, baseline: Option<string>, number: Option<nat>, members: seq<Occurrence>)

  // One retained generation, in insertion order.
  datatype Database = Database(name: string, views: seq<View>)

  datatype Hist = Hist(occurrence: Occurrence, view: string, row: nat, number: Option<nat>, generation: string)

  datatype Bound = Bound(view: string, row: nat, number: Option<nat>, generation: string)

  datatype HistoryError = StaleContinuation | HistoryOrderUnavailable

  // ----- what a store keeps about its rows

  ghost predicate SameRow(dbs: seq<Database>, d: int, i: int, e: int, j: int)
    requires 0 <= d < |dbs| && 0 <= e < |dbs| && 0 <= i < |dbs[d].views| && 0 <= j < |dbs[e].views|
  {
    d == e && i == j
  }

  ghost predicate RowsDiffer(dbs: seq<Database>, d: int, i: int, e: int, j: int)
    requires 0 <= d < |dbs| && 0 <= e < |dbs| && 0 <= i < |dbs[d].views| && 0 <= j < |dbs[e].views|
  {
    var a, b := dbs[d].views[i], dbs[e].views[j];
    a.id != b.id && (a.number.Some? ==> a.number != b.number)
  }

  ghost predicate Sound(dbs: seq<Database>) {
    && (forall d, e :: 0 <= d < e < |dbs| ==> dbs[d].name != dbs[e].name)
    && (forall d, i, e, j ::
          0 <= d < |dbs| && 0 <= e < |dbs| && 0 <= i < |dbs[d].views| && 0 <= j < |dbs[e].views| ==>
            SameRow(dbs, d, i, e, j) || RowsDiffer(dbs, d, i, e, j))
    && (forall d, i :: 0 <= d < |dbs| && 0 <= i < |dbs[d].views| ==> RanksDiffer(dbs[d].views[i].members))
  }

  ghost predicate RanksDiffer(members: seq<Occurrence>) {
    forall a, b :: a in members && b in members && a.rank == b.rank ==> a == b
  }

  // ----- the question

  ghost predicate ListedIn(db: Database, id: string, h: Hist) {
    && h.generation == db.name
    && h.row < |db.views|
    && var v := db.views[h.row];
    && h.view == v.id && h.number == v.number && h.occurrence in v.members && h.occurrence.item == id
  }

  ghost predicate Listed(dbs: seq<Database>, id: string, h: Hist) {
    exists db :: db in dbs && ListedIn(db, id, h)
  }

  ghost predicate BoundIn(db: Database, b: Bound) {
    && b.generation == db.name
    && b.row < |db.views|
    && db.views[b.row].id == b.view && db.views[b.row].number == b.number
  }

  ghost predicate IsBound(dbs: seq<Database>, b: Bound) {
    exists db :: db in dbs && BoundIn(db, b)
  }

  function RowsOf(db: Database): seq<ViewRow> {
    seq(|db.views|, i requires 0 <= i < |db.views| => ViewRow(db.views[i].id, db.views[i].baseline))
  }

  function AllRows(dbs: seq<Database>): seq<seq<ViewRow>> {
    seq(|dbs|, d requires 0 <= d < |dbs| => RowsOf(dbs[d]))
  }

  ghost function Chain(dbs: seq<Database>): Links {
    LinksOf(AllRows(dbs))
  }

  ghost predicate LegacyGeneration(dbs: seq<Database>, id: string, b: Bound, g: string) {
    || (b.number.None? && g == b.generation)
    || exists h :: Listed(dbs, id, h) && h.number.None? && h.generation == g
  }

  // Legacy views of more than one generation are involved, so row order does not settle their order.
  ghost predicate Mixed(dbs: seq<Database>, id: string, b: Bound) {
    exists g, g' :: g != g' && LegacyGeneration(dbs, id, b, g) && LegacyGeneration(dbs, id, b, g')
  }

  ghost predicate Requested(dbs: seq<Database>, id: string, b: Bound, v: string) {
    || (b.number.None? && v == b.view)
    || exists h :: Listed(dbs, id, h) && h.number.None? && h.view == v
  }

  // Publication order as far as it is established between legacy views.
  ghost predicate Earlier(dbs: seq<Database>, id: string, b: Bound, x: string, y: string) {
    Mixed(dbs, id, b) && Before(Chain(dbs), x, y)
  }

  datatype Verdict = In | Out | Unknown

  ghost function Eligible(dbs: seq<Database>, id: string, b: Bound, h: Hist): Verdict {
    if h.number.Some? then
      if b.number.Some? && h.number.value <= b.number.value then In else Out
    else if b.number.Some? then In
    else if h.generation == b.generation then if h.row <= b.row then In else Out
    else if Earlier(dbs, id, b, h.view, b.view) then In
    else if Earlier(dbs, id, b, b.view, h.view) then Out
    else Unknown
  }

  ghost predicate Included(dbs: seq<Database>, id: string, b: Bound, h: Hist) {
    Listed(dbs, id, h) && Eligible(dbs, id, b, h).In?
  }

  ghost predicate Unrelated(dbs: seq<Database>, id: string, b: Bound, x: Hist, y: Hist) {
    && x.number.None? && y.number.None? && x.generation != y.generation
    && !Earlier(dbs, id, b, x.view, y.view) && !Earlier(dbs, id, b, y.view, x.view)
  }

  /** The order that the answer needs is not established by anything retained. */
  ghost predicate OrderMissing(dbs: seq<Database>, id: string, b: Bound) {
    || (Mixed(dbs, id, b) && exists v :: Requested(dbs, id, b, v) && ReachesCycle(Chain(dbs), v))
    || (exists h :: Listed(dbs, id, h) && Eligible(dbs, id, b, h).Unknown?)
    || (exists x, y :: Included(dbs, id, b, x) && Included(dbs, id, b, y) && Unrelated(dbs, id, b, x, y))
  }

  ghost function Depth(dbs: seq<Database>, id: string, b: Bound, h: Hist): nat {
    if Mixed(dbs, id, b) && h.number.None? then |Ancestry(Chain(dbs), h.view)| else 0
  }

  // The order of the answer, given how far back each legacy view reaches.
  predicate NewerBy(a: Hist, depthA: nat, b: Hist, depthB: nat) {
    if a.number != b.number then a.number.Some? && (b.number.None? || b.number.value < a.number.value)
    else if depthA != depthB then depthB < depthA
    else if a.row != b.row then b.row < a.row
    else a.occurrence.rank < b.occurrence.rank
  }

  ghost predicate Newer(dbs: seq<Database>, id: string, b: Bound, x: Hist, y: Hist) {
    NewerBy(x, Depth(dbs, id, b, x), y, Depth(dbs, id, b, y))
  }

  ghost predicate NewestFirst(dbs: seq<Database>, id: string, b: Bound, r: seq<Hist>) {
    forall i, j :: 0 <= i < j < |r| ==> Newer(dbs, id, b, r[i], r[j])
  }

  /** The answer: everything included, once, later publications first. */
  ghost predicate IsHistory(dbs: seq<Database>, id: string, b: Bound, r: seq<Hist>) {
    (forall h :: h in r <==> Included(dbs, id, b, h)) && NewestFirst(dbs, id, b, r)
  }

  // ----- the order of the answer is total and agrees with publication

  lemma ListedRow(dbs: seq<Database>, id: string, h: Hist) returns (d: nat)
    requires Listed(dbs, id, h)
    ensures d < |dbs| && ListedIn(dbs[d], id, h)
  {
    var db :| db in dbs && ListedIn(db, id, h);
    d :| 0 <= d < |dbs| && dbs[d] == db;
  }

  /** Any two members of the answer are ordered. */
  lemma IncludedComparable(dbs: seq<Database>, id: string, b: Bound, x: Hist, y: Hist)
    requires Sound(dbs) && !OrderMissing(dbs, id, b)
    requires Included(dbs, id, b, x) && Included(dbs, id, b, y) && x != y
    ensures Newer(dbs, id, b, x, y) || Newer(dbs, id, b, y, x)
  {
    var d := ListedRow(dbs, id, x);
    var e := ListedRow(dbs, id, y);
    if d == e && x.row == y.row {
      assert RanksDiffer(dbs[d].views[x.row].members);
    } else {
      assert !SameRow(dbs, d, x.row, e, y.row);
      assert RowsDiffer(dbs, d, x.row, e, y.row);
      if x.number.None? && y.number.None? && d != e {
        assert !Unrelated(dbs, id, b, x, y);
        if Earlier(dbs, id, b, x.view, y.view) {
          LegacyDepth(dbs, id, b, x, y);
        } else {
          LegacyDepth(dbs, id, b, y, x);
        }
      }
    }
  }

  /** A legacy view published before another lies strictly less deep, so it is listed after it. */
  lemma LegacyDepth(dbs: seq<Database>, id: string, b: Bound, x: Hist, y: Hist)
    requires !OrderMissing(dbs, id, b)
    requires Included(dbs, id, b, x) && Included(dbs, id, b, y) && x.number.None? && y.number.None?
    requires Earlier(dbs, id, b, x.view, y.view)
    ensures Depth(dbs, id, b, x) < Depth(dbs, id, b, y) && Newer(dbs, id, b, y, x)
  {
    assert Requested(dbs, id, b, y.view);
    AncestryGrows(Chain(dbs), x.view, y.view);
  }

  /**
   What is listed first was published later: numbers fall, unnumbered views come
   last, and none comes before one that its own links place after it. Nothing lies
   beyond the bound.
   */
  lemma LaterFirst(dbs: seq<Database>, id: string, b: Bound, r: seq<Hist>, i: nat, j: nat)
    requires IsHistory(dbs, id, b, r) && !OrderMissing(dbs, id, b) && i < j < |r|
    ensures r[j].number.Some? ==> r[i].number.Some? && r[j].number.value <= r[i].number.value
    ensures !(r[i].number.None? && r[j].number.None? && Earlier(dbs, id, b, r[i].view, r[j].view))
    ensures r[i].number.Some? ==> b.number.Some? && r[i].number.value <= b.number.value
    ensures r[j].number.Some? ==> b.number.Some? && r[j].number.value <= b.number.value
  {
    hide OrderMissing, Earlier, Depth, Listed;
    assert r[i] in r && r[j] in r;
    if r[i].number.None? && r[j].number.None? && Earlier(dbs, id, b, r[i].view, r[j].view) {
      LegacyDepth(dbs, id, b, r[i], r[j]);
    }
  }

  /**
   Among legacy views of one generation the answer goes from the newest row to the
   oldest, whatever other generations are mixed in; within one row it goes by rank.
   */
  lemma RowsNewestFirst(dbs: seq<Database>, id: string, b: Bound, r: seq<Hist>, i: nat, j: nat)
    requires Sound(dbs) && IsHistory(dbs, id, b, r) && !OrderMissing(dbs, id, b) && i < j < |r|
    requires r[i].generation == r[j].generation
    ensures r[i].number.None? && r[j].number.None? ==> r[i].row >= r[j].row
    ensures r[i].row == r[j].row ==> r[i].occurrence.rank < r[j].occurrence.rank
  {
    hide OrderMissing, Eligible, Mixed, RowsDiffer, RanksDiffer;
    var x, y := r[i], r[j];
    assert x in r && y in r && Newer(dbs, id, b, x, y);
    var d := ListedRow(dbs, id, x);
    var e := ListedRow(dbs, id, y);
    assert d == e;
    if x.number.None? && y.number.None? && x.row < y.row && Mixed(dbs, id, b) {
      RowsInOrder(AllRows(dbs), d, x.row, y.row);
      LegacyDepth(dbs, id, b, x, y);
    }
  }

  /** What the answer holds: every listed occurrence published no later than the bound, and no other. */
  lemma HoldsUpToBound(dbs: seq<Database>, id: string, b: Bound, r: seq<Hist>, h: Hist)
    requires IsHistory(dbs, id, b, r) && !OrderMissing(dbs, id, b)
    ensures h in r ==> Listed(dbs, id, h)
    ensures Listed(dbs, id, h) ==>
      (h in r <==>
       if h.number.Some? then b.number.Some? && h.number.value <= b.number.value
       else b.number.Some? || if h.generation == b.generation then h.row <= b.row
                              else Before(Chain(dbs), h.view, b.view))
  {
    hide Listed, Before;
    if Listed(dbs, id, h) {
      assert !Eligible(dbs, id, b, h).Unknown?;
      if h.number.None? && b.number.None? && h.generation != b.generation {
        assert LegacyGeneration(dbs, id, b, h.generation) && LegacyGeneration(dbs, id, b, b.generation);
      }
    }
  }

  lemma HasElement(s: seq<Hist>)
    requires s != []
    ensures exists h :: h in s
  {
    assert s[0] in s;
  }

  lemma {:induction false} SameList(dbs: seq<Database>, id: string, b: Bound, r: seq<Hist>, s: seq<Hist>)
    requires NewestFirst(dbs, id, b, r) && NewestFirst(dbs, id, b, s)
    requires forall h :: h in r <==> h in s
    ensures r == s
  {
    if s != [] {
      HasElement(s);
    }
    if r != [] {
      assert r[0] in r && s != [] && s[0] in s;
      var i :| 0 <= i < |s| && s[i] == r[0];
      var j :| 0 <= j < |r| && r[j] == s[0];
      assert r[0] == s[0];
      forall h ensures h in r[1..] <==> h in s[1..] {
        if h in r[1..] {
          var k :| 1 <= k < |r| && r[k] == h;
          assert h in r && h != r[0];
        }
        if h in s[1..] {
          var k :| 1 <= k < |s| && s[k] == h;
          assert h in s && h != s[0];
        }
      }
      SameList(dbs, id, b, r[1..], s[1..]);
    }
  }

  // ----- stability

  // What has to stay for an answer to stay: legacy rows, rows numbered up to the
  // bound, and the order among the legacy views concerned.
  ghost predicate Kept(dbs: seq<Database>, id: string, b: Bound, h: Hist) {
    Listed(dbs, id, h) && (h.number.None? || (b.number.Some? && h.number.value <= b.number.value))
  }

  ghost predicate Framed(dbs: seq<Database>, dbs': seq<Database>, id: string, b: Bound) {
    && (forall h :: Kept(dbs, id, b, h) <==> Kept(dbs', id, b, h))
    && (forall x, y :: Requested(dbs, id, b, y) ==> (Before(Chain(dbs), x, y) <==> Before(Chain(dbs'), x, y)))
    && (forall y :: Requested(dbs, id, b, y) ==> (ReachesCycle(Chain(dbs), y) <==> ReachesCycle(Chain(dbs'), y)))
  }

  lemma SameMixed(dbs: seq<Database>, dbs': seq<Database>, id: string, b: Bound)
    requires forall h :: Kept(dbs, id, b, h) <==> Kept(dbs', id, b, h)
    ensures forall h: Hist :: h.number.None? ==> (Listed(dbs, id, h) <==> Listed(dbs', id, h))
    ensures forall v :: Requested(dbs, id, b, v) <==> Requested(dbs', id, b, v)
    ensures Mixed(dbs, id, b) <==> Mixed(dbs', id, b)
  {
    forall h: Hist | h.number.None? ensures Listed(dbs, id, h) <==> Listed(dbs', id, h) {
      assert Kept(dbs, id, b, h) <==> Kept(dbs', id, b, h);
    }
    hide Listed, Kept;
    assert forall g :: LegacyGeneration(dbs, id, b, g) <==> LegacyGeneration(dbs', id, b, g);
    assert forall v :: Requested(dbs, id, b, v) <==> Requested(dbs', id, b, v);
  }

  lemma SameVerdicts(dbs: seq<Database>, dbs': seq<Database>, id: string, b: Bound)
    requires Framed(dbs, dbs', id, b)
    ensures forall h :: Listed(dbs, id, h) && Eligible(dbs, id, b, h).Unknown? <==>
                        Listed(dbs', id, h) && Eligible(dbs', id, b, h).Unknown?
    ensures forall h :: Included(dbs, id, b, h) <==> Included(dbs', id, b, h)
    ensures forall h :: Included(dbs, id, b, h) ==> Depth(dbs, id, b, h) == Depth(dbs', id, b, h)
    ensures forall x, y :: Included(dbs, id, b, x) && Included(dbs, id, b, y) ==>
                           (Unrelated(dbs, id, b, x, y) <==> Unrelated(dbs', id, b, x, y))
  {
    SameMixed(dbs, dbs', id, b);
    forall h ensures Listed(dbs, id, h) && Eligible(dbs, id, b, h).Unknown? <==>
      Listed(dbs', id, h) && Eligible(dbs', id, b, h).Unknown?
             ensures Included(dbs, id, b, h) <==> Included(dbs', id, b, h) {
      SameVerdict(dbs, dbs', id, b, h);
    }
    forall h | Included(dbs, id, b, h) ensures Depth(dbs, id, b, h) == Depth(dbs', id, b, h) {
      if h.number.None? {
        assert Requested(dbs, id, b, h.view);
        AncestryIsAll(Chain(dbs), h.view);
        AncestryIsAll(Chain(dbs'), h.view);
        assert Ancestry(Chain(dbs), h.view) == Ancestry(Chain(dbs'), h.view);
      }
    }
    forall x, y | Included(dbs, id, b, x) && Included(dbs, id, b, y)
      ensures Unrelated(dbs, id, b, x, y) <==> Unrelated(dbs', id, b, x, y)
    {
      if x.number.None? && y.number.None? {
        assert Requested(dbs, id, b, x.view) && Requested(dbs, id, b, y.view);
      }
    }
  }

  lemma SameVerdict(dbs: seq<Database>, dbs': seq<Database>, id: string, b: Bound, h: Hist)
    requires Framed(dbs, dbs', id, b)
    requires forall h: Hist :: h.number.None? ==> (Listed(dbs, id, h) <==> Listed(dbs', id, h))
    requires Mixed(dbs, id, b) <==> Mixed(dbs', id, b)
    ensures Listed(dbs, id, h) && Eligible(dbs, id, b, h).Unknown? <==>
      Listed(dbs', id, h) && Eligible(dbs', id, b, h).Unknown?
    ensures Included(dbs, id, b, h) <==> Included(dbs', id, b, h)
  {
    hide Mixed, Chain, Before, Listed, ReachesCycle;
    assert Kept(dbs, id, b, h) <==> Kept(dbs', id, b, h);
    if h.number.None? && b.number.None? && Listed(dbs, id, h) {
      assert Requested(dbs, id, b, b.view) && Requested(dbs, id, b, h.view);
    }
  }

  /** Stores that agree on the frame give the same answer, and fail alike. */
  lemma FramedHistory(dbs: seq<Database>, dbs': seq<Database>, id: string, b: Bound, r: seq<Hist>, r': seq<Hist>)
    requires Framed(dbs, dbs', id, b)
    ensures OrderMissing(dbs, id, b) <==> OrderMissing(dbs', id, b)
    ensures IsHistory(dbs, id, b, r) && IsHistory(dbs', id, b, r') ==> r == r'
  {
    SameMixed(dbs, dbs', id, b);
    SameVerdicts(dbs, dbs', id, b);
    hide Listed, Mixed, Kept, Requested, Before, ReachesCycle, Unrelated;
    if IsHistory(dbs, id, b, r) && IsHistory(dbs', id, b, r') {
      hide Eligible, Depth;
      assert forall h :: h in r <==> h in r';
      forall i, j | 0 <= i < j < |r'| ensures Newer(dbs, id, b, r'[i], r'[j]) {
        assert r'[i] in r' && r'[j] in r';
      }
      SameList(dbs, id, b, r, r');
    }
  }

  // ----- computing the answer

  // The occurrences of one item among the members of a view, in their order.
  function Matching(members: seq<Occurrence>, id: string): seq<Occurrence> {
    if members == [] then []
    else
      var last := members[|members| - 1];
      Matching(members[..|members| - 1], id) + if last.item == id then [last] else []
  }

  // What a list says of one row.
  function OfRow(hs: seq<Hist>, row: nat): seq<Occurrence> {
    if hs == [] then []
    else
      var last := hs[|hs| - 1];
      OfRow(hs[..|hs| - 1], row) + if last.row == row then [last.occurrence] else []
  }

  lemma {:induction false} OfRowConcat(a: seq<Hist>, b: seq<Hist>, row: nat)
    ensures OfRow(a + b, row) == OfRow(a, row) + OfRow(b, row)
  {
    if b == [] {
      assert a + b == a;
    } else {
      OfRowConcat(a, b[..|b| - 1], row);
      assert (a + b)[..|a + b| - 1] == a + b[..|b| - 1];
    }
  }

  lemma {:induction false} OfRowNone(hs: seq<Hist>, row: nat)
    requires forall h :: h in hs ==> h.row != row
    ensures OfRow(hs, row) == []
  {
    if hs != [] {
      assert hs[|hs| - 1] in hs && forall h :: h in hs[..|hs| - 1] ==> h in hs;
      OfRowNone(hs[..|hs| - 1], row);
    }
  }

  ghost predicate RowsFall(hs: seq<Hist>) {
    forall i, j :: 0 <= i < j < |hs| ==> hs[i].row >= hs[j].row
  }

  method MembersOfView(db: Database, id: string, row: nat) returns (out: seq<Hist>)
    requires row < |db.views|
    ensures forall h :: h in out <==> ListedIn(db, id, h) && h.row == row
    ensures OfRow(out, row) == Matching(db.views[row].members, id)
  {
    var v := db.views[row];
    out := [];
    var k := 0;
    while k < |v.members|
      invariant 0 <= k <= |v.members|
      invariant forall h :: h in out <==>
        h.occurrence in v.members[..k] && h.occurrence.item == id
        && h == Hist(h.occurrence, v.id, row, v.number, db.name)
      invariant OfRow(out, row) == Matching(v.members[..k], id)
    {
      assert v.members[..k + 1][..k] == v.members[..k];
      if v.members[k].item == id {
        var more := out + [Hist(v.members[k], v.id, row, v.number, db.name)];
        assert more[..|out|] == out;
        out := more;
      }
      k := k + 1;
    }
    assert v.members[..k] == v.members;
  }

  /** The occurrences of an item in one generation: all of them, the newest view first, each view's in their order. */
  method HistoricalMembers(db: Database, id: string) returns (out: seq<Hist>)
    ensures forall h :: h in out <==> ListedIn(db, id, h)
    ensures RowsFall(out)
    ensures forall r: nat :: r < |db.views| ==> OfRow(out, r) == Matching(db.views[r].members, id)
  {
    hide Matching, OfRow;
    out := [];
    var row := |db.views|;
    while row > 0
      invariant 0 <= row <= |db.views|
      invariant forall h :: h in out <==> ListedIn(db, id, h) && h.row >= row
      invariant RowsFall(out)
      invariant forall r: nat :: row <= r < |db.views| ==> OfRow(out, r) == Matching(db.views[r].members, id)
    {
      row := row - 1;
      var more := MembersOfView(db, id, row);
      RowsAfter(out, more, row);
      out := out + more;
    }
  }

  lemma RowsAfter(out: seq<Hist>, more: seq<Hist>, row: nat)
    requires RowsFall(out) && (forall h :: h in out ==> h.row > row) && forall h :: h in more ==> h.row == row
    ensures RowsFall(out + more)
    ensures OfRow(out + more, row) == OfRow(more, row)
    ensures forall r: nat :: r != row ==> OfRow(out + more, r) == OfRow(out, r)
  {
    hide OfRow;
    OfRowConcat(out, more, row);
    OfRowNone(out, row);
    forall r: nat | r != row ensures OfRow(out + more, r) == OfRow(out, r) {
      OfRowConcat(out, more, r);
      OfRowNone(more, r);
    }
    assert forall i :: 0 <= i < |out| ==> out[i] in out;
    assert forall i :: 0 <= i < |more| ==> more[i] in more;
  }

  method AllMembers(dbs: seq<Database>, id: string) returns (out: seq<Hist>)
    ensures forall h :: h in out <==> Listed(dbs, id, h)
  {
    out := [];
    var d := 0;
    while d < |dbs|
      invariant 0 <= d <= |dbs|
      invariant forall h :: h in out <==> Listed(dbs[..d], id, h)
    {
      var more := HistoricalMembers(dbs[d], id);
      assert dbs[..d + 1] == dbs[..d] + [dbs[d]];
      out := out + more;
      d := d + 1;
    }
    assert dbs[..d] == dbs;
  }

  method FindBound(dbs: seq<Database>, view: string) returns (r: Option<Bound>)
    ensures r.Some? ==> r.value.view == view && IsBound(dbs, r.value)
    ensures r.None? ==> forall b :: IsBound(dbs, b) ==> b.view != view
  {
    var d := 0;
    while d < |dbs|
      invariant 0 <= d <= |dbs|
      invariant forall e, b :: 0 <= e < d && BoundIn(dbs[e], b) ==> b.view != view
    {
      var i := 0;
      while i < |dbs[d].views|
        invariant 0 <= i <= |dbs[d].views|
        invariant forall k :: 0 <= k < i ==> dbs[d].views[k].id != view
      {
        var v := dbs[d].views[i];
        if v.id == view {
          assert BoundIn(dbs[d], Bound(view, i, v.number, dbs[d].name));
          return Some(Bound(view, i, v.number, dbs[d].name));
        }
        i := i + 1;
      }
      d := d + 1;
    }
    return None;
  }

  lemma BoundUnique(dbs: seq<Database>, b: Bound, c: Bound)
    requires Sound(dbs) && IsBound(dbs, b) && IsBound(dbs, c) && b.view == c.view
    ensures b == c
  {
    var x :| x in dbs && BoundIn(x, b);
    var y :| y in dbs && BoundIn(y, c);
    var d :| 0 <= d < |dbs| && dbs[d] == x;
    var e :| 0 <= e < |dbs| && dbs[e] == y;
    assert SameRow(dbs, d, b.row, e, c.row) || RowsDiffer(dbs, d, b.row, e, c.row);
  }

  // What the predecessor table says, seen from the definitions.
  ghost predicate Knows(dbs: seq<Database>, id: string, b: Bound, table: map<string, set<string>>) {
    if Mixed(dbs, id, b) then
      && (forall v :: v in table <==> Requested(dbs, id, b, v))
      && (forall v, a :: v in table ==> (a in table[v] <==> Before(Chain(dbs), a, v)))
    else table == map[]
  }

  function EarlierIn(table: map<string, set<string>>, a: string, v: string): bool {
    v in table && a in table[v]
  }

  function DepthIn(table: map<string, set<string>>, v: string): nat {
    if v in table then |table[v]| else 0
  }

  lemma KnowsEarlier(dbs: seq<Database>, id: string, b: Bound, table: map<string, set<string>>, v: string)
    requires Knows(dbs, id, b, table) && Requested(dbs, id, b, v)
    ensures forall a :: EarlierIn(table, a, v) <==> Earlier(dbs, id, b, a, v)
  {
    hide Before, Requested, Mixed;
  }

  lemma KnowsDepth(dbs: seq<Database>, id: string, b: Bound, table: map<string, set<string>>, h: Hist)
    requires Sound(dbs) && IsBound(dbs, b) && Knows(dbs, id, b, table) && Listed(dbs, id, h)
    ensures DepthIn(table, h.view) == Depth(dbs, id, b, h)
  {
    if h.number.Some? {
      NumberedNotRequested(dbs, id, b, h);
    } else if Mixed(dbs, id, b) {
      assert Requested(dbs, id, b, h.view);
      AncestryIsAll(Chain(dbs), h.view);
      assert table[h.view] == Ancestry(Chain(dbs), h.view);
    }
  }

  lemma NumberedNotRequested(dbs: seq<Database>, id: string, b: Bound, h: Hist)
    requires Sound(dbs) && IsBound(dbs, b) && Listed(dbs, id, h) && h.number.Some?
    ensures !Requested(dbs, id, b, h.view)
  {
    var own := Bound(h.view, h.row, h.number, h.generation);
    var db :| db in dbs && ListedIn(db, id, h);
    assert BoundIn(db, own);
    if Requested(dbs, id, b, h.view) {
      if b.number.None? && h.view == b.view {
        BoundUnique(dbs, own, b);
      } else {
        var x :| Listed(dbs, id, x) && x.number.None? && x.view == h.view;
        var other :| other in dbs && ListedIn(other, id, x);
        assert BoundIn(other, Bound(x.view, x.row, x.number, x.generation));
        BoundUnique(dbs, own, Bound(x.view, x.row, x.number, x.generation));
      }
    }
  }

  // The predecessor table, or none when the order cannot be established at all.
  method Consult(dbs: seq<Database>, id: string, b: Bound, out: seq<Hist>)
    returns (table: Option<map<string, set<string>>>)
    requires forall h :: h in out <==> Listed(dbs, id, h)
    ensures table.None? ==> OrderMissing(dbs, id, b)
    ensures table.Some? ==> Knows(dbs, id, b, table.value)
    ensures table.Some? && Mixed(dbs, id, b) ==> forall v :: Requested(dbs, id, b, v) ==> !ReachesCycle(Chain(dbs), v)
  {
    hide Listed, Before, ReachesCycle, LinksOf, Mixed, LegacyGeneration, Requested;
    var legacy := set h | h in out && h.number.None?;
    var generations := (set h | h in legacy :: h.generation) + if b.number.None? then {b.generation} else {};
    var views := (set h | h in legacy :: h.view) + if b.number.None? then {b.view} else {};
    LegacySets(dbs, id, b, legacy, generations, views);
    if |generations| > 1 {
      table := LegacyPredecessors(AllRows(dbs), views);
      if table.None? {
        assert exists v :: Requested(dbs, id, b, v) && ReachesCycle(Chain(dbs), v);
      }
    } else {
      table := Some(map[]);
    }
  }

  lemma LegacySets(dbs: seq<Database>, id: string, b: Bound, legacy: set<Hist>, generations: set<string>,
                   views: set<string>)
    requires forall h :: h in legacy <==> Listed(dbs, id, h) && h.number.None?
    requires generations == (set h | h in legacy :: h.generation) + if b.number.None? then {b.generation} else {}
    requires views == (set h | h in legacy :: h.view) + if b.number.None? then {b.view} else {}
    ensures forall v :: v in views <==> Requested(dbs, id, b, v)
    ensures |generations| > 1 <==> Mixed(dbs, id, b)
  {
    hide Listed;
    assert forall g :: g in generations <==> LegacyGeneration(dbs, id, b, g);
    TwoElements(generations);
  }

  lemma TwoElements(s: set<string>)
    ensures |s| > 1 <==> exists a, b :: a != b && a in s && b in s
  {
    if |s| > 1 {
      var a :| a in s;
      var rest := s - {a};
      assert |rest| == |s| - 1;
      var b :| b in rest;
    }
    if a, b :| a != b && a in s && b in s {
      assert {a, b} <= s;
      SubsetSize({a, b}, s);
    }
  }

  // Keeps what the bound admits; fails on a row whose place is not established.
  method Bounded(dbs: seq<Database>, id: string, b: Bound, table: map<string, set<string>>, out: seq<Hist>)
    returns (r: Option<seq<Hist>>)
    requires IsBound(dbs, b) && Knows(dbs, id, b, table)
    requires forall h :: h in out <==> Listed(dbs, id, h)
    ensures r.None? ==> OrderMissing(dbs, id, b)
    ensures r.Some? ==> forall h :: h in r.value <==> Included(dbs, id, b, h)
    ensures r.Some? ==> forall h :: Listed(dbs, id, h) ==> !Eligible(dbs, id, b, h).Unknown?
  {
    hide Listed, Knows, Mixed, Before, IsBound;
    var kept: seq<Hist> := [];
    var i := 0;
    while i < |out|
      invariant 0 <= i <= |out|
      invariant forall h :: h in kept <==> h in out[..i] && Eligible(dbs, id, b, h).In?
      invariant forall k :: 0 <= k < i ==> !Eligible(dbs, id, b, out[k]).Unknown?
    {
      var h := out[i];
      assert h in out;
      var verdict: Verdict;
      if h.number.Some? {
        verdict := if b.number.Some? && h.number.value <= b.number.value then In else Out;
      } else if b.number.Some? {
        verdict := In;
      } else if h.generation == b.generation {
        verdict := if h.row <= b.row then In else Out;
      } else {
        assert Requested(dbs, id, b, b.view) && Requested(dbs, id, b, h.view);
        KnowsEarlier(dbs, id, b, table, b.view);
        KnowsEarlier(dbs, id, b, table, h.view);
        verdict :=
          if EarlierIn(table, h.view, b.view) then In
          else if EarlierIn(table, b.view, h.view) then Out else Unknown;
      }
      assert verdict == Eligible(dbs, id, b, h);
      if verdict.Unknown? {
        return None;
      }
      if verdict.In? {
        kept := kept + [h];
      }
      i := i + 1;
    }
    assert out[..i] == out;
    return Some(kept);
  }

  // Legacy views of different generations must be ordered pair by pair.
  method AllRelated(dbs: seq<Database>, id: string, b: Bound, table: map<string, set<string>>, kept: seq<Hist>)
    returns (ok: bool)
    requires Knows(dbs, id, b, table)
    requires forall h :: h in kept <==> Included(dbs, id, b, h)
    ensures ok <==> !exists x, y :: Included(dbs, id, b, x) && Included(dbs, id, b, y) && Unrelated(dbs, id, b, x, y)
  {
    hide Knows, Mixed, Before, Eligible, Earlier, Listed;
    var i := 0;
    while i < |kept|
      invariant 0 <= i <= |kept|
      invariant forall k, l :: 0 <= k < i && k < l < |kept| ==> !Unrelated(dbs, id, b, kept[k], kept[l])
    {
      var j := i + 1;
      while j < |kept|
        invariant i < j <= |kept|
        invariant forall l :: i < l < j ==> !Unrelated(dbs, id, b, kept[i], kept[l])
      {
        var x, y := kept[i], kept[j];
        assert x in kept && y in kept;
        if x.number.None? && y.number.None? {
          assert Requested(dbs, id, b, x.view) && Requested(dbs, id, b, y.view);
          KnowsEarlier(dbs, id, b, table, x.view);
          KnowsEarlier(dbs, id, b, table, y.view);
          if x.generation != y.generation && !EarlierIn(table, x.view, y.view) && !EarlierIn(table, y.view, x.view) {
            assert Unrelated(dbs, id, b, x, y);
            return false;
          }
        }
        j := j + 1;
      }
      i := i + 1;
    }
    forall x, y | x in kept && y in kept ensures !Unrelated(dbs, id, b, x, y) {
      var k :| 0 <= k < |kept| && kept[k] == x;
      var l :| 0 <= l < |kept| && kept[l] == y;
      if k < l {
        assert !Unrelated(dbs, id, b, kept[k], kept[l]);
      } else if l < k {
        assert !Unrelated(dbs, id, b, kept[l], kept[k]);
      }
    }
    return true;
  }

  lemma NewerTransitive(a: Hist, da: nat, b: Hist, db: nat, c: Hist, dc: nat)
    requires NewerBy(a, da, b, db) && NewerBy(b, db, c, dc)
    ensures NewerBy(a, da, c, dc)
  {
  }

  // Sorting by the key of `NewerBy`; members met twice are taken once.
  method SortNewest(dbs: seq<Database>, id: string, b: Bound, table: map<string, set<string>>, kept: seq<Hist>)
    returns (r: seq<Hist>)
    requires Sound(dbs) && IsBound(dbs, b) && Knows(dbs, id, b, table) && !OrderMissing(dbs, id, b)
    requires forall h :: h in kept <==> Included(dbs, id, b, h)
    ensures IsHistory(dbs, id, b, r)
  {
    hide Sound, IsBound, Knows, OrderMissing, Included, Depth;
    r := [];
    var i := 0;
    while i < |kept|
      invariant 0 <= i <= |kept|
      invariant forall h :: h in r <==> h in kept[..i]
      invariant NewestFirst(dbs, id, b, r)
    {
      var h := kept[i];
      assert h in kept;
      assert forall x :: x in r ==> x in kept;
      r := Insert(dbs, id, b, table, h, r);
      assert kept[..i + 1] == kept[..i] + [h];
      i := i + 1;
    }
    assert kept[..i] == kept;
  }

  method Insert(dbs: seq<Database>, id: string, b: Bound, table: map<string, set<string>>, h: Hist, sorted: seq<Hist>)
    returns (r: seq<Hist>)
    requires Sound(dbs) && IsBound(dbs, b) && Knows(dbs, id, b, table) && !OrderMissing(dbs, id, b)
    requires Included(dbs, id, b, h) && forall x :: x in sorted ==> Included(dbs, id, b, x)
    requires NewestFirst(dbs, id, b, sorted)
    ensures NewestFirst(dbs, id, b, r)
    ensures forall x :: x in r <==> x == h || x in sorted
  {
    hide Sound, IsBound, Knows, OrderMissing, Depth, Listed, Eligible;
    var i := 0;
    while i < |sorted| && NewerBy(sorted[i], DepthIn(table, sorted[i].view), h, DepthIn(table, h.view))
      invariant 0 <= i <= |sorted|
      invariant forall k :: 0 <= k < i ==> Newer(dbs, id, b, sorted[k], h)
    {
      assert sorted[i] in sorted;
      KnowsDepth(dbs, id, b, table, sorted[i]);
      KnowsDepth(dbs, id, b, table, h);
      i := i + 1;
    }
    if i < |sorted| && sorted[i] == h {
      return sorted;
    }
    r := sorted[..i] + [h] + sorted[i..];
    if i < |sorted| {
      assert sorted[i] in sorted;
      KnowsDepth(dbs, id, b, table, sorted[i]);
      KnowsDepth(dbs, id, b, table, h);
      IncludedComparable(dbs, id, b, h, sorted[i]);
      forall k | i < k < |sorted| ensures Newer(dbs, id, b, h, sorted[k]) {
        NewerTransitive(h, Depth(dbs, id, b, h), sorted[i], Depth(dbs, id, b, sorted[i]), sorted[k],
                        Depth(dbs, id, b, sorted[k]));
      }
    }
    forall x ensures x in r <==> x == h || x in sorted {
      assert sorted == sorted[..i] + sorted[i..];
    }
  }

  /** Newest-first evidence for one identity, up to and including a retained view. */
  method HistoryAt(dbs: seq<Database>, id: string, view: string) returns (r: Result<seq<Hist>, HistoryError>)
    requires Sound(dbs)
    ensures r == Err(StaleContinuation) <==> forall b :: IsBound(dbs, b) ==> b.view != view
    ensures forall b :: IsBound(dbs, b) && b.view == view ==>
      && (r == Err(HistoryOrderUnavailable) <==> OrderMissing(dbs, id, b))
      && (r.Ok? ==> IsHistory(dbs, id, b, r.value))
  {
    hide OrderMissing, IsHistory, Knows, Sound, IsBound, Included, Eligible, Mixed, Requested, Unrelated, Listed;
    var bound := FindBound(dbs, view);
    if bound.None? {
      return Err(StaleContinuation);
    }
    var b := bound.value;
    forall c | IsBound(dbs, c) && c.view == view ensures c == b {
      BoundUnique(dbs, b, c);
    }
    var out := AllMembers(dbs, id);
    var table := Consult(dbs, id, b, out);
    if table.None? {
      return Err(HistoryOrderUnavailable);
    }
    var kept := Bounded(dbs, id, b, table.value, out);
    if kept.None? {
      return Err(HistoryOrderUnavailable);
    }
    var related := AllRelated(dbs, id, b, table.value, kept.value);
    if !related {
      UnrelatedMissing(dbs, id, b);
      return Err(HistoryOrderUnavailable);
    }
    NothingMissing(dbs, id, b);
    var sorted := SortNewest(dbs, id, b, table.value, kept.value);
    return Ok(sorted);
  }

  lemma UnrelatedMissing(dbs: seq<Database>, id: string, b: Bound)
    requires exists x, y :: Included(dbs, id, b, x) && Included(dbs, id, b, y) && Unrelated(dbs, id, b, x, y)
    ensures OrderMissing(dbs, id, b)
  {
  }

  lemma NothingMissing(dbs: seq<Database>, id: string, b: Bound)
    requires Mixed(dbs, id, b) ==> forall v :: Requested(dbs, id, b, v) ==> !ReachesCycle(Chain(dbs), v)
    requires forall h :: Listed(dbs, id, h) ==> !Eligible(dbs, id, b, h).Unknown?
    requires !exists x, y :: Included(dbs, id, b, x) && Included(dbs, id, b, y) && Unrelated(dbs, id, b, x, y)
    ensures !OrderMissing(dbs, id, b)
  {
  }
}
