/**
 Publication order of views that predate the clock: the predecessor search of
 src/store.rs `legacy_view_predecessors`, with its explicit stack.
 */
module LegacyOrder {
  import opened Wrappers
  import opened Order

  // A row of `views` in insertion order: its id and the baseline its metadata names.
  datatype ViewRow = ViewRow(id: string, baseline: Option<string>)

  type Links = map<string, set<string>>

  function Parents(links: Links, v: string): set<string> {
    if v in links then links[v] else {}
  }

  // ----- the relation that the search computes

  ghost predicate Path(links: Links, p: seq<string>) {
    forall i :: 0 <= i < |p| - 1 ==> Edge(links, p, i)
  }

  ghost predicate Edge(links: Links, p: seq<string>, i: int)
    requires 0 <= i < |p| - 1
  {
    p[i + 1] in Parents(links, p[i])
  }

  ghost predicate PathFrom(links: Links, p: seq<string>, from: string, to: string) {
    |p| >= 2 && p[0] == from && p[|p| - 1] == to && Path(links, p)
  }

  /** `a` was published before `b`: some nonempty chain of links leads from `b` to `a`. */
  ghost predicate Before(links: Links, a: string, b: string) {
    exists p :: PathFrom(links, p, b, a)
  }

  ghost predicate AtOrBefore(links: Links, a: string, b: string) {
    a == b || Before(links, a, b)
  }

  ghost predicate ReachesCycle(links: Links, v: string) {
    exists c :: AtOrBefore(links, c, v) && Before(links, c, c)
  }

  lemma ParentBefore(links: Links, a: string, b: string)
    requires a in Parents(links, b)
    ensures Before(links, a, b)
  {
    var p := [b, a];
    assert forall i :: 0 <= i < |p| - 1 ==> Edge(links, p, i);
    assert PathFrom(links, p, b, a);
  }

  lemma BeforeTransitive(links: Links, a: string, b: string, c: string)
    requires Before(links, a, b) && Before(links, b, c)
    ensures Before(links, a, c)
  {
    var p :| PathFrom(links, p, c, b);
    var q :| PathFrom(links, q, b, a);
    var r := p + q[1..];
    forall i | 0 <= i < |r| - 1 ensures Edge(links, r, i) {
      if i < |p| - 1 {
        assert Edge(links, p, i);
      } else {
        assert r[i] == q[i - (|p| - 1)] && r[i + 1] == q[i + 1 - (|p| - 1)];
        assert Edge(links, q, i - (|p| - 1));
      }
    }
    assert PathFrom(links, r, c, a);
  }

  // ----- the last link of a chain

  lemma LastLink(links: Links, a: string, b: string) returns (m: string)
    requires Before(links, a, b)
    ensures a in Parents(links, m) && AtOrBefore(links, m, b)
  {
    var p :| PathFrom(links, p, b, a);
    assert Edge(links, p, |p| - 2);
    m := p[|p| - 2];
    if |p| > 2 {
      var q := p[..|p| - 1];
      forall i | 0 <= i < |q| - 1 ensures Edge(links, q, i) {
        assert Edge(links, p, i);
      }
      assert PathFrom(links, q, b, m);
    }
  }

  // A finishing order: every view comes after all its parents.
  ghost predicate Finished(links: Links, order: seq<string>) {
    forall k :: 0 <= k < |order| ==> Parents(links, order[k]) <= Elements(order[..k])
  }

  ghost function Elements(s: seq<string>): set<string> {
    set x | x in s
  }

  lemma {:induction false} BeforeIsEarlier(links: Links, order: seq<string>, k: nat, p: seq<string>)
    requires Finished(links, order) && k < |order|
    requires |p| >= 2 && p[0] == order[k] && Path(links, p)
    ensures p[|p| - 1] in Elements(order[..k])
    decreases |p|
  {
    assert Edge(links, p, 0);
    assert p[1] in Elements(order[..k]);
    if |p| > 2 {
      var j :| 0 <= j < k && order[j] == p[1];
      var q := p[1..];
      forall i | 0 <= i < |q| - 1 ensures Edge(links, q, i) {
        assert Edge(links, p, i + 1);
      }
      BeforeIsEarlier(links, order, j, q);
      assert order[..k][..j] == order[..j];
    }
  }

  /** Views that all finished reach no cycle. */
  lemma FinishedIsAcyclic(links: Links, order: seq<string>, v: string)
    requires Finished(links, order) && NoRepeat(order) && v in order
    ensures !ReachesCycle(links, v)
  {
    if ReachesCycle(links, v) {
      var c :| AtOrBefore(links, c, v) && Before(links, c, c);
      var k :| 0 <= k < |order| && order[k] == v;
      if c != v {
        var p :| PathFrom(links, p, v, c);
        BeforeIsEarlier(links, order, k, p);
      }
      var j :| 0 <= j < |order| && order[j] == c;
      var q :| PathFrom(links, q, c, c);
      BeforeIsEarlier(links, order, j, q);
    }
  }

  ghost predicate NoRepeat(s: seq<string>) {
    forall i, j :: 0 <= i < j < |s| ==> s[i] != s[j]
  }

  // ----- the search

  type Stack = seq<(string, bool)>

  ghost function Markers(pending: Stack): set<string> {
    set i | 0 <= i < |pending| && pending[i].1 :: pending[i].0
  }

  // Whatever lies above a marker was reached from its view.
  ghost predicate Nested(links: Links, pending: Stack) {
    forall i, j :: 0 <= j < i < |pending| && pending[j].1 ==> Before(links, pending[i].0, pending[j].0)
  }

  ghost predicate Waits(pending: Stack, i: int, q: string)
    requires 0 <= i < |pending|
  {
    exists k :: i < k < |pending| && pending[k].0 == q
  }

  // An unfinished view's parents are visited or still above it.
  ghost predicate Covered(links: Links, pending: Stack, visited: set<string>) {
    forall i, q :: 0 <= i < |pending| && pending[i].1 && q in Parents(links, pending[i].0) ==>
      q in visited || Waits(pending, i, q)
  }

  ghost predicate Opened(links: Links, known: set<string>, ancestors: set<string>) {
    && (forall v, q :: v in known && q in Parents(links, v) ==> q in ancestors)
    && (forall q :: q in ancestors ==> exists v :: v in known && q in Parents(links, v))
  }

  ghost predicate Searching(links: Links, id: string, pending: Stack, active: set<string>, visited: set<string>,
                            ancestors: set<string>, order: seq<string>) {
    && active == Markers(pending)
    && active !! visited
    && (forall i, j :: 0 <= i < j < |pending| && pending[i].1 && pending[j].1 ==> pending[i].0 != pending[j].0)
    && Nested(links, pending)
    && Covered(links, pending, visited)
    && (forall i :: 0 <= i < |pending| ==> AtOrBefore(links, pending[i].0, id))
    && (forall v :: v in visited ==> AtOrBefore(links, v, id))
    && Finished(links, order) && NoRepeat(order) && Elements(order) == visited
    && Opened(links, active + visited, ancestors)
    && (id in visited || (pending != [] && pending[0].0 == id))
  }

  ghost function Universe(links: Links, id: string): set<string> {
    {id} + links.Keys + set v, q | v in links && q in links[v] :: q
  }

  lemma InUniverse(links: Links, id: string, v: string)
    requires AtOrBefore(links, v, id)
    ensures v in Universe(links, id)
  {
    if v != id {
      var m := LastLink(links, v, id);
    }
  }

  ghost predicate Above(p: Stack, n: nat, q: string) {
    exists i :: n <= i < |p| && p[i].0 == q
  }

  // Pushing every parent, in the order of the set.
  method PushParents(parents: set<string>, pending: Stack, ancestors: set<string>) returns (p: Stack, a: set<string>)
    ensures pending <= p && a == ancestors + parents
    ensures forall i :: |pending| <= i < |p| ==> p[i].0 in parents && !p[i].1
    ensures forall q :: q in parents ==> Above(p, |pending|, q)
  {
    p, a := pending, ancestors;
    var left := parents;
    while left != {}
      invariant left <= parents && pending <= p && a == ancestors + (parents - left)
      invariant forall i :: |pending| <= i < |p| ==> p[i].0 in parents && !p[i].1
      invariant forall q :: q in parents - left ==> Above(p, |pending|, q)
      decreases left
    {
      var q := TakeLeast(left);
      a := a + {q};
      ghost var before := p;
      p := p + [(q, false)];
      assert p[|p| - 1].0 == q;
      assert forall i :: 0 <= i < |before| ==> p[i] == before[i];
      forall x | x in parents - left ensures Above(p, |pending|, x) {
        var i :| |pending| <= i < |before| && before[i].0 == x;
        assert p[i].0 == x;
      }
      left := left - {q};
    }
  }

  lemma FinishOne(links: Links, id: string, pending: Stack, active: set<string>, visited: set<string>,
                  ancestors: set<string>, order: seq<string>)
    requires Searching(links, id, pending, active, visited, ancestors, order)
    requires pending != [] && pending[|pending| - 1].1
    ensures var n := |pending| - 1; var v := pending[n].0;
      v in active && v !in visited
          && Searching(links, id, pending[..n], active - {v}, visited + {v}, ancestors, order + [v])
  {
    var n := |pending| - 1;
    var v, below := pending[n].0, pending[..n];
    forall q | q in Parents(links, v) ensures q in Elements(order) {
      assert q in visited || Waits(pending, n, q);
    }
    assert forall k :: 0 <= k < |order| ==> (order + [v])[..k] == order[..k];
    assert (order + [v])[..|order|] == order;
    forall i, q | 0 <= i < n && below[i].1 && q in Parents(links, below[i].0)
      ensures q in visited + {v} || Waits(below, i, q) {
      assert pending[i] == below[i];
      if q !in visited {
        assert Waits(pending, i, q);
        var k :| i < k < |pending| && pending[k].0 == q;
        if k < n { assert below[k].0 == q; }
      }
    }
    assert active - {v} + (visited + {v}) == active + visited;
    assert Markers(below) == active - {v};
  }

  lemma SkipOne(links: Links, id: string, pending: Stack, active: set<string>, visited: set<string>,
                ancestors: set<string>, order: seq<string>)
    requires Searching(links, id, pending, active, visited, ancestors, order)
    requires pending != [] && !pending[|pending| - 1].1 && pending[|pending| - 1].0 in visited
    ensures Searching(links, id, pending[..|pending| - 1], active, visited, ancestors, order)
  {
    var n := |pending| - 1;
    var below := pending[..n];
    forall i, q | 0 <= i < n && below[i].1 && q in Parents(links, below[i].0)
      ensures q in visited || Waits(below, i, q) {
      assert pending[i] == below[i];
      if q !in visited {
        assert Waits(pending, i, q);
        var k :| i < k < |pending| && pending[k].0 == q;
        assert below[k].0 == q;
      }
    }
    assert Markers(below) == active;
  }

  lemma OpenOne(links: Links, id: string, pending: Stack, next: Stack, active: set<string>, visited: set<string>,
                ancestors: set<string>, order: seq<string>)
    requires Searching(links, id, pending, active, visited, ancestors, order)
    requires pending != [] && !pending[|pending| - 1].1
    requires var v := pending[|pending| - 1].0; var base := pending[..|pending| - 1] + [(v, true)];
      && v !in active && v !in visited && base <= next
      && (forall i :: |base| <= i < |next| ==> next[i].0 in Parents(links, v) && !next[i].1)
      && (forall q :: q in Parents(links, v) ==> Above(next, |base|, q))
    ensures var v := pending[|pending| - 1].0;
      Searching(links, id, next, active + {v}, visited, ancestors + Parents(links, v), order)
  {
    var n := |pending| - 1;
    var v := pending[n].0;
    assert forall i :: 0 <= i < n ==> next[i] == pending[i];
    assert next[n] == (v, true);
    forall i | n < i < |next| ensures Before(links, next[i].0, v) {
      ParentBefore(links, next[i].0, v);
    }
    forall i, j | 0 <= j < i < |next| && next[j].1 ensures Before(links, next[i].0, next[j].0) {
      if j < n {
        assert Before(links, v, pending[j].0);
        if i > n { BeforeTransitive(links, next[i].0, v, next[j].0); }
      }
    }
    forall i | 0 <= i < |next| ensures AtOrBefore(links, next[i].0, id) {
      if i > n {
        assert AtOrBefore(links, v, id);
        if v != id { BeforeTransitive(links, next[i].0, v, id); }
      }
    }
    forall i, q | 0 <= i < |next| && next[i].1 && q in Parents(links, next[i].0)
      ensures q in visited || Waits(next, i, q) {
      if i < n && q !in visited {
        assert Waits(pending, i, q);
        var k :| i < k < |pending| && pending[k].0 == q;
        assert next[k].0 == q;
      } else if i == n {
        var k :| n < k < |next| && next[k].0 == q;
      }
    }
    MarkersOpen(pending, next, v);
    assert active + {v} + visited == active + visited + {v};
  }

  lemma MarkersOpen(pending: Stack, next: Stack, v: string)
    requires pending != [] && !pending[|pending| - 1].1 && |next| >= |pending|
    requires forall i :: 0 <= i < |pending| - 1 ==> next[i] == pending[i]
    requires next[|pending| - 1] == (v, true)
    requires forall i :: |pending| <= i < |next| ==> !next[i].1
    ensures Markers(next) == Markers(pending) + {v}
  {
    forall x | x in Markers(pending) ensures x in Markers(next) {
      var i :| 0 <= i < |pending| && pending[i].1 && pending[i].0 == x;
      assert next[i] == pending[i];
    }
    assert next[|pending| - 1].1 && next[|pending| - 1].0 == v;
  }

  lemma SearchDone(links: Links, id: string, visited: set<string>, ancestors: set<string>, order: seq<string>)
    requires Searching(links, id, [], {}, visited, ancestors, order)
    ensures !ReachesCycle(links, id)
    ensures forall a :: a in ancestors <==> Before(links, a, id)
  {
    FinishedIsAcyclic(links, order, id);
    forall a | a in ancestors ensures Before(links, a, id) {
      var v :| v in visited && a in Parents(links, v);
      ParentBefore(links, a, v);
      if v != id { BeforeTransitive(links, a, v, id); }
    }
    forall a | Before(links, a, id) ensures a in ancestors {
      var m := LastLink(links, a, id);
      if m != id {
        var k :| 0 <= k < |order| && order[k] == id;
        var p :| PathFrom(links, p, id, m);
        BeforeIsEarlier(links, order, k, p);
      }
      assert m in visited;
    }
  }

  /**
   All views published before one view, or none if its links run into a cycle.
   */
  method Predecessors(links: Links, id: string) returns (r: Option<set<string>>)
    ensures r.None? <==> ReachesCycle(links, id)
    ensures r.Some? ==> forall a :: a in r.value <==> Before(links, a, id)
    ensures r.Some? ==> id !in r.value
  {
    hide Searching, Before, ReachesCycle;
    var ancestors: set<string>, active: set<string>, visited: set<string> := {}, {}, {};
    var pending: Stack := [(id, false)];
    ghost var order: seq<string> := [];
    ghost var universe := Universe(links, id);
    StartSearch(links, id);
    while pending != []
      invariant Searching(links, id, pending, active, visited, ancestors, order)
      decreases universe - (active + visited), |pending|
    {
      var n := |pending| - 1;
      var (view, finished) := pending[n];
      var below := pending[..n];
      ReadState(links, id, pending, active, visited, ancestors, order);
      if finished {
        FinishOne(links, id, pending, active, visited, ancestors, order);
        active, visited := active - {view}, visited + {view};
        order := order + [view];
        pending := below;
        continue;
      }
      if view in active {
        CycleFound(links, id, pending, active, visited, ancestors, order);
        return None;
      }
      if view in visited {
        SkipOne(links, id, pending, active, visited, ancestors, order);
        pending := below;
        continue;
      }
      var parents := Parents(links, view);
      var next, grown := PushParents(parents, below + [(view, true)], ancestors);
      OpenOne(links, id, pending, next, active, visited, ancestors, order);
      InUniverse(links, id, view);
      active, ancestors, pending := active + {view}, grown, next;
    }
    EmptyStack(links, id, active, visited, ancestors, order);
    SearchDone(links, id, visited, ancestors, order);
    NotBeforeItself(links, id);
    return Some(ancestors);
  }

  lemma StartSearch(links: Links, id: string)
    ensures Searching(links, id, [(id, false)], {}, {}, {}, [])
  {
  }

  lemma ReadState(links: Links, id: string, pending: Stack, active: set<string>, visited: set<string>,
                  ancestors: set<string>, order: seq<string>)
    requires Searching(links, id, pending, active, visited, ancestors, order) && pending != []
    ensures AtOrBefore(links, pending[|pending| - 1].0, id)
    ensures pending[|pending| - 1].1 ==> pending[|pending| - 1].0 in active
  {
  }

  lemma EmptyStack(links: Links, id: string, active: set<string>, visited: set<string>, ancestors: set<string>,
                   order: seq<string>)
    requires Searching(links, id, [], active, visited, ancestors, order)
    ensures active == {}
  {
  }

  lemma CycleFound(links: Links, id: string, pending: Stack, active: set<string>, visited: set<string>,
                   ancestors: set<string>, order: seq<string>)
    requires Searching(links, id, pending, active, visited, ancestors, order)
    requires pending != [] && !pending[|pending| - 1].1 && pending[|pending| - 1].0 in active
    ensures ReachesCycle(links, id)
  {
    var n := |pending| - 1;
    var v := pending[n].0;
    var j :| 0 <= j < |pending| && pending[j].1 && pending[j].0 == v;
    assert Before(links, v, v);
  }

  lemma NotBeforeItself(links: Links, id: string)
    requires !ReachesCycle(links, id)
    ensures !Before(links, id, id)
  {
    assert AtOrBefore(links, id, id);
  }

  // ----- links between views

  function IdsIn(rows: seq<ViewRow>): set<string> {
    set r | r in rows :: r.id
  }

  // The views that one database names as published directly before `v`: the
  // baseline its metadata gives, and the row inserted before it.
  function Named(rows: seq<ViewRow>, v: string): (names: set<string>)
    ensures v !in IdsIn(rows) || rows == [] ==> names == {}
  {
    if rows == [] then {}
    else
      var last := |rows| - 1;
      var before := rows[..last];
      assert forall r :: r in before ==> r in rows;
      assert rows[last] in rows;
      Named(before, v)
      + (if rows[last].id == v && rows[last].baseline.Some? then {rows[last].baseline.value} else {})
      + (if rows[last].id == v && last > 0 then {rows[last - 1].id} else {})
  }

  function LinksOf(databases: seq<seq<ViewRow>>): (links: Links)
    ensures forall v :: Parents(links, v) == NamedAnywhere(databases, v)
  {
    var all := set d, v | 0 <= d < |databases| && v in IdsIn(databases[d]) :: v;
    map v | v in all :: NamedAnywhere(databases, v)
  }

  function NamedAnywhere(databases: seq<seq<ViewRow>>, v: string): (names: set<string>)
    ensures (forall d :: 0 <= d < |databases| ==> v !in IdsIn(databases[d])) ==> names == {}
  {
    set d, q | 0 <= d < |databases| && q in Named(databases[d], v) :: q
  }

  // A row names its baseline and the row inserted before it.
  predicate RowNames(rows: seq<ViewRow>, i: nat, v: string, q: string) {
    && i < |rows| && rows[i].id == v
    && (rows[i].baseline == Some(q) || (i > 0 && rows[i - 1].id == q))
  }

  lemma {:induction false} NamedMeans(rows: seq<ViewRow>, v: string, q: string)
    ensures q in Named(rows, v) <==> exists i: nat :: RowNames(rows, i, v, q)
  {
    if rows != [] {
      var last := |rows| - 1;
      NamedMeans(rows[..last], v, q);
      assert forall i: nat :: i < last ==> (RowNames(rows, i, v, q) <==> RowNames(rows[..last], i, v, q));
      assert RowNames(rows, last, v, q) <==>
        rows[last].id == v && (rows[last].baseline == Some(q) || (last > 0 && rows[last - 1].id == q));
    }
  }

  /** A view's parents are its baselines and the views inserted just before it, in whatever generation. */
  lemma LinksMeans(databases: seq<seq<ViewRow>>, v: string, q: string)
    ensures q in Parents(LinksOf(databases), v) <==>
            exists d: nat, i: nat :: d < |databases| && RowNames(databases[d], i, v, q)
  {
    hide Named, RowNames;
    forall d: nat | d < |databases|
      ensures q in Named(databases[d], v) <==> exists i: nat :: RowNames(databases[d], i, v, q)
    {
      NamedMeans(databases[d], v, q);
    }
  }

  /** Within one generation rows inserted earlier come before rows inserted later. */
  lemma {:induction false} RowsInOrder(databases: seq<seq<ViewRow>>, d: nat, i: nat, j: nat)
    requires d < |databases| && i < j < |databases[d]|
    ensures Before(LinksOf(databases), databases[d][i].id, databases[d][j].id)
  {
    hide Before, LinksOf;
    var links, rows := LinksOf(databases), databases[d];
    assert RowNames(rows, j, rows[j].id, rows[j - 1].id);
    LinksMeans(databases, rows[j].id, rows[j - 1].id);
    ParentBefore(links, rows[j - 1].id, rows[j].id);
    if i < j - 1 {
      RowsInOrder(databases, d, i, j - 1);
      BeforeTransitive(links, rows[i].id, rows[j - 1].id, rows[j].id);
    }
  }

  method AddDatabase(rows: seq<ViewRow>, links: Links) returns (r: Links)
    ensures forall v :: Parents(r, v) == Parents(links, v) + Named(rows, v)
  {
    hide Named;
    r := links;
    var previous: Option<string> := None;
    var i := 0;
    forall v ensures Named(rows[..0], v) == {} {
      assert rows[..0] == [];
    }
    while i < |rows|
      invariant 0 <= i <= |rows|
      invariant previous == if i == 0 then None else Some(rows[i - 1].id)
      invariant forall v :: Parents(r, v) == Parents(links, v) + Named(rows[..i], v)
    {
      var row := rows[i];
      var parents := Parents(r, row.id);
      if row.baseline.Some? {
        parents := parents + {row.baseline.value};
      }
      if previous.Some? {
        parents := parents + {previous.value};
      }
      ghost var before := r;
      r := r[row.id := parents];
      forall v ensures Parents(r, v) == Parents(links, v) + Named(rows[..i + 1], v) {
        NamedSnoc(rows, i, v);
        assert Parents(before, v) == Parents(links, v) + Named(rows[..i], v);
      }
      previous := Some(row.id);
      i := i + 1;
    }
    assert rows[..i] == rows;
  }

  lemma NamedSnoc(rows: seq<ViewRow>, i: nat, v: string)
    requires i < |rows|
    ensures Named(rows[..i + 1], v) == Named(rows[..i], v)
      + ((if rows[i].id == v && rows[i].baseline.Some? then {rows[i].baseline.value} else {})
         + (if rows[i].id == v && i > 0 then {rows[i - 1].id} else {}))
  {
    assert rows[..i + 1][..i] == rows[..i];
  }

  /** For each requested view, everything published before it; or nothing, if one of them runs into a cycle. */
  method LegacyPredecessors(databases: seq<seq<ViewRow>>, requested: set<string>)
    returns (r: Option<map<string, set<string>>>)
    ensures r.None? <==> exists v :: v in requested && ReachesCycle(LinksOf(databases), v)
    ensures r.Some? ==> r.value.Keys == requested
    ensures r.Some? ==> forall v, a :: v in requested ==> (a in r.value[v] <==> Before(LinksOf(databases), a, v))
    ensures r.Some? ==> forall v :: v in requested ==> v !in r.value[v]
  {
    hide ReachesCycle, Before;
    var links: Links := map[];
    var d := 0;
    while d < |databases|
      invariant 0 <= d <= |databases|
      invariant forall v :: Parents(links, v) == Parents(LinksOf(databases[..d]), v)
    {
      ghost var before := links;
      links := AddDatabase(databases[d], links);
      assert databases[..d + 1] == databases[..d] + [databases[d]];
      LinksSnoc(databases[..d], databases[d]);
      d := d + 1;
    }
    assert databases[..d] == databases;
    SameParents(links, LinksOf(databases));
    var predecessors: map<string, set<string>> := map[];
    var left := requested;
    while left != {}
      invariant left <= requested && predecessors.Keys == requested - left
      invariant forall v, a :: v in predecessors ==> (a in predecessors[v] <==> Before(links, a, v))
      invariant forall v :: v in predecessors ==> v !in predecessors[v]
      invariant forall v :: v in predecessors ==> !ReachesCycle(links, v)
      decreases left
    {
      var id := TakeLeast(left);
      var ancestors := Predecessors(links, id);
      if ancestors.None? {
        return None;
      }
      predecessors := predecessors[id := ancestors.value];
      left := left - {id};
    }
    return Some(predecessors);
  }

  lemma LinksSnoc(databases: seq<seq<ViewRow>>, rows: seq<ViewRow>)
    ensures forall v :: Parents(LinksOf(databases + [rows]), v) == Parents(LinksOf(databases), v) + Named(rows, v)
  {
    var longer := databases + [rows];
    assert longer[|databases|] == rows;
    assert forall d :: 0 <= d < |databases| ==> longer[d] == databases[d];
    assert forall v :: NamedAnywhere(longer, v) == NamedAnywhere(databases, v) + Named(rows, v);
  }

  lemma SameParents(a: Links, b: Links)
    requires forall v :: Parents(a, v) == Parents(b, v)
    ensures forall x, y :: Before(a, x, y) <==> Before(b, x, y)
    ensures forall v :: ReachesCycle(a, v) <==> ReachesCycle(b, v)
  {
    forall x, y ensures Before(a, x, y) <==> Before(b, x, y) {
      if Before(a, x, y) { SamePath(a, b, x, y); }
      if Before(b, x, y) { SamePath(b, a, x, y); }
    }
    hide Before;
  }

  lemma SamePath(a: Links, b: Links, x: string, y: string)
    requires forall v :: Parents(a, v) == Parents(b, v)
    requires Before(a, x, y)
    ensures Before(b, x, y)
  {
    var p :| PathFrom(a, p, y, x);
    forall i | 0 <= i < |p| - 1 ensures Edge(b, p, i) {
      assert Edge(a, p, i);
    }
    assert PathFrom(b, p, y, x);
  }

  /** Links that agree on a set of views closed under them order those views alike. */
  lemma {:induction false} BeforeFrame(a: Links, b: Links, inside: string -> bool, x: string, p: seq<string>)
    requires forall v :: inside(v) ==> Parents(a, v) == Parents(b, v)
    requires forall v, q :: inside(v) && q in Parents(a, v) ==> inside(q)
    requires |p| >= 2 && inside(p[0]) && Path(a, p) && p[|p| - 1] == x
    ensures Before(b, x, p[0])
    decreases |p|
  {
    assert Edge(a, p, 0);
    ParentBefore(b, p[1], p[0]);
    if |p| > 2 {
      var q := p[1..];
      forall i | 0 <= i < |q| - 1 ensures Edge(a, q, i) {
        assert Edge(a, p, i + 1);
      }
      BeforeFrame(a, b, inside, x, q);
      BeforeTransitive(b, x, p[1], p[0]);
    }
  }

  // ----- how far back a view reaches

  ghost function Ancestry(links: Links, v: string): set<string> {
    set a | a in Universe(links, v) && Before(links, a, v)
  }

  lemma AncestryIsAll(links: Links, v: string)
    ensures forall a :: a in Ancestry(links, v) <==> Before(links, a, v)
  {
    forall a | Before(links, a, v) ensures a in Ancestry(links, v) {
      InUniverse(links, v, a);
    }
  }

  lemma SubsetSize(a: set<string>, b: set<string>)
    requires a <= b
    ensures |a| <= |b|
    ensures a != b ==> |a| < |b|
  {
    assert b == a + (b - a);
    assert |b| == |a| + |b - a|;
  }

  /** Without cycles, the size of a view's ancestry grows along the order of publication. */
  lemma AncestryGrows(links: Links, a: string, b: string)
    requires Before(links, a, b) && !ReachesCycle(links, b)
    ensures |Ancestry(links, a)| < |Ancestry(links, b)|
  {
    AncestryIsAll(links, a);
    AncestryIsAll(links, b);
    forall x | x in Ancestry(links, a) ensures x in Ancestry(links, b) {
      BeforeTransitive(links, x, a, b);
    }
    if a in Ancestry(links, a) {
      assert AtOrBefore(links, a, b);
    }
    SubsetSize(Ancestry(links, a), Ancestry(links, b));
  }
}
