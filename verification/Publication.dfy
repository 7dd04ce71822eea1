/**
 Publication across generations (src/store.rs `open`, `publish`): one clock for
 all of them, durable step by durable step, and what later steps leave alone.
 */
module Publication {
  import opened Wrappers
  import opened LegacyOrder
  import opened History

  datatype Generation = Generation(views: seq<View>, verified: bool)

  // Durable state, with the generation the running process has open.
  datatype State = State(
    clock: nat, generations: map<string, Generation>, current: Option<string>, live: string, replacement: bool)

  // A generation whose views later processes can find.
  predicate Durable(s: State, g: string) {
    g in s.generations && (s.generations[g].verified || s.current == Some(g))
  }

  predicate Shown(s: State, g: string) {
    g in s.generations && (g == s.live || Durable(s, g))
  }

  // The databases that a read in this state consults.
  ghost predicate Shows(s: State, dbs: seq<Database>) {
    && (forall d, e :: 0 <= d < e < |dbs| ==> dbs[d].name != dbs[e].name)
    && (forall db :: db in dbs ==> Shown(s, db.name) && db.views == s.generations[db.name].views)
    && (forall g :: Shown(s, g) ==> Database(g, s.generations[g].views) in dbs)
  }

  predicate Row(s: State, g: string, i: int) {
    g in s.generations && 0 <= i < |s.generations[g].views|
  }

  function At(s: State, g: string, i: int): View
    requires Row(s, g, i)
  {
    s.generations[g].views[i]
  }

  ghost predicate NumberedId(s: State, v: string) {
    exists g, i :: Row(s, g, i) && At(s, g, i).id == v && At(s, g, i).number.Some?
  }

  ghost predicate Mentioned(s: State, v: string) {
    exists g, i :: Row(s, g, i) && (At(s, g, i).id == v || At(s, g, i).baseline == Some(v))
  }

  // ----- steps that survive a crash

  // The clock advances before anything carries the new number.
  predicate Allocates(s: State, s': State) {
    s' == s.(clock := s.clock + 1)
  }

  ghost predicate Commits(s: State, s': State, v: View) {
    && s.live in s.generations
    && v.number == Some(s.clock)
    && (forall g, i :: Row(s, g, i) ==> At(s, g, i).number != v.number)
    && !Mentioned(s, v.id) && v.baseline != Some(v.id)
    && RanksDiffer(v.members)
    && var g := s.generations[s.live];
       s' == s.(generations := s.generations[s.live := g.(views := g.views + [v])])
  }

  predicate Verifies(s: State, s': State) {
    && s.replacement && s.live in s.generations
    && s' == s.(generations := s.generations[s.live := s.generations[s.live].(verified := true)])
  }

  predicate Selects(s: State, s': State) {
    s.replacement && Durable(s, s.live) && s' == s.(current := Some(s.live), replacement := false)
  }

  function MarkCurrent(s: State): State {
    if s.current.Some? && s.current.value in s.generations
      then s.(generations := s.generations[s.current.value := s.generations[s.current.value].(verified := true)])
    else s
  }

  // A process ends in any state; the next one opens the selected generation.
  predicate Reopens(s: State, s': State) {
    s.current.Some? && s.current.value in s.generations
    && s' == MarkCurrent(s).(live := s.current.value, replacement := false)
  }

  // Or it builds a replacement for it.
  predicate Rebuilds(s: State, s': State, g: string) {
    g !in s.generations
    && var m := MarkCurrent(s);
       s' == m.(generations := m.generations[g := Generation([], false)], live := g, replacement := true)
  }

  ghost predicate Step(s: State, s': State) {
    || Allocates(s, s')
    || (exists v :: Commits(s, s', v))
    || Verifies(s, s')
    || Selects(s, s')
    || Reopens(s, s')
    || (exists g :: Rebuilds(s, s', g))
  }

  ghost predicate Run(log: seq<State>) {
    log != [] && forall i :: 0 <= i < |log| - 1 ==> Step(log[i], log[i + 1])
  }

  // ----- what every state satisfies

  ghost predicate UniqueRows(s: State) {
    forall g, i, h, j :: Row(s, g, i) && Row(s, h, j) ==>
      (g == h && i == j) || DifferentViews(At(s, g, i), At(s, h, j))
  }

  ghost predicate DifferentViews(a: View, b: View) {
    a.id != b.id && (a.number.Some? ==> a.number != b.number)
  }

  // A generation not yet findable holds only views newer than all findable ones.
  ghost predicate HiddenIsNewest(s: State) {
    s.live in s.generations && !Durable(s, s.live) ==>
      forall i :: Row(s, s.live, i) ==>
        && At(s, s.live, i).number.Some?
        && forall g, j :: Row(s, g, j) && Durable(s, g) && At(s, g, j).number.Some? ==>
             At(s, g, j).number.value < At(s, s.live, i).number.value
  }

  ghost predicate Inv(s: State) {
    && s.live in s.generations
    && (s.current.Some? ==> s.current.value in s.generations)
    && (s.replacement <==> s.current != Some(s.live))
    && (s.replacement && s.current.Some? ==> s.generations[s.current.value].verified)
    && (forall g, i :: Row(s, g, i) && At(s, g, i).number.Some? ==> At(s, g, i).number.value <= s.clock)
    && (forall g, i :: Row(s, g, i) ==> RanksDiffer(At(s, g, i).members))
    && UniqueRows(s)
    && (forall g, i, j :: Row(s, g, i) && Row(s, g, j) && i < j && At(s, g, i).number.Some? ==>
          At(s, g, j).number.Some? && At(s, g, i).number.value < At(s, g, j).number.value)
    && (forall g, i :: Row(s, g, i) && At(s, g, i).number.None? && At(s, g, i).baseline.Some? ==>
          !NumberedId(s, At(s, g, i).baseline.value))
    && HiddenIsNewest(s)
  }

  lemma Unmentioned(s: State, id: string)
    requires !Mentioned(s, id)
    ensures forall g, i :: Row(s, g, i) ==> At(s, g, i).id != id && At(s, g, i).baseline != Some(id)
  {
  }

  // One row more, at the end of the live generation.
  lemma CommitShape(s: State, s': State, v: View) returns (n: nat)
    requires Inv(s) && Commits(s, s', v)
    ensures Row(s', s.live, n) && At(s', s.live, n) == v && !Row(s, s.live, n)
    ensures forall i :: Row(s, s.live, i) ==> i < n
    ensures forall g, i :: Row(s', g, i) <==> Row(s, g, i) || (g == s.live && i == n)
    ensures forall g, i :: Row(s, g, i) ==> At(s', g, i) == At(s, g, i)
    ensures forall g, i :: Row(s, g, i) ==> At(s, g, i).id != v.id && At(s, g, i).baseline != Some(v.id)
    ensures forall g, i :: Row(s, g, i) && At(s, g, i).number.Some? ==> At(s, g, i).number.value < s.clock
    ensures forall g :: Durable(s', g) <==> Durable(s, g)
  {
    hide UniqueRows, NumberedId, HiddenIsNewest, RanksDiffer;
    n := |s.generations[s.live].views|;
    Unmentioned(s, v.id);
  }

  lemma CommitKeepsUnique(s: State, s': State, v: View)
    requires Inv(s) && Commits(s, s', v)
    ensures UniqueRows(s') && HiddenIsNewest(s')
  {
    var n := CommitShape(s, s', v);
    hide Commits, NumberedId, RanksDiffer, Durable;
  }

  lemma CommitKeepsInv(s: State, s': State, v: View)
    requires Inv(s) && Commits(s, s', v)
    ensures Inv(s')
  {
    hide UniqueRows, HiddenIsNewest, RanksDiffer, Mentioned;
    var n := CommitShape(s, s', v);
    CommitKeepsUnique(s, s', v);
    forall g, i | Row(s', g, i) && At(s', g, i).number.None? && At(s', g, i).baseline.Some?
      ensures !NumberedId(s', At(s', g, i).baseline.value)
    {
      assert Row(s, g, i);
      assert !NumberedId(s, At(s, g, i).baseline.value);
    }
  }

  lemma SwitchKeepsInv(s: State, s': State)
    requires Inv(s)
    requires Verifies(s, s') || Selects(s, s') || Reopens(s, s')
    ensures Inv(s')
  {
    assert forall g, i :: Row(s', g, i) <==> Row(s, g, i);
    assert forall g, i :: Row(s, g, i) ==> At(s', g, i) == At(s, g, i);
    assert forall v :: NumberedId(s', v) <==> NumberedId(s, v);
  }

  lemma RebuildKeepsInv(s: State, s': State, g: string)
    requires Inv(s) && Rebuilds(s, s', g)
    ensures Inv(s')
  {
    assert forall h, i :: Row(s', h, i) <==> Row(s, h, i);
    assert forall h, i :: Row(s, h, i) ==> At(s', h, i) == At(s, h, i);
    assert forall v :: NumberedId(s', v) <==> NumberedId(s, v);
  }

  lemma StepKeepsInv(s: State, s': State)
    requires Inv(s) && Step(s, s')
    ensures Inv(s')
  {
    if v :| Commits(s, s', v) {
      CommitKeepsInv(s, s', v);
    } else if g :| Rebuilds(s, s', g) {
      RebuildKeepsInv(s, s', g);
    } else if Allocates(s, s') {
      assert forall h, i :: Row(s', h, i) <==> Row(s, h, i);
      assert forall h, i :: Row(s, h, i) ==> At(s', h, i) == At(s, h, i);
      assert forall v :: NumberedId(s', v) <==> NumberedId(s, v);
    } else {
      SwitchKeepsInv(s, s');
    }
  }

  // ----- answers outlive later steps

  // The bound is a view that later processes can still find.
  ghost predicate Retained(s: State, b: Bound) {
    && Durable(s, b.generation)
    && Row(s, b.generation, b.row)
    && At(s, b.generation, b.row).id == b.view && At(s, b.generation, b.row).number == b.number
  }

  // Whether a row belongs to an answer that the bound admits.
  ghost predicate Admitted(s: State, id: string, b: Bound, h: Hist) {
    && Durable(s, h.generation)
    && ListedIn(Database(h.generation, s.generations[h.generation].views), id, h)
    && (h.number.None? || (b.number.Some? && h.number.value <= b.number.value))
  }

  /** What is admitted lies in findable generations only. */
  lemma KeptIsAdmitted(s: State, dbs: seq<Database>, id: string, b: Bound, h: Hist)
    requires Inv(s) && Shows(s, dbs) && Retained(s, b)
    ensures Kept(dbs, id, b, h) <==> Admitted(s, id, b, h)
  {
    if Kept(dbs, id, b, h) {
      var db :| db in dbs && ListedIn(db, id, h);
      assert Row(s, db.name, h.row) && At(s, db.name, h.row).number == h.number;
    }
    if Admitted(s, id, b, h) {
      var db := Database(h.generation, s.generations[h.generation].views);
      assert Shown(s, h.generation) && db in dbs && ListedIn(db, id, h);
    }
  }

  lemma StepKeepsAdmitted(s: State, s': State, id: string, b: Bound)
    requires Inv(s) && Inv(s') && Step(s, s') && Retained(s, b)
    ensures Retained(s', b)
    ensures forall h :: Admitted(s, id, b, h) <==> Admitted(s', id, b, h)
  {
    StepGrows(s, s');
    forall h ensures Admitted(s, id, b, h) <==> Admitted(s', id, b, h) {
      if Admitted(s, id, b, h) {
        assert Row(s, h.generation, h.row);
      }
      if Admitted(s', id, b, h) {
        AdmittedBefore(s, s', id, b, h);
      }
    }
  }

  // Rows stay where they are; new ones carry a fresh number and are appended to the live generation.
  lemma StepGrows(s: State, s': State)
    requires Inv(s) && Step(s, s')
    ensures forall g, i :: Row(s, g, i) ==> Row(s', g, i) && At(s', g, i) == At(s, g, i)
    ensures forall g :: Durable(s, g) ==> Durable(s', g)
    ensures forall g, i :: Row(s', g, i) && !Row(s, g, i) ==> NewRow(s, s', g, i)
    ensures forall g, i :: Durable(s', g) && !Durable(s, g) && Row(s', g, i) ==> g == s.live && Row(s, g, i)
  {
    hide UniqueRows, NumberedId, HiddenIsNewest, RanksDiffer, Mentioned;
  }

  ghost predicate NewRow(s: State, s': State, g: string, i: int)
    requires Row(s', g, i)
  {
    && At(s', g, i).number == Some(s.clock)
    && (forall h, j :: Row(s, h, j) ==> At(s, h, j).number != Some(s.clock))
  }

  lemma AdmittedBefore(s: State, s': State, id: string, b: Bound, h: Hist)
    requires Inv(s) && Inv(s') && Step(s, s') && Retained(s, b) && Admitted(s', id, b, h)
    ensures Admitted(s, id, b, h)
  {
    StepGrows(s, s');
    hide Step, Mentioned, UniqueRows, NumberedId;
    assert Row(s', h.generation, h.row) && At(s', h.generation, h.row).number == h.number;
    assert Row(s, b.generation, b.row);
  }

  // ----- the order among legacy views outlives later steps too

  // Legacy views and names that no row has: closed under links, and never extended.
  ghost predicate Old(s: State, v: string) {
    !NumberedId(s, v)
  }

  ghost predicate OldRow(s: State, g: string, i: int, v: string) {
    Row(s, g, i) && At(s, g, i).id == v && At(s, g, i).number.None?
  }

  // What the findable generations say was published directly before `v`.
  ghost predicate NamedIn(s: State, v: string, q: string) {
    exists g, i :: Durable(s, g) && OldRow(s, g, i, v)
      && (At(s, g, i).baseline == Some(q) || (i > 0 && At(s, g, i - 1).id == q))
  }

  lemma {:induction false} NamedRow(db: Database, n: nat, v: string, q: string) returns (i: nat)
    requires n <= |db.views| && q in Named(RowsOf(db)[..n], v)
    ensures i < n && db.views[i].id == v && (db.views[i].baseline == Some(q) || (i > 0 && db.views[i - 1].id == q))
  {
    var rows := RowsOf(db)[..n];
    assert rows[..n - 1] == RowsOf(db)[..n - 1];
    if q in Named(rows[..n - 1], v) {
      i := NamedRow(db, n - 1, v, q);
    } else {
      i := n - 1;
    }
  }

  lemma {:induction false} RowNames(db: Database, n: nat, i: nat, q: string)
    requires i < n <= |db.views|
    requires db.views[i].baseline == Some(q) || (i > 0 && db.views[i - 1].id == q)
    ensures q in Named(RowsOf(db)[..n], db.views[i].id)
  {
    var rows := RowsOf(db)[..n];
    assert rows[..n - 1] == RowsOf(db)[..n - 1];
    if i < n - 1 {
      RowNames(db, n - 1, i, q);
    }
  }

  lemma OldIsDurable(s: State, g: string, i: int, v: string)
    requires Inv(s) && Old(s, v) && Shown(s, g) && Row(s, g, i) && At(s, g, i).id == v
    ensures Durable(s, g) && OldRow(s, g, i, v)
  {
    hide UniqueRows, RanksDiffer;
  }

  lemma ParentIsNamed(s: State, dbs: seq<Database>, v: string, q: string)
    requires Inv(s) && Shows(s, dbs) && Old(s, v) && q in Parents(Chain(dbs), v)
    ensures NamedIn(s, v, q)
  {
    hide Inv, Old, Durable, Shown, Named;
    var rows := AllRows(dbs);
    var d :| 0 <= d < |rows| && q in Named(rows[d], v);
    var db := dbs[d];
    assert db in dbs && RowsOf(db)[..|db.views|] == RowsOf(db);
    var i := NamedRow(db, |db.views|, v, q);
    assert db.name in s.generations by { ShownExists(s, db.name); }
    OldIsDurable(s, db.name, i, v);
    assert At(s, db.name, i) == db.views[i];
    assert i > 0 ==> At(s, db.name, i - 1) == db.views[i - 1];
  }

  lemma ShownExists(s: State, g: string)
    requires Shown(s, g)
    ensures g in s.generations
  {
  }

  lemma NamedIsParent(s: State, dbs: seq<Database>, v: string, q: string)
    requires Shows(s, dbs) && NamedIn(s, v, q)
    ensures q in Parents(Chain(dbs), v)
  {
    var g, i :| Durable(s, g) && OldRow(s, g, i, v)
      && (At(s, g, i).baseline == Some(q) || (i > 0 && At(s, g, i - 1).id == q));
    var db := Database(g, s.generations[g].views);
    assert Shown(s, g) && db in dbs;
    var d :| 0 <= d < |dbs| && dbs[d] == db;
    RowNames(db, |db.views|, i, q);
    assert RowsOf(db)[..|db.views|] == RowsOf(db);
    assert q in Named(AllRows(dbs)[d], v);
  }

  lemma ParentsAreNamed(s: State, dbs: seq<Database>, v: string)
    requires Inv(s) && Shows(s, dbs) && Old(s, v)
    ensures forall q :: q in Parents(Chain(dbs), v) <==> NamedIn(s, v, q)
  {
    forall q ensures q in Parents(Chain(dbs), v) <==> NamedIn(s, v, q) {
      if q in Parents(Chain(dbs), v) { ParentIsNamed(s, dbs, v, q); }
      if NamedIn(s, v, q) { NamedIsParent(s, dbs, v, q); }
    }
  }

  lemma UniqueId(s: State, g: string, i: int, h: string, j: int)
    requires UniqueRows(s) && Row(s, g, i) && Row(s, h, j) && At(s, g, i).id == At(s, h, j).id
    ensures g == h && i == j
  {
  }

  lemma NamedIsOld(s: State, v: string, q: string)
    requires Inv(s) && NamedIn(s, v, q)
    ensures Old(s, q)
  {
    var g, i :| Durable(s, g) && OldRow(s, g, i, v)
      && (At(s, g, i).baseline == Some(q) || (i > 0 && At(s, g, i - 1).id == q));
    if At(s, g, i).baseline != Some(q) {
      assert Row(s, g, i - 1);
      RowIsOld(s, g, i - 1);
    }
  }

  lemma RowIsOld(s: State, g: string, i: int)
    requires UniqueRows(s) && Row(s, g, i) && At(s, g, i).number.None?
    ensures Old(s, At(s, g, i).id)
  {
    forall h, j | Row(s, h, j) && At(s, h, j).id == At(s, g, i).id ensures At(s, h, j).number.None? {
      UniqueId(s, g, i, h, j);
    }
  }

  lemma NumberedGrows(s: State, s': State, v: string)
    requires Inv(s) && Step(s, s') && NumberedId(s, v)
    ensures NumberedId(s', v)
  {
    StepGrows(s, s');
    var g, i :| Row(s, g, i) && At(s, g, i).id == v && At(s, g, i).number.Some?;
    assert Row(s', g, i);
  }

  lemma StepKeepsNamed(s: State, s': State, v: string)
    requires Inv(s) && Inv(s') && Step(s, s') && Old(s', v)
    ensures Old(s, v)
    ensures forall q :: NamedIn(s, v, q) <==> NamedIn(s', v, q)
  {
    StepGrows(s, s');
    hide Step, UniqueRows, Mentioned, RanksDiffer;
    if NumberedId(s, v) {
      NumberedGrows(s, s', v);
    }
    forall q | NamedIn(s, v, q) ensures NamedIn(s', v, q) {
      var g, i :| Durable(s, g) && OldRow(s, g, i, v)
        && (At(s, g, i).baseline == Some(q) || (i > 0 && At(s, g, i - 1).id == q));
      assert OldRow(s', g, i, v);
      if i > 0 { assert Row(s, g, i - 1); }
    }
    forall q | NamedIn(s', v, q) ensures NamedIn(s, v, q) {
      var g, i :| Durable(s', g) && OldRow(s', g, i, v)
        && (At(s', g, i).baseline == Some(q) || (i > 0 && At(s', g, i - 1).id == q));
      assert Row(s, g, i);
      assert OldRow(s, g, i, v);
      if i > 0 { assert Row(s', g, i - 1) && Row(s, g, i - 1); }
    }
  }

  lemma StepKeepsOrder(s: State, s': State, dbs: seq<Database>, dbs': seq<Database>, x: string, y: string)
    requires Inv(s) && Inv(s') && Step(s, s') && Shows(s, dbs) && Shows(s', dbs')
    requires Old(s', y)
    ensures Before(Chain(dbs), x, y) <==> Before(Chain(dbs'), x, y)
    ensures Before(Chain(dbs), x, y) ==> Old(s', x)
  {
    var inside := v => Old(s', v);
    var a, b := Chain(dbs), Chain(dbs');
    forall v | inside(v)
      ensures Parents(a, v) == Parents(b, v) && forall q :: q in Parents(a, v) ==> inside(q)
    {
      StepKeepsNamed(s, s', v);
      ParentsAreNamed(s, dbs, v);
      ParentsAreNamed(s', dbs', v);
      forall q | q in Parents(a, v) ensures inside(q) {
        NamedIsOld(s', v, q);
      }
    }
    hide Old, Chain, Inv, Step;
    if Before(a, x, y) {
      var p :| PathFrom(a, p, y, x);
      BeforeFrame(a, b, inside, x, p);
      PathInside(a, inside, p, |p| - 1);
    }
    if Before(b, x, y) {
      var p :| PathFrom(b, p, y, x);
      BeforeFrame(b, a, inside, x, p);
    }
  }

  lemma {:induction false} PathInside(links: Links, inside: string -> bool, p: seq<string>, k: nat)
    requires forall v, q :: inside(v) && q in Parents(links, v) ==> inside(q)
    requires p != [] && inside(p[0]) && Path(links, p) && k < |p|
    ensures inside(p[k])
  {
    if k > 0 {
      PathInside(links, inside, p, k - 1);
      assert Edge(links, p, k - 1);
    }
  }

  lemma RequestedIsOld(s: State, dbs: seq<Database>, id: string, b: Bound, y: string)
    requires Inv(s) && Shows(s, dbs) && Retained(s, b) && Requested(dbs, id, b, y)
    ensures Old(s, y)
  {
    var g: string, i: int;
    if b.number.None? && y == b.view {
      g, i := b.generation, b.row;
    } else {
      var h :| Listed(dbs, id, h) && h.number.None? && h.view == y;
      var db :| db in dbs && ListedIn(db, id, h);
      g, i := db.name, h.row;
    }
    assert Row(s, g, i) && At(s, g, i).id == y && At(s, g, i).number.None?;
    if NumberedId(s, y) {
      var h, j :| Row(s, h, j) && At(s, h, j).id == y && At(s, h, j).number.Some?;
      UniqueId(s, g, i, h, j);
    }
  }

  /** One step leaves every answer about a retained view as it was. */
  lemma StepFrames(s: State, s': State, dbs: seq<Database>, dbs': seq<Database>, id: string, b: Bound)
    requires Inv(s) && Step(s, s') && Retained(s, b) && Shows(s, dbs) && Shows(s', dbs')
    ensures Inv(s') && Retained(s', b) && Framed(dbs, dbs', id, b)
  {
    StepKeepsInv(s, s');
    StepKeepsAdmitted(s, s', id, b);
    forall h ensures Kept(dbs, id, b, h) <==> Kept(dbs', id, b, h) {
      KeptIsAdmitted(s, dbs, id, b, h);
      KeptIsAdmitted(s', dbs', id, b, h);
    }
    SameMixed(dbs, dbs', id, b);
    forall y | Requested(dbs, id, b, y)
      ensures forall x :: Before(Chain(dbs), x, y) <==> Before(Chain(dbs'), x, y)
      ensures ReachesCycle(Chain(dbs), y) <==> ReachesCycle(Chain(dbs'), y)
    {
      RequestedIsOld(s', dbs', id, b, y);
      SameOrder(s, s', dbs, dbs', y);
    }
  }

  lemma SameOrder(s: State, s': State, dbs: seq<Database>, dbs': seq<Database>, y: string)
    requires Inv(s) && Inv(s') && Step(s, s') && Shows(s, dbs) && Shows(s', dbs') && Old(s', y)
    ensures forall x :: Before(Chain(dbs), x, y) <==> Before(Chain(dbs'), x, y)
    ensures ReachesCycle(Chain(dbs), y) <==> ReachesCycle(Chain(dbs'), y)
  {
    forall x, z | Old(s', z)
      ensures Before(Chain(dbs), x, z) <==> Before(Chain(dbs'), x, z)
      ensures Before(Chain(dbs), x, z) ==> Old(s', x)
    {
      StepKeepsOrder(s, s', dbs, dbs', x, z);
    }
    hide Before, Chain, Old, Inv, Step, Shows;
  }

  lemma FramedTransitive(a: seq<Database>, b: seq<Database>, c: seq<Database>, id: string, bound: Bound)
    requires Framed(a, b, id, bound) && Framed(b, c, id, bound)
    ensures Framed(a, c, id, bound)
  {
    SameMixed(a, b, id, bound);
    hide Kept, Before, ReachesCycle, Requested;
  }

  ghost function Listing(s: State, names: set<string>): (dbs: seq<Database>)
    requires forall g :: g in names ==> g in s.generations
    ensures forall db :: db in dbs <==> db.name in names && db.views == s.generations[db.name].views
    ensures forall d, e :: 0 <= d < e < |dbs| ==> dbs[d].name != dbs[e].name
  {
    if names == {} then []
    else
      var g :| g in names;
      [Database(g, s.generations[g].views)] + Listing(s, names - {g})
  }

  lemma SomeListing(s: State) returns (dbs: seq<Database>)
    ensures Shows(s, dbs)
  {
    dbs := Listing(s, set g | g in s.generations && Shown(s, g));
  }

  /** What a reachable state shows has no two rows alike, as reading history takes for granted. */
  lemma ShownIsSound(s: State, dbs: seq<Database>)
    requires Inv(s) && Shows(s, dbs)
    ensures Sound(dbs)
  {
    hide HiddenIsNewest, NumberedId, RanksDiffer;
    forall d, e, i, j | 0 <= d < |dbs| && 0 <= e < |dbs| && 0 <= i < |dbs[d].views| && 0 <= j < |dbs[e].views|
      ensures SameRow(dbs, d, i, e, j) || RowsDiffer(dbs, d, i, e, j)
    {
      assert dbs[d] in dbs && dbs[e] in dbs;
      assert Row(s, dbs[d].name, i) && Row(s, dbs[e].name, j);
    }
    forall d, i | 0 <= d < |dbs| && 0 <= i < |dbs[d].views| ensures RanksDiffer(dbs[d].views[i].members) {
      assert dbs[d] in dbs && Row(s, dbs[d].name, i);
    }
  }

  /**
   History is stable: for any view that later processes can still find, every
   later state of any run, with its aborted publications, replacement generations
   and crashes, gives the same answer or fails for want of the same order.
   */
  lemma {:induction false} HistoryStable(log: seq<State>, i: nat, j: nat, dbs: seq<Database>, dbs': seq<Database>,
                                         id: string, b: Bound, r: seq<Hist>, r': seq<Hist>)
    requires Run(log) && i <= j < |log| && Inv(log[i]) && Retained(log[i], b)
    requires Shows(log[i], dbs) && Shows(log[j], dbs')
    ensures Retained(log[j], b)
    ensures OrderMissing(dbs, id, b) <==> OrderMissing(dbs', id, b)
    ensures IsHistory(dbs, id, b, r) && IsHistory(dbs', id, b, r') ==> r == r'
  {
    RunFrames(log, i, j, dbs, dbs', id, b);
    FramedHistory(dbs, dbs', id, b, r, r');
  }

  lemma {:induction false} RunFrames(log: seq<State>, i: nat, j: nat, dbs: seq<Database>, dbs': seq<Database>,
                                     id: string, b: Bound)
    requires Run(log) && i <= j < |log| && Inv(log[i]) && Retained(log[i], b)
    requires Shows(log[i], dbs) && Shows(log[j], dbs')
    ensures Inv(log[j]) && Retained(log[j], b) && Framed(dbs, dbs', id, b)
    decreases j - i
  {
    hide Framed, Step, Shows, Inv, Retained;
    if i == j {
      SameListing(log[i], dbs, dbs', id, b);
    } else {
      var mid := SomeListing(log[i + 1]);
      StepFrames(log[i], log[i + 1], dbs, mid, id, b);
      RunFrames(log, i + 1, j, mid, dbs', id, b);
      FramedTransitive(dbs, mid, dbs', id, b);
    }
  }

  lemma SameListing(s: State, dbs: seq<Database>, dbs': seq<Database>, id: string, b: Bound)
    requires Inv(s) && Retained(s, b) && Shows(s, dbs) && Shows(s, dbs')
    ensures Framed(dbs, dbs', id, b)
  {
    forall h ensures Kept(dbs, id, b, h) <==> Kept(dbs', id, b, h) {
      KeptIsAdmitted(s, dbs, id, b, h);
      KeptIsAdmitted(s, dbs', id, b, h);
    }
    var links, links' := Chain(dbs), Chain(dbs');
    forall v ensures Parents(links, v) == Parents(links', v) {
      SameNames(dbs, dbs', v);
      SameNames(dbs', dbs, v);
    }
    SameParents(links, links');
  }

  lemma SameNames(dbs: seq<Database>, dbs': seq<Database>, v: string)
    requires forall db :: db in dbs ==> db in dbs'
    ensures Parents(Chain(dbs), v) <= Parents(Chain(dbs'), v)
  {
    forall q | q in Parents(Chain(dbs), v) ensures q in Parents(Chain(dbs'), v) {
      var d :| 0 <= d < |dbs| && q in Named(AllRows(dbs)[d], v);
      assert dbs[d] in dbs;
      var e :| 0 <= e < |dbs'| && dbs'[e] == dbs[d];
      assert AllRows(dbs')[e] == RowsOf(dbs[d]);
    }
  }

  lemma {:induction false} RunKeepsInv(log: seq<State>, k: nat)
    requires Run(log) && Inv(log[0]) && k < |log|
    ensures Inv(log[k])
  {
    if k > 0 {
      RunKeepsInv(log, k - 1);
      StepKeepsInv(log[k - 1], log[k]);
    }
  }

  class Store {
    var clock: nat
    var generations: map<string, Generation>
    var current: Option<string>
    var live: string
    var replacement: bool
    ghost var log: seq<State>

    function Now(): State
      reads this
    {
      State(clock, generations, current, live, replacement)
    }

    // The log holds every durable state, in order, and this is the last of them.
    ghost predicate Valid()
      reads this
    {
      Run(log) && log[|log| - 1] == Now() && Inv(Now())
    }

    // The first process finds no generation and builds one.
    constructor (first: string)
      ensures Valid() && Now() == State(0, map[first := Generation([], false)], None, first, true) && log == [Now()]
    {
      clock, generations, current, live, replacement := 0, map[first := Generation([], false)], None, first, true;
      log := [State(0, map[first := Generation([], false)], None, first, true)];
    }

    // Every write goes through here: the new state follows from the last by one step.
    ghost method Record()
      requires Run(log) && Inv(log[|log| - 1]) && Step(log[|log| - 1], Now())
      modifies this`log
      ensures Valid() && log == old(log) + [Now()]
    {
      StepKeepsInv(log[|log| - 1], Now());
      log := log + [Now()];
      forall i | 0 <= i < |log| - 1 ensures Step(log[i], log[i + 1]) {
        if i < |log| - 2 {
          assert Step(old(log)[i], old(log)[i + 1]);
        }
      }
    }

    // A new process, after an orderly end or a crash.
    method Open(rebuild: bool, name: string)
      requires Valid() && name !in generations
      modifies this
      ensures Valid() && |log| == |old(log)| + 1 && old(log) <= log && clock == old(clock)
      ensures !rebuild && old(current).Some? ==> live == old(current).value && !replacement && current == old(current)
      ensures rebuild || old(current).None? ==> live == name && replacement && generations[name].views == []
      ensures forall g :: g in old(generations) ==>
        g in generations && generations[g].views == old(generations)[g].views
    {
      ghost var before := Now();
      var marked := MarkCurrent(Now());
      generations := marked.generations;
      if current.Some? && !rebuild {
        live, replacement := current.value, false;
        assert Reopens(before, Now());
      } else {
        generations := generations[name := Generation([], false)];
        live, replacement := name, true;
        assert Rebuilds(before, Now(), name);
      }
      Record();
    }

    /**
     Publishes one view. The clock moves first, so an aborted publication leaves a
     gap and never a number that could be given twice or out of order.
     */
    method Publish(id: string, baseline: Option<string>, members: seq<Occurrence>, forgotten: set<string>,
                   sourcesUnchanged: bool, healthy: bool)
      returns (r: Result<nat, string>)
      requires Valid() && !Mentioned(Now(), id) && baseline != Some(id) && RanksDiffer(members)
      modifies this
      ensures Valid() && old(log) <= log
      ensures (exists m :: m in members && m.item in forgotten) <==> r == Err("forgotten_identity")
      ensures r == Err("forgotten_identity") ==> Now() == old(Now()) && log == old(log)
      ensures r == Err("source_race") <==> r != Err("forgotten_identity") && !sourcesUnchanged
      ensures r == Err("source_race") ==> Now() == old(Now()).(clock := old(clock) + 1)
      ensures r == Err("repair_failed") <==>
        r != Err("forgotten_identity") && sourcesUnchanged && old(replacement) && !healthy
      ensures r.Err? ==> r.error in {"forgotten_identity", "source_race", "repair_failed"}
      ensures r == Err("repair_failed") ==>
        && old(replacement) && live == old(live) && current == old(current) && clock == old(clock) + 1
        && generations[live].views == old(generations[live].views) + [View(id, baseline, Some(clock), members)]
        && (Durable(Now(), live) <==> old(Durable(Now(), live)))
      ensures r.Ok? ==>
        && r.value == clock == old(clock) + 1
        && (forall g, i :: Row(old(Now()), g, i) && At(old(Now()), g, i).number.Some? ==>
            At(old(Now()), g, i).number.value < r.value)
        && generations[live].views == old(generations[live].views) + [View(id, baseline, Some(r.value), members)]
        && Durable(Now(), live) && current == Some(live) && !replacement
    {
      hide Run, UniqueRows, HiddenIsNewest, RanksDiffer;
      if exists m :: m in members && m.item in forgotten {
        return Err("forgotten_identity");
      }
      ghost var start := Now();
      clock := clock + 1;
      assert Allocates(start, Now());
      Record();
      if !sourcesUnchanged {
        return Err("source_race");
      }
      Insert(View(id, baseline, Some(clock), members), start);
      if replacement {
        if !healthy {
          return Err("repair_failed");
        }
        Select();
      }
      return Ok(clock);
    }

    // The index transaction.
    method Insert(view: View, ghost start: State)
      requires Valid() && Inv(start) && Now() == start.(clock := start.clock + 1) && view.number == Some(clock)
      requires !Mentioned(start, view.id) && view.baseline != Some(view.id) && RanksDiffer(view.members)
      modifies this
      ensures Valid() && old(log) <= log
      ensures var g := start.generations[start.live];
        Now() == start.(clock := start.clock + 1,
                        generations := start.generations[start.live := g.(views := g.views + [view])])
      ensures forall g, i :: Row(start, g, i) && At(start, g, i).number.Some? ==> At(start, g, i).number.value < clock
    {
      hide UniqueRows, HiddenIsNewest, RanksDiffer, Run;
      ghost var numbered := Now();
      assert forall g, i :: Row(numbered, g, i) <==> Row(start, g, i);
      assert forall g, i :: Row(start, g, i) ==> At(numbered, g, i) == At(start, g, i);
      var g := generations[live];
      generations := generations[live := g.(views := g.views + [view])];
      StillUnmentioned(start, numbered, view.id);
      hide Mentioned;
      assert Commits(numbered, Now(), view);
      Record();
    }

    // A checked replacement becomes findable, and then the selected generation.
    method Select()
      requires Valid() && replacement
      modifies this
      ensures Valid() && old(log) <= log
      ensures current == Some(live) && !replacement && live == old(live) && clock == old(clock) && Durable(Now(), live)
      ensures generations == old(generations)[live := old(generations)[live].(verified := true)]
    {
      hide Run, UniqueRows, HiddenIsNewest, RanksDiffer;
      ghost var committed := Now();
      generations := generations[live := generations[live].(verified := true)];
      assert Verifies(committed, Now());
      Record();
      ghost var verified := Now();
      current, replacement := Some(live), false;
      assert Selects(verified, Now());
      Record();
    }
  }

  lemma StillUnmentioned(s: State, s': State, id: string)
    requires !Mentioned(s, id) && s'.generations == s.generations
    ensures !Mentioned(s', id)
  {
    if Mentioned(s', id) {
      var g, i :| Row(s', g, i) && (At(s', g, i).id == id || At(s', g, i).baseline == Some(id));
      assert Row(s, g, i);
    }
  }
}
