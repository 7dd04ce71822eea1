/**
 What may stand in a view once tombstones have been applied (src/records.rs `Item::new`,
 src/reconcile.rs `snapshot`, src/store.rs `publish`): rows say what their names say, a
 purge leaves none that a tombstone matches, and later publications have been tested.
 */
module Admission {
  import opened Wrappers
  import opened Tombstones
  import opened Percent
  import opened Forgetting
  import opened Purge

  // ----- what is captured

  // An item's time is that of its record, which the payload repeats, or that of the entry it was read from.
  datatype Clock = OfRecord(time: Option<string>) | OfEntry(time: Option<string>)

  datatype Item = Item(
    id: string, source: string, version: string, payloadTime: Option<string>,
    observation: string, recordedAt: Option<string>)

  function Captured(project: string, source: string, native: string, clock: Clock, version: string,
                    observation: string): Item {
    Item(ItemId(project, source, native), source, version, if clock.OfRecord? then clock.time else None,
         observation, clock.time)
  }

  // A version is named by the digest of its identity and payload, and an observation by a name of
  // its own; so a name tells what it stands for.
  datatype Names = Names(version: string -> VersionRow, observation: string -> ObservationRow)

  // The source is the third field of the identity, and where the payload has a time it is the item's.
  predicate Named(w: Names, it: Item) {
    && it.source == ThirdField(it.id)
    && w.version(it.version) == VersionRow(it.id, it.payloadTime)
    && w.observation(it.observation) == ObservationRow(it.version, it.recordedAt)
    && OrElse(it.payloadTime, it.recordedAt) == it.recordedAt
  }

  /** Whatever is captured says one source and one time, wherever they are looked up. */
  lemma CapturedIsNamed(w: Names, project: string, source: string, native: string, clock: Clock, version: string,
                        observation: string)
    requires ':' !in project && ':' !in source
    requires var it := Captured(project, source, native, clock, version, observation);
      && w.version(version) == VersionRow(it.id, it.payloadTime)
      && w.observation(observation) == ObservationRow(version, it.recordedAt)
    ensures Named(w, Captured(project, source, native, clock, version, observation))
  {
    hide ItemId;
    IdentityDetermines(project, source, native, project, source, native);
  }

  // What `evaluate` makes of an item; the rest of a member plays no part here.
  datatype Member = Member(item: Item, required: bool)

  // The rows that a publication inserts.
  function BatchOf(view: string, items: seq<Item>, members: seq<Member>, relations: set<Relation>): Batch {
    if items != [] then
      var b, it := BatchOf(view, items[..|items| - 1], members, relations), items[|items| - 1];
      b.(items := b.items[it.id := it.source],
         versions := b.versions[it.version := VersionRow(it.id, it.payloadTime)],
         observations := b.observations[it.observation := ObservationRow(it.version, it.recordedAt)])
    else if members != [] then
      var b, it := BatchOf(view, [], members[..|members| - 1], relations), members[|members| - 1].item;
      b.(observations := b.observations[it.observation := ObservationRow(it.version, it.recordedAt)],
         viewItems := b.viewItems + {ViewItem(view, it.id, it.version, it.observation)})
    else Batch(map[], map[], map[], {}, relations)
  }

  // ----- rows that say what their names say

  predicate FiledItems(items: map<string, string>) {
    forall i :: i in items ==> items[i] == ThirdField(i)
  }

  predicate FiledVersions(w: Names, versions: map<string, VersionRow>) {
    forall v :: v in versions ==> versions[v] == w.version(v)
  }

  predicate Timed(w: Names, o: string) {
    var row := w.observation(o);
    OrElse(w.version(row.version).recordedAt, row.recordedAt) == row.recordedAt
  }

  predicate FiledObservations(w: Names, observations: map<string, ObservationRow>) {
    forall o :: o in observations ==> observations[o] == w.observation(o) && Timed(w, o)
  }

  predicate Linked(w: Names, m: ViewItem) {
    w.observation(m.observation).version == m.version && w.version(m.version).item == m.item
  }

  predicate Filed(w: Names, ix: Index) {
    && FiledItems(ix.items) && FiledVersions(w, ix.versions) && FiledObservations(w, ix.observations)
    && forall m :: m in ix.viewItems ==> Linked(w, m)
  }

  predicate FiledBatch(w: Names, b: Batch) {
    && FiledItems(b.items) && FiledVersions(w, b.versions) && FiledObservations(w, b.observations)
    && forall m :: m in b.viewItems ==> Linked(w, m)
  }

  ghost predicate AllFiled(w: Names, s: Disk) {
    forall g :: g in s.indexes ==> Filed(w, s.indexes[g])
  }

  // The time of a membership is that of its observation.
  predicate Shut(w: Names, time: ParseTime, ts: seq<Tombstone>, m: ViewItem) {
    ExcludesId(time, ts, m.item, w.observation(m.observation).recordedAt)
  }

  // No membership in any generation is matched by a tombstone.
  ghost predicate Clear(w: Names, time: ParseTime, ts: seq<Tombstone>, s: Disk) {
    forall g, m :: g in s.indexes && m in s.indexes[g].viewItems ==> !Shut(w, time, ts, m)
  }

  // What reconciling lets through: each item is tested by its own time.
  predicate Admitted(time: ParseTime, ts: seq<Tombstone>, it: Item) {
    !AnyMatch(time, ts, it.id, it.source, it.recordedAt)
  }

  // ----- publications of captured items

  datatype Publication = Publication(view: string, items: seq<Item>, members: seq<Member>, relations: set<Relation>)

  predicate Sound(w: Names, p: Publication) {
    && (forall it :: it in p.items ==> Named(w, it))
    && (forall m :: m in p.members ==> m.item in p.items)
  }

  predicate Tested(time: ParseTime, ts: seq<Tombstone>, p: Publication) {
    forall it :: it in p.items ==> Admitted(time, ts, it)
  }

  function Rows(p: Publication): Batch {
    BatchOf(p.view, p.items, p.members, p.relations)
  }

  // The rows of the items and members given, each with what it says, and no others.
  ghost predicate Holds(b: Batch, view: string, items: seq<Item>, members: seq<Member>) {
    && (forall i :: i in b.items <==> exists it :: it in items && it.id == i)
    && (forall v :: v in b.versions <==> exists it :: it in items && it.version == v)
    && (forall o :: o in b.observations <==>
          (exists it :: it in items && it.observation == o) || exists m :: m in members && m.item.observation == o)
    && (forall row :: row in b.viewItems <==> exists m :: m in members && IsMembership(view, m, row))
  }

  predicate IsMembership(view: string, m: Member, row: ViewItem) {
    row == ViewItem(view, m.item.id, m.item.version, m.item.observation)
  }

  lemma {:induction false} MembersHold(view: string, members: seq<Member>, relations: set<Relation>)
    ensures Holds(BatchOf(view, [], members, relations), view, [], members)
  {
    if members != [] {
      var most, m := members[..|members| - 1], members[|members| - 1];
      MembersHold(view, most, relations);
      var b, was := BatchOf(view, [], members, relations), BatchOf(view, [], most, relations);
      assert forall x :: x in members <==> x in most || x == m;
      forall row ensures row in b.viewItems <==> exists x :: x in members && IsMembership(view, x, row) {
        assert row in b.viewItems <==> row in was.viewItems || IsMembership(view, m, row);
      }
    }
  }

  lemma {:induction false} BatchHolds(view: string, items: seq<Item>, members: seq<Member>, relations: set<Relation>)
    ensures Holds(BatchOf(view, items, members, relations), view, items, members)
  {
    hide IsMembership;
    if items != [] {
      var most, it := items[..|items| - 1], items[|items| - 1];
      BatchHolds(view, most, members, relations);
      assert forall x :: x in items <==> x in most || x == it;
    } else {
      MembersHold(view, members, relations);
    }
  }

  lemma {:induction false} BatchRelations(view: string, items: seq<Item>, members: seq<Member>,
                                          relations: set<Relation>)
    ensures BatchOf(view, items, members, relations).relations == relations
  {
    if items != [] {
      BatchRelations(view, items[..|items| - 1], members, relations);
    } else if members != [] {
      BatchRelations(view, [], members[..|members| - 1], relations);
    }
  }

  /**
   A publication of captured items inserts a row for each item, version and observation it has, which says what
   its name says, a membership in its own view for each member, and nothing else.
   */
  lemma PublicationHolds(w: Names, p: Publication)
    requires Sound(w, p)
    ensures Holds(Rows(p), p.view, p.items, p.members) && Rows(p).relations == p.relations
    ensures FiledBatch(w, Rows(p))
  {
    hide Holds, FiledBatch;
    BatchHolds(p.view, p.items, p.members, p.relations);
    BatchRelations(p.view, p.items, p.members, p.relations);
    BatchIsFiled(w, p.view, p.items, p.members, p.relations);
  }

  lemma {:induction false} BatchIsFiled(w: Names, view: string, items: seq<Item>, members: seq<Member>,
                                        relations: set<Relation>)
    requires (forall it :: it in items ==> Named(w, it)) && forall m :: m in members ==> Named(w, m.item)
    ensures FiledBatch(w, BatchOf(view, items, members, relations))
  {
    if items != [] {
      assert items[|items| - 1] in items && forall it :: it in items[..|items| - 1] ==> it in items;
      BatchIsFiled(w, view, items[..|items| - 1], members, relations);
    } else if members != [] {
      assert members[|members| - 1] in members && forall m :: m in members[..|members| - 1] ==> m in members;
      BatchIsFiled(w, view, [], members[..|members| - 1], relations);
    }
  }

  lemma {:induction false} BatchIsClear(w: Names, time: ParseTime, ts: seq<Tombstone>, view: string, items: seq<Item>,
                                        members: seq<Member>, relations: set<Relation>)
    requires forall m :: m in members ==> Named(w, m.item) && Admitted(time, ts, m.item)
    ensures forall m :: m in BatchOf(view, items, members, relations).viewItems ==> !Shut(w, time, ts, m)
    decreases |items|, |members|
  {
    hide AnyMatch;
    if items != [] {
      BatchIsClear(w, time, ts, view, items[..|items| - 1], members, relations);
    } else if members != [] {
      assert members[|members| - 1] in members && forall m :: m in members[..|members| - 1] ==> m in members;
      BatchIsClear(w, time, ts, view, [], members[..|members| - 1], relations);
    }
  }

  // ----- runs

  // A durable step whose publications are of captured items.
  ghost predicate CaptureDoes(w: Names, s: Disk, s': Disk, e: Event) {
    Does(s, s', e) && (e.Publish? ==> exists p :: Sound(w, p) && e.batch == Rows(p))
  }

  ghost predicate CaptureStep(w: Names, s: Disk, s': Disk) {
    exists e :: CaptureDoes(w, s, s', e)
  }

  // The same, its publications tested with the tombstones at hand.
  ghost predicate TestedDoes(w: Names, time: ParseTime, ts: seq<Tombstone>, s: Disk, s': Disk, e: Event) {
    Does(s, s', e) && (e.Publish? ==> exists p :: Sound(w, p) && Tested(time, ts, p) && e.batch == Rows(p))
  }

  ghost predicate TestedStep(w: Names, time: ParseTime, ts: seq<Tombstone>, s: Disk, s': Disk) {
    exists e :: TestedDoes(w, time, ts, s, s', e)
  }

  ghost predicate CaptureRun(w: Names, log: seq<Disk>) {
    log != [] && forall i :: 0 <= i < |log| - 1 ==> CaptureStep(w, log[i], log[i + 1])
  }

  ghost predicate TestedRun(w: Names, time: ParseTime, ts: seq<Tombstone>, log: seq<Disk>) {
    log != [] && forall i :: 0 <= i < |log| - 1 ==> TestedStep(w, time, ts, log[i], log[i + 1])
  }

  // How rows change: they go, or the batch of a publication comes.
  lemma DoesRows(s: Disk, s': Disk, e: Event, g: string)
    requires Does(s, s', e) && g in s'.indexes
    ensures var old' := if g in s.indexes then s.indexes[g] else EMPTY_INDEX;
      var ix := s'.indexes[g];
      if e.Publish? && e.generation == g then ix == Inserted(old', e.batch)
      else
        && (forall i :: i in ix.items ==> i in old'.items && ix.items[i] == old'.items[i])
        && (forall v :: v in ix.versions ==> v in old'.versions && ix.versions[v] == old'.versions[v])
        && (forall o :: o in ix.observations ==> o in old'.observations && ix.observations[o] == old'.observations[o])
        && ix.viewItems <= old'.viewItems
  {
    hide Pending, MarkPending, MarkComplete, Consistent, NoCaches, Carries, Inserted;
  }

  lemma InsertedIsFiled(w: Names, ix: Index, b: Batch)
    requires Filed(w, ix) && FiledBatch(w, b)
    ensures Filed(w, Inserted(ix, b))
  {
    hide Timed, Linked, Field;
  }

  lemma CaptureKeepsFiled(w: Names, s: Disk, s': Disk, e: Event)
    requires AllFiled(w, s) && CaptureDoes(w, s, s', e)
    ensures AllFiled(w, s')
  {
    hide Does, Inserted, Filed, FiledBatch;
    forall g | g in s'.indexes ensures Filed(w, s'.indexes[g]) {
      DoesRows(s, s', e, g);
      EmptyIsFiled(w);
      if e.Publish? && e.generation == g {
        var p :| Sound(w, p) && e.batch == Rows(p);
        BatchIsFiled(w, p.view, p.items, p.members, p.relations);
        InsertedIsFiled(w, if g in s.indexes then s.indexes[g] else EMPTY_INDEX, e.batch);
      } else {
        FewerIsFiled(w, if g in s.indexes then s.indexes[g] else EMPTY_INDEX, s'.indexes[g]);
      }
    }
  }

  lemma EmptyIsFiled(w: Names)
    ensures Filed(w, EMPTY_INDEX)
  {
  }

  lemma FewerIsFiled(w: Names, ix: Index, ix': Index)
    requires Filed(w, ix)
    requires forall i :: i in ix'.items ==> i in ix.items && ix'.items[i] == ix.items[i]
    requires forall v :: v in ix'.versions ==> v in ix.versions && ix'.versions[v] == ix.versions[v]
    requires forall o :: o in ix'.observations ==> o in ix.observations && ix'.observations[o] == ix.observations[o]
    requires ix'.viewItems <= ix.viewItems
    ensures Filed(w, ix')
  {
    hide Timed, Linked, Field;
  }

  /** In every state of a run whose publications are of captured items, rows say what their names say. */
  lemma {:induction false} RunStaysFiled(w: Names, log: seq<Disk>, k: nat)
    requires CaptureRun(w, log) && Inv(log[0]) && AllFiled(w, log[0]) && k < |log|
    ensures Inv(log[k]) && AllFiled(w, log[k])
  {
    hide Does, Inv, AllFiled;
    if k > 0 {
      RunStaysFiled(w, log, k - 1);
      assert CaptureStep(w, log[k - 1], log[(k - 1) + 1]);
      var e :| CaptureDoes(w, log[k - 1], log[k], e);
      CaptureKeepsFiled(w, log[k - 1], log[k], e);
      DoesKeepsInv(log[k - 1], log[k], e);
    }
  }

  // ----- what a purge leaves

  /** After a purge no row that any generation shows is matched by the tombstones applied. */
  lemma AppliedMatchesNothing(time: ParseTime, ts: seq<Tombstone>, s: Disk, s': Disk, g: string, r: JoinRow)
    requires Inv(s) && Applied(time, ts, s, s') && g in s'.indexes && r in JoinRows(s'.indexes[g])
    ensures !AnyMatch(time, ts, r.id, r.source, r.recordedAt) && r.id !in s'.forgotten
  {
    hide Pending, AnyMatch, Consistent;
    RowsAreOld(s.indexes[g], s'.indexes[g], s'.forgotten, r);
    if AnyMatch(time, ts, r.id, r.source, r.recordedAt) {
      RowIsShown(time, ts, s, g, r);
    }
  }

  lemma RowIsShown(time: ParseTime, ts: seq<Tombstone>, s: Disk, g: string, r: JoinRow)
    requires g in s.indexes && r in JoinRows(s.indexes[g]) && AnyMatch(time, ts, r.id, r.source, r.recordedAt)
    ensures r.id in Shown(time, ts, s.indexes, s.indexes.Keys)
  {
    hide AnyMatch, JoinRows;
    assert RowMatches(time, ts, {}, r);
    assert r.id in MatchingIds(time, ts, {}, s.indexes[g]);
    assert r.id in Found(time, ts, {}, s.indexes[g]);
  }

  // An identity that stays keeps all its rows.
  lemma RowsAreOld(ix: Index, ix': Index, forgotten: set<string>, r: JoinRow)
    requires Consistent(ix) && Cleaned(ix, ix', forgotten) && r in JoinRows(ix')
    ensures r in JoinRows(ix) && r.id !in forgotten
  {
    hide JoinRows, Consistent, Cleaned;
    if i :| BareItem(ix', i) && r == JoinRow(i, ix'.items[i], None) {
      ItemIsOld(ix, ix', forgotten, i);
    } else if v :| BareVersion(ix', v) && r == VersionJoin(ix', v) {
      VersionIsOld(ix, ix', forgotten, v);
    } else {
      KindsOfRow(ix', r);
      var o :| ObservedIn(ix', o) && r == ObservationJoin(ix', o);
      ObservationIsOld(ix, ix', forgotten, o);
    }
  }

  // The three kinds of joined rows.
  predicate BareItem(ix: Index, i: string) {
    i in ix.items && forall v :: v in ix.versions ==> ix.versions[v].item != i
  }

  predicate BareVersion(ix: Index, v: string) {
    v in ix.versions && ix.versions[v].item in ix.items
    && forall o :: o in ix.observations ==> ix.observations[o].version != v
  }

  function VersionJoin(ix: Index, v: string): JoinRow
    requires BareVersion(ix, v)
  {
    JoinRow(ix.versions[v].item, ix.items[ix.versions[v].item], ix.versions[v].recordedAt)
  }

  predicate ObservedIn(ix: Index, o: string) {
    o in ix.observations && ix.observations[o].version in ix.versions
    && ix.versions[ix.observations[o].version].item in ix.items
  }

  function ObservationJoin(ix: Index, o: string): JoinRow
    requires ObservedIn(ix, o)
  {
    var v := ix.versions[ix.observations[o].version];
    JoinRow(v.item, ix.items[v.item], OrElse(v.recordedAt, ix.observations[o].recordedAt))
  }

  lemma KindsOfRow(ix: Index, r: JoinRow)
    requires r in JoinRows(ix)
    ensures (exists i :: BareItem(ix, i) && r == JoinRow(i, ix.items[i], None))
      || (exists v :: BareVersion(ix, v) && r == VersionJoin(ix, v))
      || (exists o :: ObservedIn(ix, o) && r == ObservationJoin(ix, o))
  {
    var bare := set i | i in ix.items && BareItem(ix, i) :: JoinRow(i, ix.items[i], None);
    var versions := set v | v in ix.versions && BareVersion(ix, v) :: VersionJoin(ix, v);
    var observed := set o | o in ix.observations && ObservedIn(ix, o) :: ObservationJoin(ix, o);
    assert r in bare || r in versions || r in observed;
  }

  lemma ItemIsOld(ix: Index, ix': Index, forgotten: set<string>, i: string)
    requires Consistent(ix) && Cleaned(ix, ix', forgotten) && BareItem(ix', i)
    ensures BareItem(ix, i) && ix'.items[i] == ix.items[i] && i !in forgotten
    ensures JoinRow(i, ix.items[i], None) in JoinRows(ix)
  {
    hide JoinRows;
    forall v | v in ix.versions ensures ix.versions[v].item != i {
      assert v in ix'.versions <==> ix.versions[v].item !in forgotten;
    }
    BareItemJoins(ix, i);
  }

  lemma BareItemJoins(ix: Index, i: string)
    requires BareItem(ix, i)
    ensures JoinRow(i, ix.items[i], None) in JoinRows(ix)
  {
  }

  lemma VersionIsOld(ix: Index, ix': Index, forgotten: set<string>, v: string)
    requires Consistent(ix) && Cleaned(ix, ix', forgotten) && BareVersion(ix', v)
    ensures BareVersion(ix, v) && VersionJoin(ix', v) == VersionJoin(ix, v) && VersionJoin(ix, v).id !in forgotten
    ensures VersionJoin(ix, v) in JoinRows(ix)
  {
    hide JoinRows;
    forall o | o in ix.observations ensures ix.observations[o].version != v {
      assert ix.observations[o].version == v ==> o in ix'.observations;
    }
    BareVersionJoins(ix, v);
  }

  lemma BareVersionJoins(ix: Index, v: string)
    requires BareVersion(ix, v)
    ensures VersionJoin(ix, v) in JoinRows(ix)
  {
  }

  lemma ObservationIsOld(ix: Index, ix': Index, forgotten: set<string>, o: string)
    requires Consistent(ix) && Cleaned(ix, ix', forgotten) && ObservedIn(ix', o)
    ensures ObservedIn(ix, o) && ObservationJoin(ix', o) == ObservationJoin(ix, o)
    ensures ObservationJoin(ix, o).id !in forgotten && ObservationJoin(ix, o) in JoinRows(ix)
  {
    hide JoinRows;
    ObservedJoins(ix', o);
    assert o in ix.observations && ix.observations[o] == ix'.observations[o];
    ObservedJoins(ix, o);
  }

  lemma ObservedJoins(ix: Index, o: string)
    ensures ObservedIn(ix, o) ==> ObservationJoin(ix, o) in JoinRows(ix)
  {
  }

  lemma MembershipIsRow(w: Names, ix: Index, m: ViewItem)
    requires Consistent(ix) && Filed(w, ix) && m in ix.viewItems
    ensures JoinRow(m.item, ThirdField(m.item), w.observation(m.observation).recordedAt) in JoinRows(ix)
  {
    hide Field;
    assert Linked(w, m) && Timed(w, m.observation);
    var v := ix.versions[ix.observations[m.observation].version];
    assert JoinRow(v.item, ix.items[v.item],
                   OrElse(v.recordedAt, ix.observations[m.observation].recordedAt)) in JoinRows(ix);
  }

  lemma AppliedStaysFiled(w: Names, time: ParseTime, ts: seq<Tombstone>, s: Disk, s': Disk)
    requires AllFiled(w, s) && Applied(time, ts, s, s')
    ensures AllFiled(w, s')
  {
    hide Pending, Filed, Shown, Asked, NoCaches;
    forall g | g in s'.indexes ensures Filed(w, s'.indexes[g]) {
      FewerIsFiled(w, s.indexes[g], s'.indexes[g]);
    }
  }

  // The rows left refer to each other, and to nothing else.
  lemma AppliedIsConsistent(time: ParseTime, ts: seq<Tombstone>, s: Disk, s': Disk, g: string)
    requires Inv(s) && Applied(time, ts, s, s') && g in s'.indexes
    ensures Consistent(s'.indexes[g])
  {
    hide Pending, Purged, Shown, Asked, NoCaches, Consistent;
    PurgedConsistent(s.indexes[g], s'.forgotten);
    ConsistentRows(Purged(s.indexes[g], s'.forgotten), s'.indexes[g]);
  }

  lemma ConsistentRows(ix: Index, ix': Index)
    requires Consistent(ix)
    requires ix' == ix.(ops := ix'.ops, results := ix'.results, caches := ix'.caches, temps := ix'.temps)
    ensures Consistent(ix')
  {
  }

  /** After a purge no view in any generation has a member that the tombstones applied match. */
  lemma AppliedIsClear(w: Names, time: ParseTime, ts: seq<Tombstone>, s: Disk, s': Disk)
    requires Inv(s) && AllFiled(w, s) && Applied(time, ts, s, s')
    ensures Clear(w, time, ts, s')
  {
    AppliedStaysFiled(w, time, ts, s, s');
    hide Inv, Pending, AnyMatch, Consistent, Cleaned, Filed, JoinRows, Applied, Field;
    forall g, m | g in s'.indexes && m in s'.indexes[g].viewItems ensures !Shut(w, time, ts, m) {
      AppliedIsConsistent(time, ts, s, s', g);
      MembershipIsRow(w, s'.indexes[g], m);
      AppliedMatchesNothing(time, ts, s, s', g,
                            JoinRow(m.item, ThirdField(m.item), w.observation(m.observation).recordedAt));
    }
  }

  lemma TestedKeepsClear(w: Names, time: ParseTime, ts: seq<Tombstone>, s: Disk, s': Disk, e: Event)
    requires Clear(w, time, ts, s) && TestedDoes(w, time, ts, s, s', e)
    ensures Clear(w, time, ts, s')
  {
    hide Does, Shut;
    forall g, m | g in s'.indexes && m in s'.indexes[g].viewItems ensures !Shut(w, time, ts, m) {
      DoesRows(s, s', e, g);
      if e.Publish? && e.generation == g {
        var p :| Sound(w, p) && Tested(time, ts, p) && e.batch == Rows(p);
        BatchIsClear(w, time, ts, p.view, p.items, p.members, p.relations);
      }
    }
  }

  /**
   From a purge on, as long as what is published has been tested with the same
   tombstones, no view in any generation has a member that they match.
   */
  lemma {:induction false} StaysClear(w: Names, time: ParseTime, ts: seq<Tombstone>, s: Disk, log: seq<Disk>, j: nat)
    requires TestedRun(w, time, ts, log) && j < |log|
    requires Inv(s) && AllFiled(w, s) && (Applied(time, ts, s, log[0]) || ts == [])
    ensures Clear(w, time, ts, log[j])
  {
    hide TestedDoes, Inv, AllFiled, Applied;
    if ts == [] {
      NoTombstones(w, time, log[j]);
    } else if j == 0 {
      AppliedIsClear(w, time, ts, s, log[0]);
    } else {
      StaysClear(w, time, ts, s, log, j - 1);
      assert TestedStep(w, time, ts, log[j - 1], log[(j - 1) + 1]);
      var e :| TestedDoes(w, time, ts, log[j - 1], log[j], e);
      TestedKeepsClear(w, time, ts, log[j - 1], log[j], e);
    }
  }

  lemma NoTombstones(w: Names, time: ParseTime, s: Disk)
    ensures Clear(w, time, [], s)
  {
  }
}
