/**
 Forgetting as a protocol over several stores (src/tombstone.rs): the access
 ledger, the retained indexes and the vector caches, which are never changed in
 one transaction. `Step` is what one transaction or file operation may do; a crash
 may follow any of them.
 */
module Forgetting {
  import opened Wrappers

  datatype VersionRow = VersionRow(item: string, recordedAt: Option<string>)

  datatype ObservationRow = ObservationRow(version: string, recordedAt: Option<string>)

  datatype ViewItem = ViewItem(view: string, item: string, version: string, observation: string)

  datatype Relation = Relation(from: string, field: string, to: string)

  // A reserved note operation.
  datatype Op = Op(id: string, semantic: string, recordedAt: string)

  // One generation: its rows, and the vector caches saved beside them.
  datatype Index = Index(
    items: map<string, string>,
    versions: map<string, VersionRow>,
    observations: map<string, ObservationRow>,
    viewItems: set<ViewItem>,
    relations: set<Relation>,
    results: set<string>,
    ops: map<string, Op>,
    caches: map<string, set<string>>,
    temps: map<string, set<string>>)

  const EMPTY_INDEX := Index(map[], map[], map[], {}, {}, {}, map[], map[], map[])

  datatype Retired = Retired(id: string, semantic: string)

  datatype Progress = Progress(epoch: string, complete: bool)

  // The content-free ledger, and every retained generation.
  datatype Disk = Disk(
    forgotten: set<string>,
    retired: map<string, Retired>,
    progress: map<string, Progress>,
    indexes: map<string, Index>)

  // ----- rows and what happens to them

  // References between tables always lead somewhere.
  predicate Consistent(ix: Index) {
    && (forall v :: v in ix.versions ==> ix.versions[v].item in ix.items)
    && (forall o :: o in ix.observations ==> ix.observations[o].version in ix.versions)
    && (forall m :: m in ix.viewItems ==> m.version in ix.versions && m.observation in ix.observations)
    && (forall r :: r in ix.relations ==> r.from in ix.versions)
  }

  // Deleting identities, with everything that refers to their versions.
  function Purged(ix: Index, ids: set<string>): Index {
    var versions := map v | v in ix.versions && ix.versions[v].item !in ids :: ix.versions[v];
    var observations := map o | o in ix.observations && ix.observations[o].version in versions :: ix.observations[o];
    ix.(items := (map i | i in ix.items && i !in ids :: ix.items[i]),
        versions := versions,
        observations := observations,
        viewItems := (set m | m in ix.viewItems && m.item !in ids && m.version in versions
                      && m.observation in observations),
        relations := (set r | r in ix.relations && r.to !in ids && r.from in versions))
  }

  // No row of the identity: neither the item nor a version nor a membership.
  predicate Absent(ix: Index, id: string) {
    && id !in ix.items
    && (forall v :: v in ix.versions ==> ix.versions[v].item != id)
    && (forall m :: m in ix.viewItems ==> m.item != id)
  }

  predicate Unreferenced(ix: Index, id: string) {
    forall r :: r in ix.relations ==> r.to != id
  }

  // No operation of the identity.
  predicate Unreserved(ix: Index, id: string) {
    forall k :: k in ix.ops ==> ix.ops[k].id != id
  }

  predicate Gone(d: Disk, id: string) {
    forall g :: g in d.indexes ==> Absent(d.indexes[g], id) && Unreserved(d.indexes[g], id)
  }

  // ----- the purge marker

  predicate Pending(progress: map<string, Progress>) {
    exists h :: h in progress && !progress[h].complete
  }

  const IDENTITY_PURGE := "memq:persistent-identity-purge"

  function MarkPending(progress: map<string, Progress>): (p: map<string, Progress>)
    ensures Pending(p)
  {
    if progress == map[] then
      var p := map[IDENTITY_PURGE := Progress("identity", false)];
      assert IDENTITY_PURGE in p;
      p
    else
      var p := map h | h in progress :: progress[h].(complete := false);
      var h :| h in progress;
      assert h in p;
      p
  }

  function MarkComplete(progress: map<string, Progress>): (p: map<string, Progress>)
    ensures !Pending(p)
  {
    map h | h in progress :: progress[h].(complete := true)
  }

  predicate NoCaches(ix: Index) {
    ix.caches == map[] && ix.temps == map[]
  }

  // Every version in a vector cache, finished or not, still has its row.
  predicate Covered(ix: Index) {
    && (forall f :: f in ix.caches ==> ix.caches[f] <= ix.versions.Keys)
    && (forall f :: f in ix.temps ==> ix.temps[f] <= ix.versions.Keys)
  }

  // ----- one durable step

  predicate Asks(s: Disk, s': Disk, h: string, epoch: string) {
    s' == s.(progress := s.progress[h := Progress(epoch, false)])
  }

  predicate Marks(s: Disk, s': Disk) {
    s' == s.(progress := MarkPending(s.progress))
  }

  predicate Remembers(s: Disk, s': Disk, ids: set<string>) {
    s' == s.(forgotten := s.forgotten + ids, progress := MarkPending(s.progress))
  }

  // A retry key is bound for good before its operation goes.
  predicate Retires(s: Disk, s': Disk, key: string, r: Retired) {
    && (key in s.retired ==> s.retired[key] == r)
    && s' == s.(retired := s.retired[key := r], forgotten := s.forgotten + {r.id})
  }

  // `UPDATE` alone: it marks what is recorded, and adds no marker of its own.
  predicate Reopens(s: Disk, s': Disk) {
    s' == s.(progress := map h | h in s.progress :: s.progress[h].(complete := false))
  }

  predicate DropsOps(s: Disk, s': Disk, g: string, keys: set<string>) {
    && g in s.indexes && keys <= s.retired.Keys
    && s' == s.(indexes := s.indexes[g := s.indexes[g].(ops := s.indexes[g].ops - keys)])
  }

  predicate Purges(s: Disk, s': Disk, g: string, ids: set<string>) {
    && g in s.indexes && ids <= s.forgotten
    && var ix := s.indexes[g];
    && (Purged(ix, ids) != ix ==> Pending(s.progress))
    && s' == s.(indexes := s.indexes[g := Purged(ix, ids).(results := if Pending(s.progress) then {} else ix.results)])
  }

  predicate Unlinks(s: Disk, s': Disk, g: string, file: string, temp: bool) {
    && g in s.indexes
    && var ix := s.indexes[g];
       s' == s.(indexes :=
         s.indexes[g := if temp then ix.(temps := ix.temps - {file}) else ix.(caches := ix.caches - {file})])
  }

  predicate Completes(s: Disk, s': Disk) {
    && (Pending(s.progress) ==> forall g :: g in s.indexes ==> NoCaches(s.indexes[g]))
    && s' == s.(progress := MarkComplete(s.progress))
  }

  // What a publication transaction adds to an index.
  datatype Batch = Batch(
    items: map<string, string>, versions: map<string, VersionRow>, observations: map<string, ObservationRow>,
    viewItems: set<ViewItem>, relations: set<Relation>)

  // Identities whose rows the batch carries.
  function Carries(b: Batch): set<string> {
    b.items.Keys + (set v | v in b.versions :: b.versions[v].item) + (set m | m in b.viewItems :: m.item)
  }

  // The same by the row that carries it.
  ghost predicate Carried(b: Batch, id: string) {
    || id in b.items
    || (exists v :: v in b.versions && b.versions[v].item == id)
    || (exists m :: m in b.viewItems && m.item == id)
  }

  lemma CarriesMeans(b: Batch, forgotten: set<string>)
    ensures Carries(b) !! forgotten <==> forall id :: id in forgotten ==> !Carried(b, id)
  {
    forall id ensures id in Carries(b) <==> Carried(b, id) {
    }
  }

  // Rows already present win, as `INSERT OR IGNORE` has it.
  function Inserted(ix: Index, b: Batch): Index {
    ix.(items := b.items + ix.items, versions := b.versions + ix.versions,
        observations := b.observations + ix.observations,
        viewItems := ix.viewItems + b.viewItems, relations := ix.relations + b.relations)
  }

  // Row by row: what was there stays as it was, what is new comes from the batch, and nothing else is there.
  ghost predicate AddsRows(ix: Index, ix': Index, b: Batch) {
    && (forall i :: i in ix'.items <==> i in ix.items || i in b.items)
    && (forall i :: i in ix'.items ==> ix'.items[i] == if i in ix.items then ix.items[i] else b.items[i])
    && (forall v :: v in ix'.versions <==> v in ix.versions || v in b.versions)
    && (forall v :: v in ix'.versions ==> ix'.versions[v] == if v in ix.versions then ix.versions[v] else b.versions[v])
    && (forall o :: o in ix'.observations <==> o in ix.observations || o in b.observations)
    && (forall o :: o in ix'.observations ==>
          ix'.observations[o] == if o in ix.observations then ix.observations[o] else b.observations[o])
    && (forall m :: m in ix'.viewItems <==> m in ix.viewItems || m in b.viewItems)
    && (forall r :: r in ix'.relations <==> r in ix.relations || r in b.relations)
    && ix'.ops == ix.ops && ix'.results == ix.results && ix'.caches == ix.caches && ix'.temps == ix.temps
  }

  lemma InsertedAddsRows(ix: Index, b: Batch)
    ensures AddsRows(ix, Inserted(ix, b), b)
  {
  }

  predicate Publishes(s: Disk, s': Disk, g: string, b: Batch) {
    && g in s.indexes && Carries(b) !! s.forgotten && Consistent(Inserted(s.indexes[g], b))
    && s' == s.(indexes := s.indexes[g := Inserted(s.indexes[g], b)])
  }

  predicate Saves(s: Disk, s': Disk, g: string, file: string, versions: set<string>) {
    && g in s.indexes && versions <= s.indexes[g].versions.Keys
    && s' == s.(indexes := s.indexes[g := s.indexes[g].(temps := s.indexes[g].temps[file := versions])])
  }

  predicate Renames(s: Disk, s': Disk, g: string, file: string) {
    && g in s.indexes && file in s.indexes[g].temps
    && var ix := s.indexes[g];
       s' == s.(indexes := s.indexes[g := ix.(caches := ix.caches[file := ix.temps[file]], temps := ix.temps - {file})])
  }

  predicate Builds(s: Disk, s': Disk, g: string) {
    g !in s.indexes && s' == s.(indexes := s.indexes[g := EMPTY_INDEX])
  }

  // A new operation has a new identity; an authored one is passed over if its identity is forgotten.
  predicate Reserves(s: Disk, s': Disk, g: string, key: string, op: Op) {
    && g in s.indexes && key !in s.retired && op.id !in s.forgotten
    && s' == s.(indexes := s.indexes[g := s.indexes[g].(ops := s.indexes[g].ops[key := op])])
  }

  datatype Event =
    | Ask(hash: string, epoch: string)
    | Mark
    | Remember(ids: set<string>)
    | Retire(key: string, retired: Retired)
    | Reopen
    | DropOps(generation: string, keys: set<string>)
    | Purge(generation: string, ids: set<string>)
    | Unlink(generation: string, file: string, temp: bool)
    | Complete
    | Publish(generation: string, batch: Batch)
    | Save(generation: string, file: string, versions: set<string>)
    | Rename(generation: string, file: string)
    | Build(generation: string)
    | Reserve(generation: string, key: string, op: Op)

  predicate Does(s: Disk, s': Disk, e: Event) {
    match e
    case Ask(h, epoch) => Asks(s, s', h, epoch)
    case Mark => Marks(s, s')
    case Remember(ids) => Remembers(s, s', ids)
    case Retire(key, r) => Retires(s, s', key, r)
    case Reopen => Reopens(s, s')
    case DropOps(g, keys) => DropsOps(s, s', g, keys)
    case Purge(g, ids) => Purges(s, s', g, ids)
    case Unlink(g, file, temp) => Unlinks(s, s', g, file, temp)
    case Complete => Completes(s, s')
    case Publish(g, b) => Publishes(s, s', g, b)
    case Save(g, file, vs) => Saves(s, s', g, file, vs)
    case Rename(g, file) => Renames(s, s', g, file)
    case Build(g) => Builds(s, s', g)
    case Reserve(g, key, op) => Reserves(s, s', g, key, op)
  }

  ghost predicate Step(s: Disk, s': Disk) {
    exists e :: Does(s, s', e)
  }

  // A run of transactions. A crash loses nothing but the process, so a run that
  // crashes and starts over is again such a sequence.
  ghost predicate Run(log: seq<Disk>) {
    log != [] && forall i :: 0 <= i < |log| - 1 ==> Step(log[i], log[i + 1])
  }

  // ----- what every state satisfies

  ghost predicate Inv(s: Disk) {
    && (forall g :: g in s.indexes ==> Consistent(s.indexes[g]))
    && (!Pending(s.progress) ==> forall g :: g in s.indexes ==> Covered(s.indexes[g]))
  }

  lemma PurgedConsistent(ix: Index, ids: set<string>)
    requires Consistent(ix)
    ensures Consistent(Purged(ix, ids))
    ensures forall id :: id in ids ==> Absent(Purged(ix, ids), id) && Unreferenced(Purged(ix, ids), id)
    ensures forall id :: Absent(ix, id) ==> Absent(Purged(ix, ids), id)
    ensures forall id :: Unreferenced(ix, id) ==> Unreferenced(Purged(ix, ids), id)
    ensures forall v :: v in Purged(ix, ids).versions <==> v in ix.versions && ix.versions[v].item !in ids
  {
  }

  // Steps that touch the ledger alone.
  lemma LedgerKeepsInv(s: Disk, s': Disk)
    requires Inv(s) && s'.indexes == s.indexes
    requires Pending(s.progress) ==> Pending(s'.progress) || forall g :: g in s.indexes ==> NoCaches(s.indexes[g])
    ensures Inv(s')
  {
    hide Consistent, Pending;
    forall g | g in s.indexes && NoCaches(s.indexes[g]) ensures Covered(s.indexes[g]) {
    }
  }

  // Steps that touch one index alone.
  lemma IndexKeepsInv(s: Disk, s': Disk, g: string, ix: Index)
    requires Inv(s) && s' == s.(indexes := s.indexes[g := ix])
    requires (g in s.indexes ==> Consistent(s.indexes[g])) ==> Consistent(ix)
    requires !Pending(s.progress) && (g in s.indexes ==> Covered(s.indexes[g])) ==> Covered(ix)
    ensures Inv(s')
  {
    hide Consistent, Covered, Pending;
  }

  lemma PurgeKeepsInv(s: Disk, s': Disk, g: string, ids: set<string>)
    requires Inv(s) && Purges(s, s', g, ids)
    ensures Inv(s')
  {
    var ix := s.indexes[g];
    PurgedConsistent(ix, ids);
    hide Purged, Pending;
    IndexKeepsInv(s, s', g, Purged(ix, ids).(results := if Pending(s.progress) then {} else ix.results));
  }

  lemma ReopenKeepsPending(s: Disk, s': Disk)
    requires Reopens(s, s') && Pending(s.progress)
    ensures Pending(s'.progress)
  {
    var h :| h in s.progress && !s.progress[h].complete;
    assert h in s'.progress;
  }

  lemma AskIsPending(s: Disk, s': Disk, h: string, epoch: string)
    requires Asks(s, s', h, epoch)
    ensures Pending(s'.progress)
  {
    assert h in s'.progress;
  }

  lemma DoesKeepsInv(s: Disk, s': Disk, e: Event)
    requires Inv(s) && Does(s, s', e)
    ensures Inv(s')
  {
    hide Pending, Purged, MarkPending, MarkComplete, Inserted, Inv, Purges, Consistent, Covered, NoCaches, Carries;
    match e
    case Ask(h, epoch) =>
      AskIsPending(s, s', h, epoch);
      LedgerKeepsInv(s, s');
    case Mark => LedgerKeepsInv(s, s');
    case Remember(ids) => LedgerKeepsInv(s, s');
    case Retire(key, r) => LedgerKeepsInv(s, s');
    case Reopen =>
      if Pending(s.progress) { ReopenKeepsPending(s, s'); }
      LedgerKeepsInv(s, s');
    case Purge(g, ids) => PurgeKeepsInv(s, s', g, ids);
    case Complete => LedgerKeepsInv(s, s');
    case _ => OneIndexKeepsInv(s, s', e);
  }

  // What the steps that touch one index leave of it.
  lemma OneIndexKeepsCover(s: Disk, s': Disk, e: Event, g: string)
    requires Does(s, s', e) && (e.Unlink? || e.Save? || e.Rename?) && e.generation == g
    ensures g in s.indexes && g in s'.indexes && s' == s.(indexes := s.indexes[g := s'.indexes[g]])
    ensures Consistent(s.indexes[g]) ==> Consistent(s'.indexes[g])
    ensures Covered(s.indexes[g]) ==> Covered(s'.indexes[g])
  {
    hide Purged, Inserted, Pending, MarkPending, MarkComplete;
  }

  lemma OneIndexKeepsInv(s: Disk, s': Disk, e: Event)
    requires Inv(s) && Does(s, s', e)
    requires e.DropOps? || e.Unlink? || e.Publish? || e.Save? || e.Rename? || e.Build? || e.Reserve?
    ensures Inv(s')
  {
    hide Pending, Inv, Purged, MarkPending, MarkComplete, Unlinks, Saves, Renames, Carries;
    match e
    case Unlink(g, _, _) =>
      OneIndexKeepsCover(s, s', e, g);
      IndexKeepsInv(s, s', g, s'.indexes[g]);
    case Save(g, _, _) =>
      OneIndexKeepsCover(s, s', e, g);
      IndexKeepsInv(s, s', g, s'.indexes[g]);
    case Rename(g, _) =>
      OneIndexKeepsCover(s, s', e, g);
      IndexKeepsInv(s, s', g, s'.indexes[g]);
    case Publish(g, _) => IndexKeepsInv(s, s', g, s'.indexes[g]);
    case DropOps(g, _) => IndexKeepsInv(s, s', g, s'.indexes[g]);
    case Reserve(g, _, _) => IndexKeepsInv(s, s', g, s'.indexes[g]);
    case Build(g) => IndexKeepsInv(s, s', g, s'.indexes[g]);
    case _ =>
  }

  /**
   In every state that any run reaches, crashes included: if no purge is pending,
   every version in a vector cache still has its row in that generation.
   */
  lemma {:induction false} RunKeepsInv(log: seq<Disk>, k: nat)
    requires Run(log) && Inv(log[0]) && k < |log|
    ensures Inv(log[k])
  {
    if k > 0 {
      RunKeepsInv(log, k - 1);
      var e :| Does(log[k - 1], log[k], e);
      DoesKeepsInv(log[k - 1], log[k], e);
    }
  }

  // How one step may change one index.
  ghost predicate Evolves(ix: Index, ix': Index, forgotten: set<string>, retired: set<string>) {
    && (forall v :: v in ix.versions && v !in ix'.versions ==> ix.versions[v].item in forgotten)
    && (forall i :: i in ix.items && i !in ix'.items ==> i in forgotten)
    && (forall k :: k in ix.ops && k !in ix'.ops ==> k in retired)
    && (forall id :: id in forgotten && Absent(ix, id) ==> Absent(ix', id))
    && (forall id :: id in forgotten && Unreserved(ix, id) ==> Unreserved(ix', id))
  }

  lemma InsertedEvolves(ix: Index, b: Batch, forgotten: set<string>, retired: set<string>)
    requires Carries(b) !! forgotten
    ensures Evolves(ix, Inserted(ix, b), forgotten, retired)
  {
    forall id | id in forgotten && Absent(ix, id) ensures Absent(Inserted(ix, b), id) {
      assert id !in Carries(b);
    }
  }

  lemma PurgedEvolves(ix: Index, ids: set<string>, results: set<string>, forgotten: set<string>, retired: set<string>)
    requires ids <= forgotten
    ensures Evolves(ix, Purged(ix, ids).(results := results), forgotten, retired)
  {
  }

  lemma DoesEvolve(s: Disk, s': Disk, e: Event)
    requires Does(s, s', e)
    ensures s.forgotten <= s'.forgotten
    ensures forall k :: k in s.retired ==> k in s'.retired && s'.retired[k] == s.retired[k]
    ensures forall g :: g in s.indexes ==>
      g in s'.indexes && Evolves(s.indexes[g], s'.indexes[g], s.forgotten, s.retired.Keys)
    ensures forall g :: g in s'.indexes && g !in s.indexes ==> s'.indexes[g] == EMPTY_INDEX
  {
    hide Does, Evolves;
    LedgerGrows(s, s', e);
    IndexesStay(s, s', e);
    forall g | g in s.indexes ensures Evolves(s.indexes[g], s'.indexes[g], s.forgotten, s.retired.Keys) {
      IndexEvolves(s, s', e, g);
    }
  }

  lemma LedgerGrows(s: Disk, s': Disk, e: Event)
    requires Does(s, s', e)
    ensures s.forgotten <= s'.forgotten
    ensures forall k :: k in s.retired ==> k in s'.retired && s'.retired[k] == s.retired[k]
  {
    hide Purged, Inserted, Carries, Pending, MarkPending, MarkComplete, Consistent, NoCaches;
  }

  lemma IndexesStay(s: Disk, s': Disk, e: Event)
    requires Does(s, s', e)
    ensures s.indexes.Keys <= s'.indexes.Keys
    ensures forall g :: g in s'.indexes && g !in s.indexes ==> s'.indexes[g] == EMPTY_INDEX
  {
    hide Purged, Inserted, Carries, Pending, MarkPending, MarkComplete, Consistent, NoCaches;
  }

  // Changes to the operations alone.
  lemma OpsEvolve(ix: Index, ops: map<string, Op>, forgotten: set<string>, retired: set<string>)
    requires forall k :: k in ix.ops && k !in ops ==> k in retired
    requires forall k :: k in ops ==> ops[k].id !in forgotten || (k in ix.ops && ops[k] == ix.ops[k])
    ensures Evolves(ix, ix.(ops := ops), forgotten, retired)
  {
  }

  lemma IndexEvolves(s: Disk, s': Disk, e: Event, g: string)
    requires Does(s, s', e) && g in s.indexes && g in s'.indexes
    ensures Evolves(s.indexes[g], s'.indexes[g], s.forgotten, s.retired.Keys)
  {
    hide Evolves, Purged, Inserted, Carries, Pending, MarkPending, MarkComplete, Consistent, NoCaches;
    match e
    case Publish(h, b) =>
      InsertedEvolves(s.indexes[h], b, s.forgotten, s.retired.Keys);
      FilesEvolve(s.indexes[g], s.indexes[g], s.forgotten, s.retired.Keys);
    case Purge(h, ids) =>
      PurgedEvolves(s.indexes[h], ids, s'.indexes[h].results, s.forgotten, s.retired.Keys);
      FilesEvolve(s.indexes[g], s.indexes[g], s.forgotten, s.retired.Keys);
    case DropOps(h, keys) =>
      OpsEvolve(s.indexes[h], s.indexes[h].ops - keys, s.forgotten, s.retired.Keys);
      FilesEvolve(s.indexes[g], s.indexes[g], s.forgotten, s.retired.Keys);
    case Reserve(h, key, op) =>
      OpsEvolve(s.indexes[h], s.indexes[h].ops[key := op], s.forgotten, s.retired.Keys);
      FilesEvolve(s.indexes[g], s.indexes[g], s.forgotten, s.retired.Keys);
    case _ => FilesEvolve(s.indexes[g], s'.indexes[g], s.forgotten, s.retired.Keys);
  }

  // Changes to files and result tables alone.
  lemma FilesEvolve(ix: Index, ix': Index, forgotten: set<string>, retired: set<string>)
    requires ix' == ix.(caches := ix'.caches, temps := ix'.temps, results := ix'.results)
    ensures Evolves(ix, ix', forgotten, retired)
  {
  }

  /** Write-ahead: whatever a step removes was already in the ledger before the step. */
  lemma LedgerFirst(s: Disk, s': Disk, g: string)
    requires Step(s, s') && g in s.indexes
    ensures g in s'.indexes
    ensures forall v :: v in s.indexes[g].versions && v !in s'.indexes[g].versions ==>
      s.indexes[g].versions[v].item in s.forgotten
    ensures forall i :: i in s.indexes[g].items && i !in s'.indexes[g].items ==> i in s.forgotten
    ensures forall k :: k in s.indexes[g].ops && k !in s'.indexes[g].ops ==> k in s.retired
    ensures s.forgotten <= s'.forgotten
    ensures forall k :: k in s.retired ==> k in s'.retired && s'.retired[k] == s.retired[k]
  {
    hide Does;
    var e :| Does(s, s', e);
    DoesEvolve(s, s', e);
  }

  lemma StepStaysGone(s: Disk, s': Disk, id: string)
    requires Step(s, s') && id in s.forgotten && Gone(s, id)
    ensures id in s'.forgotten && Gone(s', id)
  {
    hide Does;
    var e :| Does(s, s', e);
    DoesEvolve(s, s', e);
  }

  /**
   Forgetting is irreversible: once an identity is in the ledger and its rows and
   operations are gone, no later state of any run holds a row or an operation of it.
   */
  lemma {:induction false} StaysGone(log: seq<Disk>, i: nat, j: nat, id: string)
    requires Run(log) && i <= j < |log| && id in log[i].forgotten && Gone(log[i], id)
    ensures id in log[j].forgotten && Gone(log[j], id)
  {
    hide Step, Gone;
    if i < j {
      assert Step(log[j - 1], log[(j - 1) + 1]);
      StaysGone(log, i, j - 1, id);
      StepStaysGone(log[j - 1], log[j], id);
    }
  }

  // ----- references to a forgotten identity

  predicate RefersTo(b: Batch, id: string) {
    exists r :: r in b.relations && r.to == id
  }

  /**
   Rows that merely point at an identity are not guarded: they come back exactly
   when a publication carries a member that refers to it.
   */
  lemma ReferenceReturns(s: Disk, s': Disk, e: Event, id: string)
    requires Does(s, s', e) && forall g :: g in s.indexes ==> Unreferenced(s.indexes[g], id)
    ensures (exists g :: g in s'.indexes && !Unreferenced(s'.indexes[g], id)) <==> e.Publish? && RefersTo(e.batch, id)
  {
    match e
    case Publish(g, b) =>
      if RefersTo(b, id) {
        var r :| r in b.relations && r.to == id;
        assert r in s'.indexes[g].relations;
        assert !Unreferenced(s'.indexes[g], id);
      }
    case Purge(g, ids) =>
      assert Unreferenced(Purged(s.indexes[g], ids), id);
    case _ =>
  }

  predicate NowhereReferenced(d: Disk, id: string) {
    forall g :: g in d.indexes ==> Unreferenced(d.indexes[g], id)
  }

  // The step from one state of a run to the next is a publication that refers to the identity.
  ghost predicate ReferringStep(log: seq<Disk>, k: nat, id: string) {
    k + 1 < |log| && exists e :: Does(log[k], log[k + 1], e) && e.Publish? && RefersTo(e.batch, id)
  }

  /**
   Over a whole run, references to an identity stay away exactly as long as nothing
   that refers to it is published.
   */
  lemma {:induction false} ReferencesStayAway(log: seq<Disk>, i: nat, j: nat, id: string)
    requires Run(log) && i <= j < |log| && NowhereReferenced(log[i], id)
    ensures (forall k | i <= k <= j :: NowhereReferenced(log[k], id)) <==>
      (forall k | i <= k < j :: !ReferringStep(log, k, id))
  {
    hide Does, RefersTo, NowhereReferenced;
    if i < j {
      ReferencesStayAway(log, i, j - 1, id);
      if forall k | i <= k <= j - 1 :: NowhereReferenced(log[k], id) {
        assert Step(log[j - 1], log[(j - 1) + 1]);
        OneStepReference(log, j - 1, id);
      }
    }
  }

  lemma OneStepReference(log: seq<Disk>, k: nat, id: string)
    requires k + 1 < |log| && Step(log[k], log[k + 1]) && NowhereReferenced(log[k], id)
    ensures NowhereReferenced(log[k + 1], id) <==> !ReferringStep(log, k, id)
  {
    hide Does, RefersTo, Unreferenced;
    if ReferringStep(log, k, id) {
      var e :| Does(log[k], log[k + 1], e) && e.Publish? && RefersTo(e.batch, id);
      ReferenceReturns(log[k], log[k + 1], e, id);
    } else {
      var e :| Does(log[k], log[k + 1], e);
      ReferenceReturns(log[k], log[k + 1], e, id);
    }
  }

  const NEW_DISK := Disk({}, map[], map[], map[])

  /** A run in which that happens: an item is forgotten, and then a new note names it as its evidence. */
  lemma ReferenceReturnsExample() returns (log: seq<Disk>, id: string)
    ensures Run(log) && |log| == 4 && log[0] == NEW_DISK
    ensures id in log[2].forgotten && Gone(log[2], id)
    ensures forall g :: g in log[2].indexes ==> Unreferenced(log[2].indexes[g], id)
    ensures exists g :: g in log[3].indexes && !Unreferenced(log[3].indexes[g], id)
  {
    hide Pending, Purged, Does, Step, MarkPending, MarkComplete;
    id := "mq:p:notes:old";
    var g, next := "g", "mq:p:notes:new";
    assert id[11] != next[11];
    var built := NEW_DISK.(indexes := NEW_DISK.indexes[g := EMPTY_INDEX]);
    var s := built.(forgotten := built.forgotten + {id}, progress := MarkPending(built.progress));
    var r := Relation("v", "evidence", id);
    var b := Batch(map[next := "notes"], map["v" := VersionRow(next, None)], map[], {}, {r});
    var s' := s.(indexes := s.indexes[g := Inserted(EMPTY_INDEX, b)]);
    assert r in s'.indexes[g].relations;
    assert !Unreferenced(s'.indexes[g], id);
    assert Publishes(s, s', g, b);
    BuildIsStep(NEW_DISK, built, g);
    RememberIsStep(built, s, {id});
    PublishIsStep(s, s', g, b);
    log := [NEW_DISK, built, s, s'];
    forall i | 0 <= i < |log| - 1 ensures Step(log[i], log[i + 1]) {
      assert i == 0 || i == 1 || i == 2;
    }
    assert Gone(s, id) && g in log[3].indexes;
  }

  lemma BuildIsStep(s: Disk, s': Disk, g: string)
    requires Builds(s, s', g)
    ensures Step(s, s')
  {
    assert Does(s, s', Build(g));
  }

  lemma RememberIsStep(s: Disk, s': Disk, ids: set<string>)
    requires Remembers(s, s', ids)
    ensures Step(s, s')
  {
    assert Does(s, s', Remember(ids));
  }

  lemma PublishIsStep(s: Disk, s': Disk, g: string, b: Batch)
    requires Publishes(s, s', g, b)
    ensures Step(s, s')
  {
    assert Does(s, s', Publish(g, b));
  }
}
