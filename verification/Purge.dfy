/**
 The purge itself (src/tombstone.rs `remember_matching_ids`, `purge_db`, `apply`,
 and src/notes.rs `purge_operations`), one transaction after another.
 */
module Purge {
  import opened Wrappers
  import opened Tombstones
  import opened Forgetting

  datatype JoinRow = JoinRow(id: string, source: string, recordedAt: Option<string>)

  function OrElse(a: Option<string>, b: Option<string>): Option<string> {
    if a.Some? then a else b
  }

  // Items, left-joined with their versions and those with their observations.
  function JoinRows(ix: Index): set<JoinRow> {
    (set i | i in ix.items
     && (forall v :: v in ix.versions ==> ix.versions[v].item != i) :: JoinRow(i, ix.items[i], None))
    + (set v | v in ix.versions && ix.versions[v].item in ix.items
               && (forall o :: o in ix.observations ==> ix.observations[o].version != v) ::
         JoinRow(ix.versions[v].item, ix.items[ix.versions[v].item], ix.versions[v].recordedAt))
    + (set o | o in ix.observations && ix.observations[o].version in ix.versions
               && ix.versions[ix.observations[o].version].item in ix.items ::
         var v := ix.versions[ix.observations[o].version];
         JoinRow(v.item, ix.items[v.item], OrElse(v.recordedAt, ix.observations[o].recordedAt)))
  }

  predicate RowMatches(time: ParseTime, ts: seq<Tombstone>, forgotten: set<string>, r: JoinRow) {
    r.id in forgotten || AnyMatch(time, ts, r.id, r.source, r.recordedAt)
  }

  function MatchingIds(time: ParseTime, ts: seq<Tombstone>, forgotten: set<string>, ix: Index): set<string> {
    set r | r in JoinRows(ix) && RowMatches(time, ts, forgotten, r) :: r.id
  }

  predicate OpMatches(time: ParseTime, ts: seq<Tombstone>, forgotten: set<string>, op: Op) {
    ExcludesRecord(time, ts, forgotten, op.id, ThirdField(op.id), Some(op.recordedAt))
  }

  function MatchingOps(time: ParseTime, ts: seq<Tombstone>, forgotten: set<string>, ix: Index): set<string> {
    set k | k in ix.ops && OpMatches(time, ts, forgotten, ix.ops[k])
  }

  function OpIds(ix: Index, keys: set<string>): set<string>
    requires keys <= ix.ops.Keys
  {
    set k | k in keys :: ix.ops[k].id
  }

  // Every identity that one index shows to be forgotten.
  function Found(time: ParseTime, ts: seq<Tombstone>, forgotten: set<string>, ix: Index): set<string> {
    MatchingIds(time, ts, forgotten, ix) + OpIds(ix, MatchingOps(time, ts, forgotten, ix))
  }

  // No operation left is matched by a predicate alone.
  predicate ClearOps(time: ParseTime, ts: seq<Tombstone>, ix: Index) {
    forall k :: k in ix.ops ==> !AnyMatch(time, ts, ix.ops[k].id, ThirdField(ix.ops[k].id), Some(ix.ops[k].recordedAt))
  }

  // What all the indexes together show to be forgotten.
  function Shown(time: ParseTime, ts: seq<Tombstone>, indexes: map<string, Index>, gs: set<string>): set<string> {
    set g, id | g in gs && g in indexes && id in Found(time, ts, {}, indexes[g]) :: id
  }

  function SansOps(ix: Index, keys: set<string>): Index {
    ix.(ops := ix.ops - keys)
  }

  // A pending purge stays pending, and no recorded epoch is lost or changed.
  predicate NeverUnpends(s: Disk, s': Disk) {
    (Pending(s.progress) ==> Pending(s'.progress)) && EpochsKept(s.progress, s'.progress)
  }

  predicate EpochsKept(p: map<string, Progress>, p': map<string, Progress>) {
    forall h :: h in p ==> h in p' && p'[h].epoch == p[h].epoch
  }

  // One tombstone for each identity, as loading them leaves it.
  predicate Loaded(ts: seq<Tombstone>) {
    forall i, j :: 0 <= i < j < |ts| ==> ts[i].identityHash != ts[j].identityHash
  }

  predicate Asked(p: map<string, Progress>, ts: seq<Tombstone>) {
    forall t :: t in ts ==> t.identityHash in p && p[t.identityHash].epoch == t.epoch
  }

  // The outcome of purging one index's operations.
  predicate OpsPurged(s: Disk, s': Disk, g: string, keys: set<string>) {
    && g in s.indexes && keys <= s.indexes[g].ops.Keys
    && s'.indexes == s.indexes[g := SansOps(s.indexes[g], keys)]
    && s'.forgotten == s.forgotten + OpIds(s.indexes[g], keys)
    && OwnBound(s.retired, s'.retired, s.indexes[g], keys)
    && NeverUnpends(s, s')
  }

  // What a key is bound to when its operation goes.
  function Own(op: Op): Retired {
    Retired(op.id, op.semantic)
  }

  // Each key is bound to its own operation, and no other binding moved.
  predicate OwnBound(retired: map<string, Retired>, retired': map<string, Retired>, ix: Index, keys: set<string>) {
    && keys <= ix.ops.Keys && retired'.Keys == retired.Keys + keys
    && (forall k :: k in retired ==> retired'[k] == retired[k])
    && (forall k :: k in keys ==> retired'[k] == Own(ix.ops[k]))
  }

  // No key among these is bound to anything but its own operation.
  predicate KeysFree(retired: map<string, Retired>, ix: Index, keys: set<string>) {
    forall k :: k in keys && k in ix.ops && k in retired ==> retired[k] == Own(ix.ops[k])
  }

  // Operations left one index, each after its key was bound.
  predicate OpsBound(s: Disk, s': Disk, g: string, keys: set<string>) {
    && g in s.indexes && s'.indexes.Keys == s.indexes.Keys
    && (forall h :: h in s.indexes ==>
          s'.indexes[h].ops == if h == g then s.indexes[h].ops - keys else s.indexes[h].ops)
    && OwnBound(s.retired, s'.retired, s.indexes[g], keys)
  }

  // A purge that a key stopped: no index changed, and some keys were bound before it.
  ghost predicate Halted(s: Disk, s': Disk, g: string, keys: set<string>) {
    && g in s.indexes && !KeysFree(s.retired, s.indexes[g], keys)
    && s'.indexes == s.indexes
    && exists some: set<string> :: some <= keys && OwnBound(s.retired, s'.retired, s.indexes[g], some)
         && s'.forgotten == s.forgotten + OpIds(s.indexes[g], some)
  }

  // The outcome of remembering what one index shows.
  predicate Remembered(time: ParseTime, ts: seq<Tombstone>, s: Disk, s': Disk, g: string) {
    && g in s.indexes
    && s'.indexes == s.indexes[g := SansOps(s.indexes[g], MatchingOps(time, ts, s.forgotten, s.indexes[g]))]
    && s'.forgotten == s.forgotten + Found(time, ts, s.forgotten, s.indexes[g])
    && NeverUnpends(s, s')
  }

  // The outcome of purging one index.
  predicate Swept(s: Disk, s': Disk, g: string, keys: set<string>) {
    && g in s.indexes
    && s'.forgotten == s.forgotten
    && NeverUnpends(s, s')
    && var ix := SansOps(s.indexes[g], keys);
    && (Purged(ix, s.forgotten) != ix ==> Pending(s'.progress))
    && s'.indexes ==
       s.indexes[g := Purged(ix, s.forgotten).(results := if Pending(s'.progress) then {} else ix.results)]
  }

  class Archive {
    var disk: Disk
    const live: string
    const time: ParseTime
    ghost var log: seq<Disk>

    ghost predicate Valid()
      reads this
    {
      Run(log) && log[|log| - 1] == disk && Inv(disk) && live in disk.indexes
    }

    constructor (disk: Disk, live: string, time: ParseTime)
      requires Inv(disk) && live in disk.indexes
      ensures Valid() && this.disk == disk && this.live == live && this.time == time && log == [disk]
    {
      this.disk, this.live, this.time, log := disk, live, time, [disk];
    }

    // Every write to the disk is one of the durable steps, and is logged.
    method Commit(next: Disk, ghost e: Event)
      requires Valid() && Does(disk, next, e)
      modifies this
      ensures Valid() && disk == next && log == old(log) + [next]
    {
      hide Does, Inv;
      ghost var before := log;
      DoesKeepsInv(disk, next, e);
      DoesEvolve(disk, next, e);
      assert Step(disk, next);
      disk := next;
      log := log + [next];
      forall i | 0 <= i < |log| - 1 ensures Step(log[i], log[i + 1]) {
        if i < |before| - 1 {
          assert Step(before[i], before[i + 1]);
        }
      }
    }

    /**
     Operations leave an index only after their key is bound in the ledger; a key
     bound to something else stops the purge.
     */
    method PurgeOperations(g: string, ts: seq<Tombstone>, forgotten: set<string>)
      returns (r: Result<set<string>, string>)
      requires Valid() && g in disk.indexes
      modifies this
      ensures Valid() && old(log) <= log
      ensures r.Ok? <==>
        KeysFree(old(disk).retired, old(disk.indexes)[g], MatchingOps(time, ts, forgotten, old(disk.indexes)[g]))
      ensures r.Ok? ==>
        var keys := MatchingOps(time, ts, forgotten, old(disk.indexes)[g]);
        OpsPurged(old(disk), disk, g, keys) && r.value == OpIds(old(disk.indexes)[g], keys)
      ensures MatchingOps(time, ts, forgotten, old(disk.indexes)[g]) == {} ==> disk.progress == old(disk.progress)
      ensures r.Ok? && MatchingOps(time, ts, forgotten, old(disk.indexes)[g]) != {} ==>
        forall h :: h in disk.progress ==> !disk.progress[h].complete
      ensures r.Err? ==> r.error == "idempotency_conflict"
      ensures r.Err? ==> Halted(old(disk), disk, g, MatchingOps(time, ts, forgotten, old(disk.indexes)[g]))
    {
      hide Run, Inv, OpMatches, Step, Pending, MatchingOps, Does, OpIds, KeysFree, OwnBound;
      ghost var before := disk;
      var ix := disk.indexes[g];
      var keys := MatchingOps(time, ts, forgotten, ix);
      MatchingAreOps(time, ts, forgotten, ix);
      var left := keys;
      BoundNone(disk, ix);
      assert keys - left == {};
      while left != {}
        invariant left <= keys && Valid() && old(log) <= log
        invariant Bound(before, disk, ix, keys - left)
        decreases left
      {
        var key :| key in left;
        var bound := Retired(ix.ops[key].id, ix.ops[key].semantic);
        BoundNext(before, disk, ix, keys, keys - left, key);
        if key in disk.retired && disk.retired[key] != bound {
          return Err("idempotency_conflict");
        }
        assert keys - (left - {key}) == (keys - left) + {key};
        Bind(key, bound);
        left := left - {key};
      }
      assert keys - left == keys;
      AllFree(before, disk, ix, keys);
      if keys != {} {
        Unmark();
      }
      Drop(g, keys);
      return Ok(OpIds(ix, keys));
    }

    // One key bound to the operation about to be deleted.
    method Bind(key: string, bound: Retired)
      requires Valid() && (key in disk.retired ==> disk.retired[key] == bound)
      modifies this
      ensures Valid() && log == old(log) + [disk]
      ensures disk == old(disk).(retired := old(disk).retired[key := bound],
                                 forgotten := old(disk).forgotten + {bound.id})
    {
      hide Run, Inv, Step, Pending;
      Commit(disk.(retired := disk.retired[key := bound], forgotten := disk.forgotten + {bound.id}),
             Retire(key, bound));
    }

    // Every recorded purge has work to do again.
    method Unmark()
      requires Valid()
      modifies this
      ensures Valid() && log == old(log) + [disk] && NeverUnpends(old(disk), disk)
      ensures disk == old(disk).(progress := disk.progress)
      ensures forall h :: h in disk.progress ==> !disk.progress[h].complete
    {
      hide Run, Inv, Step, Pending;
      ghost var before := disk;
      Commit(disk.(progress := map h | h in disk.progress :: disk.progress[h].(complete := false)), Reopen);
      if Pending(before.progress) { ReopenKeepsPending(before, disk); }
    }

    method Drop(g: string, keys: set<string>)
      requires Valid() && g in disk.indexes && keys <= disk.retired.Keys
      modifies this
      ensures Valid() && log == old(log) + [disk]
      ensures disk == old(disk).(indexes := old(disk).indexes[g := SansOps(old(disk).indexes[g], keys)])
    {
      hide Run, Inv, Step, Pending;
      Commit(disk.(indexes := disk.indexes[g := SansOps(disk.indexes[g], keys)]), DropOps(g, keys));
    }

    // The identities of one index's rows that are to be forgotten.
    method ScanRows(ix: Index, ts: seq<Tombstone>, forgotten: set<string>) returns (ids: set<string>)
      ensures ids == MatchingIds(time, ts, forgotten, ix)
    {
      hide RowMatches, JoinRows;
      ids := {};
      var rows := JoinRows(ix);
      var left := rows;
      while left != {}
        invariant left <= rows
        invariant ids == set r | r in rows - left && RowMatches(time, ts, forgotten, r) :: r.id
        decreases left
      {
        var r :| r in left;
        assert rows - (left - {r}) == (rows - left) + {r};
        if RowMatches(time, ts, forgotten, r) {
          ids := ids + {r.id};
        }
        left := left - {r};
      }
      assert rows - left == rows;
    }

    /** Commits what one index shows to be forgotten, before any of its rows is deleted. */
    method RememberMatching(g: string, ts: seq<Tombstone>, forgotten: set<string>)
      returns (r: Result<set<string>, string>)
      requires Valid() && g in disk.indexes && forgotten == disk.forgotten
      modifies this
      ensures Valid() && old(log) <= log
      ensures r.Ok? <==>
        KeysFree(old(disk).retired, old(disk.indexes)[g], MatchingOps(time, ts, forgotten, old(disk.indexes)[g]))
      ensures r.Ok? ==> Remembered(time, ts, old(disk), disk, g) && r.value == disk.forgotten
      ensures r.Ok? ==> OpsBound(old(disk), disk, g, MatchingOps(time, ts, forgotten, old(disk.indexes)[g]))
      ensures r.Err? ==> Halted(old(disk), disk, g, MatchingOps(time, ts, forgotten, old(disk.indexes)[g]))
    {
      hide Run, Inv, Step, Pending, MatchingIds, MatchingOps, Does, NeverUnpends, KeysFree, OwnBound, Halted;
      ghost var before := disk;
      var ops := PurgeOperations(g, ts, forgotten);
      if ops.Err? {
        return Err(ops.error);
      }
      var rows := ScanRows(disk.indexes[g], ts, forgotten);
      OpsDoNotMatter(time, ts, forgotten, old(disk.indexes)[g], MatchingOps(time, ts, forgotten, old(disk.indexes)[g]));
      var ids := ops.value + rows;
      if ids != {} {
        ghost var middle := disk;
        RememberIds(ids);
        NeverUnpendsTwice(before, middle, disk);
      }
      return Ok(forgotten + ids);
    }

    method RememberIds(ids: set<string>)
      requires Valid()
      modifies this
      ensures Valid() && log == old(log) + [disk] && Pending(disk.progress)
      ensures disk == old(disk).(progress := disk.progress, forgotten := old(disk).forgotten + ids)
        && NeverUnpends(old(disk), disk)
    {
      hide Run, Inv, Step, Pending;
      Commit(disk.(forgotten := disk.forgotten + ids, progress := MarkPending(disk.progress)), Remember(ids));
    }

    /** Deletes the forgotten identities from one index; the marker goes first. */
    method PurgeIndex(g: string, ts: seq<Tombstone>, forgotten: set<string>) returns (r: Result<set<string>, string>)
      requires Valid() && g in disk.indexes && forgotten == disk.forgotten && ClearOps(time, ts, disk.indexes[g])
      modifies this
      ensures Valid() && old(log) <= log
      ensures r.Ok? <==>
        KeysFree(old(disk).retired, old(disk.indexes)[g], MatchingOps(time, ts, forgotten, old(disk.indexes)[g]))
      ensures r.Ok? ==> r.value == MatchingOps(time, ts, forgotten, old(disk.indexes)[g])
      ensures r.Ok? ==> Swept(old(disk), disk, g, r.value) && OpsBound(old(disk), disk, g, r.value)
      ensures r.Err? ==> Halted(old(disk), disk, g, MatchingOps(time, ts, forgotten, old(disk.indexes)[g]))
    {
      hide Run, Inv, Step, Pending, MatchingOps, Does, Purged, ClearOps, OpIds, KeysFree, OwnBound, Halted;
      ghost var before := disk;
      var keys := MatchingOps(time, ts, forgotten, disk.indexes[g]);
      ClearOpsAreForgotten(time, ts, forgotten, disk.indexes[g]);
      var ops := PurgeOperations(g, ts, forgotten);
      if ops.Err? {
        return Err(ops.error);
      }
      ghost var middle := disk;
      SweepRows(g);
      SweptAfterOps(before, middle, disk, g, keys);
      return Ok(keys);
    }

    method SweepRows(g: string)
      requires Valid() && g in disk.indexes
      modifies this
      ensures Valid() && old(log) <= log
      ensures Swept(old(disk), disk, g, {}) && disk.retired == old(disk).retired
    {
      hide Run, Inv, Step, Pending, Purged;
      ghost var before := disk;
      var ix := disk.indexes[g];
      var purged := Purged(ix, disk.forgotten);
      if purged != ix {
        Commit(disk.(progress := MarkPending(disk.progress)), Mark);
      }
      assert SansOps(ix, {}) == ix by { assert ix.ops - {} == ix.ops; }
      var pending := Pending(disk.progress);
      Commit(disk.(indexes := disk.indexes[g := purged.(results := if pending then {} else ix.results)]),
             Event.Purge(g, disk.forgotten));
    }

    /** A publication naming a forgotten identity, as an item or as a member of its view, is refused whole. */
    method Publish(b: Batch) returns (r: Result<(), string>)
      requires Valid() && Consistent(Inserted(disk.indexes[live], b))
      modifies this
      ensures Valid() && old(log) <= log
      ensures r.Ok? <==> Carries(b) !! old(disk.forgotten)
      ensures r.Ok? <==> forall id :: id in old(disk.forgotten) ==> !Carried(b, id)
      ensures r.Ok? ==> AddsRows(old(disk).indexes[live], disk.indexes[live], b)
      ensures r.Ok? ==> disk == old(disk).(indexes := old(disk).indexes[live := Inserted(old(disk).indexes[live], b)])
      ensures r.Err? ==> r.error == "forgotten_identity" && disk == old(disk)
    {
      hide Run, Inv, Step, Inserted, Consistent, Carries, Carried, AddsRows;
      CarriesMeans(b, disk.forgotten);
      InsertedAddsRows(disk.indexes[live], b);
      if !(Carries(b) !! disk.forgotten) {
        return Err("forgotten_identity");
      }
      var next := disk.(indexes := disk.indexes[live := Inserted(disk.indexes[live], b)]);
      assert Publishes(disk, next, live, b);
      Commit(next, Event.Publish(live, b));
      return Ok(());
    }

    /** A vector cache is written beside its name and then renamed; a crash may leave the temporary file. */
    method BuildCache(file: string, versions: set<string>)
      requires Valid() && versions <= disk.indexes[live].versions.Keys
      modifies this
      ensures Valid() && |log| == |old(log)| + 2 && old(log) <= log
      ensures var ix := old(disk).indexes[live];
              var saved := ix.(caches := ix.caches[file := versions], temps := ix.temps - {file});
              disk == old(disk).(indexes := old(disk).indexes[live := saved])
    {
      hide Run, Inv, Step;
      var ix := disk.indexes[live];
      Commit(disk.(indexes := disk.indexes[live := ix.(temps := ix.temps[file := versions])]),
             Save(live, file, versions));
      var saved := disk.indexes[live];
      assert file in saved.temps && saved.temps[file] == versions;
      var moved := saved.(caches := saved.caches[file := saved.temps[file]], temps := saved.temps - {file});
      var renamed := disk.(indexes := disk.indexes[live := moved]);
      assert Renames(disk, renamed, live, file);
      Commit(renamed, Rename(live, file));
      assert saved.temps - {file} == ix.temps - {file};
      assert disk.indexes == old(disk).indexes[live := disk.indexes[live]];
    }

    // A tombstone whose epoch is not the recorded one reopens its purge.
    method Ask(ts: seq<Tombstone>)
      requires Valid() && Loaded(ts)
      modifies this
      ensures Valid() && old(log) <= log
      ensures disk == old(disk).(progress := disk.progress) && Asked(disk.progress, ts)
    {
      hide Run, Inv, Step, Pending, Does, Asked;
      AskedNone(disk.progress);
      for i := 0 to |ts|
        invariant Valid() && old(log) <= log
        invariant disk == old(disk).(progress := disk.progress) && Asked(disk.progress, ts[..i])
      {
        var t := ts[i];
        AskedNext(disk.progress, ts, i);
        if t.identityHash !in disk.progress || disk.progress[t.identityHash].epoch != t.epoch {
          AskOne(t);
        }
      }
      assert ts[..|ts|] == ts;
    }

    method AskOne(t: Tombstone)
      requires Valid()
      modifies this
      ensures Valid() && log == old(log) + [disk] && Pending(disk.progress)
      ensures disk == old(disk).(progress := old(disk).progress[t.identityHash := Progress(t.epoch, false)])
    {
      hide Run, Inv, Step, Pending;
      ghost var before := disk;
      Commit(disk.(progress := disk.progress[t.identityHash := Progress(t.epoch, false)]),
             Event.Ask(t.identityHash, t.epoch));
      AskIsPending(before, disk, t.identityHash, t.epoch);
    }

    // Every generation is inspected, the live one first, before any is purged.
    method RememberAll(ts: seq<Tombstone>) returns (r: Result<set<string>, string>)
      requires Valid()
      modifies this
      ensures Valid() && old(log) <= log
      ensures r.Ok? ==> r.value == disk.forgotten == ToForget(time, ts, old(disk))
      ensures r.Ok? ==> RememberedIn(time, ts, old(disk), disk, old(disk).indexes.Keys)
      ensures r.Ok? ==> Binds(old(disk), disk, ToForget(time, ts, old(disk)))
      ensures r.Err? ==> Stopped(time, ts, old(disk), disk)
    {
      hide Run, Inv, Step, Pending, Does, Remembered, RememberedIn, Shown, Binds, MatchingOps, KeysFree, OwnBound,
           OpsBound, Halted, Stopped;
      ghost var before := disk;
      ghost var ids := ToForget(time, ts, disk);
      RememberedInNone(time, ts, disk);
      BindsNone(disk, ids);
      var forgotten := disk.forgotten;
      var todo := disk.indexes.Keys;
      while todo != {}
        invariant todo <= before.indexes.Keys && Valid() && old(log) <= log
        invariant forgotten == disk.forgotten
        invariant RememberedIn(time, ts, before, disk, before.indexes.Keys - todo) && Binds(before, disk, ids)
        invariant disk.indexes.Keys == before.indexes.Keys
        invariant todo != {} && todo != before.indexes.Keys ==> live !in todo
        decreases todo
      {
        var g := live;
        if live !in todo {
          g :| g in todo;
        }
        ghost var middle := disk;
        MatchingReached(time, ts, before, middle, before.indexes.Keys - todo, g);
        var one := RememberMatching(g, ts, forgotten);
        if one.Err? {
          RememberStopped(time, ts, before, middle, disk, before.indexes.Keys - todo, g);
          return Err(one.error);
        }
        BindsMore(before, middle, disk, ids, g, MatchingOps(time, ts, forgotten, middle.indexes[g]));
        RememberOneMore(time, ts, before, middle, disk, before.indexes.Keys - todo, g);
        assert before.indexes.Keys - (todo - {g}) == before.indexes.Keys - todo + {g};
        forgotten := one.value;
        todo := todo - {g};
      }
      assert before.indexes.Keys - todo == before.indexes.Keys;
      RememberedAll(time, ts, before, disk);
      return Ok(forgotten);
    }

    method PurgeAll(ts: seq<Tombstone>, forgotten: set<string>, ghost start: Disk) returns (r: Result<(), string>)
      requires Valid() && forgotten == disk.forgotten == ToForget(time, ts, start) && Binds(start, disk, forgotten)
      requires forall g :: g in disk.indexes ==> ClearOps(time, ts, disk.indexes[g])
      requires RememberedIn(time, ts, start, disk, start.indexes.Keys)
      modifies this
      ensures Valid() && old(log) <= log
      ensures r.Ok? ==> PurgedIn(old(disk), disk, old(disk).indexes.Keys) && KeysAgree(start, forgotten)
      ensures r.Err? ==> Stopped(time, ts, start, disk)
    {
      hide Run, Inv, Step, Pending, Does, Swept, PurgedIn, ClearOps, MatchingOps, Binds, KeysFree, OwnBound, OpsBound,
           Halted, Stopped,
           RememberedIn, Shown, KeysAgree;
      ghost var before := disk;
      PurgedInNone(disk);
      var todo := disk.indexes.Keys;
      while todo != {}
        invariant todo <= before.indexes.Keys && Valid() && old(log) <= log
        invariant forgotten == disk.forgotten
        invariant PurgedIn(before, disk, before.indexes.Keys - todo) && Binds(start, disk, forgotten)
        invariant disk.indexes.Keys == before.indexes.Keys
        invariant forall g :: g in todo ==> disk.indexes[g] == before.indexes[g]
        invariant todo != {} && todo != before.indexes.Keys ==> live !in todo
        decreases todo
      {
        var g := live;
        if live !in todo {
          g :| g in todo;
        }
        ghost var middle := disk;
        ClearOpsAreForgotten(time, ts, forgotten, disk.indexes[g]);
        var one := PurgeIndex(g, ts, forgotten);
        if one.Err? {
          PurgeStopped(time, ts, start, before, middle, disk, before.indexes.Keys - todo, g);
          return Err(one.error);
        }
        BindsMore(start, middle, disk, forgotten, g, one.value);
        PurgeOneMore(time, ts, before, middle, disk, before.indexes.Keys - todo, g);
        assert before.indexes.Keys - (todo - {g}) == before.indexes.Keys - todo + {g};
        todo := todo - {g};
      }
      assert before.indexes.Keys - todo == before.indexes.Keys;
      PurgedNoneLeaving(before, disk);
      BindsAll(start, disk, forgotten);
      return Ok(());
    }

    // One file after another; a crash may leave any of them behind.
    method RemoveCaches()
      requires Valid()
      modifies this
      ensures Valid() && old(log) <= log
      ensures disk == old(disk).(indexes := map g | g in old(disk).indexes :: Uncached(old(disk).indexes[g]))
    {
      hide Run, Inv, Step, Pending, Does;
      ghost var before := disk;
      var todo := disk.indexes.Keys;
      while todo != {}
        invariant todo <= before.indexes.Keys && Valid() && old(log) <= log
        invariant disk == before.(indexes := disk.indexes) && disk.indexes.Keys == before.indexes.Keys
        invariant forall g :: g in before.indexes ==>
          disk.indexes[g] == if g in todo then before.indexes[g] else Uncached(before.indexes[g])
        decreases todo
      {
        var g :| g in todo;
        RemoveCachesOf(g);
        todo := todo - {g};
      }
    }

    method DropCaches()
      requires Valid()
      modifies this
      ensures Valid() && old(log) <= log && CachesGone(old(disk), disk)
      ensures Pending(disk.progress) ==> forall g :: g in disk.indexes ==> NoCaches(disk.indexes[g])
    {
      hide Run, Inv, Step, Pending, Does;
      if Pending(disk.progress) {
        RemoveCaches();
      }
    }

    method RemoveCachesOf(g: string)
      requires Valid() && g in disk.indexes
      modifies this
      ensures Valid() && old(log) <= log
      ensures disk == old(disk).(indexes := old(disk).indexes[g := Uncached(old(disk).indexes[g])])
    {
      hide Run, Inv, Step, Pending;
      ghost var before := disk;
      var ix := disk.indexes[g];
      assert disk.indexes[g := ix] == disk.indexes;
      while disk.indexes[g].caches != map[] || disk.indexes[g].temps != map[]
        invariant Valid() && old(log) <= log && g in disk.indexes
        invariant disk == before.(indexes :=
          before.indexes[g := ix.(caches := disk.indexes[g].caches, temps := disk.indexes[g].temps)])
        decreases disk.indexes[g].caches.Keys, disk.indexes[g].temps.Keys
      {
        var now := disk.indexes[g];
        if now.caches != map[] {
          var file :| file in now.caches;
          Commit(disk.(indexes := disk.indexes[g := now.(caches := now.caches - {file})]), Unlink(g, file, false));
        } else {
          var file :| file in now.temps;
          Commit(disk.(indexes := disk.indexes[g := now.(temps := now.temps - {file})]), Unlink(g, file, true));
        }
      }
    }

    method Finish()
      requires Valid() && (Pending(disk.progress) ==> forall g :: g in disk.indexes ==> NoCaches(disk.indexes[g]))
      modifies this
      ensures Valid() && log == old(log) + [disk]
      ensures disk == old(disk).(progress := MarkComplete(old(disk).progress))
    {
      hide Run, Inv, Step, Pending, NoCaches;
      Commit(disk.(progress := MarkComplete(disk.progress)), Complete);
    }

    /**
     The whole purge. When it returns, everything any generation showed to be
     forgotten is in the ledger and gone from every generation, nothing else is
     gone, and no purge is pending. Every intermediate state, at which a crash may
     fall, is in the log and keeps the invariant.

     It returns at all exactly when operations that share a key agree with each other
     and with the ledger. Otherwise it stops with a purge unfinished, and stops again
     whenever it is tried on what it left.
     */
    method Apply(ts: seq<Tombstone>) returns (r: Result<(), string>)
      requires Valid() && Loaded(ts)
      modifies this
      ensures Valid() && old(log) <= log
      ensures ts == [] && old(disk.forgotten) == {} ==> r.Ok? && disk == old(disk)
      ensures r.Ok? && !(ts == [] && old(disk.forgotten) == {}) ==> Applied(time, ts, old(disk), disk)
      ensures r.Ok? <==> KeysAgree(old(disk), ToForget(time, ts, old(disk)))
      ensures r.Err? ==> Stopped(time, ts, old(disk), disk)
    {
      hide Run, Inv, Step, Pending, Does, Shown, RememberedIn, PurgedIn, Applied, CachesGone, NeverUnpends, ClearOps,
           NoCaches, MatchingOps,
           Binds, KeysAgree, Stopped;
      ghost var s0 := disk;
      if ts == [] && disk.forgotten == {} {
        NothingToForget(time, disk);
        return Ok(());
      }
      Ask(ts);
      ghost var s1 := disk;
      ProgressDoesNotMatter(time, ts, s0, s1);
      var forgotten := RememberAll(ts);
      if forgotten.Err? {
        ProgressStops(time, ts, s0, s1, disk);
        return Err(forgotten.error);
      }
      ghost var s2 := disk;
      RememberedClears(time, ts, s1, s2);
      var purged := PurgeAll(ts, forgotten.value, s1);
      if purged.Err? {
        ProgressStops(time, ts, s0, s1, disk);
        return Err(purged.error);
      }
      ghost var s3 := disk;
      DropCaches();
      ghost var s4 := disk;
      Finish();
      PhasesApply(time, ts, s0, s1, s2, s3, s4, disk);
      return Ok(());
    }
  }

  // Progress of binding the keys of an index's operations.
  predicate Bound(s: Disk, s': Disk, ix: Index, keys: set<string>) {
    && OwnBound(s.retired, s'.retired, ix, keys) && KeysFree(s.retired, ix, keys)
    && keys <= ix.ops.Keys && keys <= s'.retired.Keys
    && s' == s.(retired := s'.retired, forgotten := s.forgotten + OpIds(ix, keys))
  }

  lemma BoundNone(s: Disk, ix: Index)
    ensures Bound(s, s, ix, {})
  {
  }

  lemma BoundNext(s: Disk, s': Disk, ix: Index, keys: set<string>, done: set<string>, key: string)
    requires Bound(s, s', ix, done) && key in ix.ops && key in keys && key !in done
    ensures key in s'.retired && s'.retired[key] != Own(ix.ops[key]) ==> !KeysFree(s.retired, ix, keys)
    ensures key !in s'.retired || s'.retired[key] == Own(ix.ops[key]) ==>
      Bound(s, s'.(retired := s'.retired[key := Own(ix.ops[key])], forgotten := s'.forgotten + {ix.ops[key].id}), ix,
            done + {key})
  {
    assert OpIds(ix, done + {key}) == OpIds(ix, done) + {ix.ops[key].id};
  }

  lemma AllFree(s: Disk, s': Disk, ix: Index, keys: set<string>)
    requires Bound(s, s', ix, keys)
    ensures KeysFree(s.retired, ix, keys) && OwnBound(s.retired, s'.retired, ix, keys)
  {
  }

  lemma MatchingAreOps(time: ParseTime, ts: seq<Tombstone>, forgotten: set<string>, ix: Index)
    ensures MatchingOps(time, ts, forgotten, ix) <= ix.ops.Keys
  {
  }

  lemma OpsDoNotMatter(time: ParseTime, ts: seq<Tombstone>, forgotten: set<string>, ix: Index, keys: set<string>)
    ensures MatchingIds(time, ts, forgotten, SansOps(ix, keys)) == MatchingIds(time, ts, forgotten, ix)
  {
    assert JoinRows(SansOps(ix, keys)) == JoinRows(ix);
  }

  lemma ClearOpsAreForgotten(time: ParseTime, ts: seq<Tombstone>, forgotten: set<string>, ix: Index)
    requires ClearOps(time, ts, ix)
    ensures MatchingOps(time, ts, forgotten, ix) <= ix.ops.Keys
    ensures OpIds(ix, MatchingOps(time, ts, forgotten, ix)) <= forgotten
  {
  }

  lemma SweptAfterOps(s: Disk, s1: Disk, s2: Disk, g: string, keys: set<string>)
    requires OpsPurged(s, s1, g, keys) && Swept(s1, s2, g, {}) && OpIds(s.indexes[g], keys) <= s.forgotten
    requires s2.retired == s1.retired
    ensures Swept(s, s2, g, keys) && OpsBound(s, s2, g, keys)
  {
    hide Pending, Purged, OwnBound;
    assert Purged(s1.indexes[g], s1.forgotten).ops == s1.indexes[g].ops by {
      PurgedKeepsOps(s1.indexes[g], s1.forgotten);
    }
    PurgedKeepsOps(SansOps(s1.indexes[g], {}), s1.forgotten);
    var ix := SansOps(s.indexes[g], keys);
    assert SansOps(ix, {}) == ix by { assert ix.ops - {} == ix.ops; }
    assert s1.forgotten == s.forgotten;
  }

  lemma PurgedKeepsOps(ix: Index, ids: set<string>)
    ensures Purged(ix, ids).ops == ix.ops
  {
  }

  // ----- when keys and operations agree

  // Everything that a purge of this disk is to forget.
  function ToForget(time: ParseTime, ts: seq<Tombstone>, s: Disk): set<string> {
    s.forgotten + Shown(time, ts, s.indexes, s.indexes.Keys)
  }

  // An operation, in any generation, of an identity to be forgotten.
  predicate Leaving(s: Disk, ids: set<string>, g: string, k: string) {
    g in s.indexes && k in s.indexes[g].ops && s.indexes[g].ops[k].id in ids
  }

  function OpAt(s: Disk, g: string, k: string): Op
    requires g in s.indexes && k in s.indexes[g].ops
  {
    s.indexes[g].ops[k]
  }

  /**
   Operations of forgotten identities that share a key, in whatever generations, are
   one operation, and the one the key is bound to if it is bound.
   */
  ghost predicate KeysAgree(s: Disk, ids: set<string>) {
    && (forall g, k :: Leaving(s, ids, g, k) && k in s.retired ==> s.retired[k] == Own(OpAt(s, g, k)))
    && (forall g, h, k :: Leaving(s, ids, g, k) && Leaving(s, ids, h, k) ==> Own(OpAt(s, g, k)) == Own(OpAt(s, h, k)))
  }

  // A key bound between two states was bound to an operation that was to leave.
  ghost predicate Source(s: Disk, ids: set<string>, k: string, b: Retired) {
    exists g :: Leaving(s, ids, g, k) && Own(OpAt(s, g, k)) == b
  }

  // Between two states of a purge: operations only leave, bound; keys are bound to those that leave.
  ghost predicate Binds(s: Disk, s': Disk, ids: set<string>) {
    && s'.indexes.Keys == s.indexes.Keys
    && (forall k :: k in s.retired ==> k in s'.retired && s'.retired[k] == s.retired[k])
    && (forall k :: k in s'.retired && k !in s.retired ==> Source(s, ids, k, s'.retired[k]))
    && (forall g :: g in s.indexes ==> OpsLeft(s.indexes[g].ops, s'.indexes[g].ops, s'.retired))
  }

  // Operations may have left, their keys bound; the others are as they were.
  predicate OpsLeft(ops: map<string, Op>, ops': map<string, Op>, retired: map<string, Retired>) {
    && (forall k :: k in ops' ==> k in ops && ops'[k] == ops[k])
    && (forall k :: k in ops && k !in ops' ==> k in retired && retired[k] == Own(ops[k]))
  }

  lemma OpsLeftMore(ops: map<string, Op>, ops1: map<string, Op>, retired1: map<string, Retired>,
                    retired2: map<string, Retired>,
                    keys: set<string>)
    requires OpsLeft(ops, ops1, retired1) && keys <= ops1.Keys
    requires forall k :: k in retired1 ==> k in retired2 && retired2[k] == retired1[k]
    requires forall k :: k in keys ==> k in retired2 && retired2[k] == Own(ops1[k])
    ensures OpsLeft(ops, ops1 - keys, retired2) && OpsLeft(ops, ops1, retired2)
  {
    hide Own;
  }

  lemma BindsNone(s: Disk, ids: set<string>)
    ensures Binds(s, s, ids)
  {
  }

  lemma BindsMore(s: Disk, s1: Disk, s2: Disk, ids: set<string>, g: string, keys: set<string>)
    requires Binds(s, s1, ids) && OpsBound(s1, s2, g, keys) && keys <= s1.indexes[g].ops.Keys
      && OpIds(s1.indexes[g], keys) <= ids
    ensures Binds(s, s2, ids)
  {
    hide Source, OwnBound, OpIds, Own, OpsLeft, Leaving;
    OwnBoundMeans(s1.retired, s2.retired, s1.indexes[g], keys);
    BindsSources(s, s1, s2, ids, g, keys);
    BindsOps(s, s1, s2, ids, g, keys);
  }

  lemma BindsSources(s: Disk, s1: Disk, s2: Disk, ids: set<string>, g: string, keys: set<string>)
    requires Binds(s, s1, ids) && OpsBound(s1, s2, g, keys) && keys <= s1.indexes[g].ops.Keys
      && OpIds(s1.indexes[g], keys) <= ids
    ensures forall k :: k in s2.retired && k !in s.retired ==> Source(s, ids, k, s2.retired[k])
  {
    hide Source, OwnBound, OpIds, Own, OpsLeft, Leaving;
    OwnBoundMeans(s1.retired, s2.retired, s1.indexes[g], keys);
    forall k | k in s2.retired && k !in s.retired ensures Source(s, ids, k, s2.retired[k]) {
      if k !in s1.retired {
        NewSource(s, s1, ids, g, keys, k);
      }
    }
  }

  lemma BindsOps(s: Disk, s1: Disk, s2: Disk, ids: set<string>, g: string, keys: set<string>)
    requires Binds(s, s1, ids) && OpsBound(s1, s2, g, keys)
    ensures s2.indexes.Keys == s.indexes.Keys
    ensures forall h :: h in s.indexes ==> OpsLeft(s.indexes[h].ops, s2.indexes[h].ops, s2.retired)
  {
    hide Source, OwnBound, Own, OpsLeft, Leaving;
    OwnBoundMeans(s1.retired, s2.retired, s1.indexes[g], keys);
    forall h | h in s.indexes ensures OpsLeft(s.indexes[h].ops, s2.indexes[h].ops, s2.retired) {
      var ops := s1.indexes[h].ops;
      OpsLeftMore(s.indexes[h].ops, ops, s1.retired, s2.retired, if h == g then keys else {});
      assert ops - {} == ops;
    }
  }

  lemma OwnBoundMeans(retired: map<string, Retired>, retired': map<string, Retired>, ix: Index, keys: set<string>)
    requires OwnBound(retired, retired', ix, keys)
    ensures retired'.Keys == retired.Keys + keys && keys <= ix.ops.Keys
    ensures forall k :: k in retired ==> retired'[k] == retired[k]
    ensures forall k :: k in keys ==> retired'[k] == Own(ix.ops[k])
  {
  }

  lemma NewSource(s: Disk, s1: Disk, ids: set<string>, g: string, keys: set<string>, k: string)
    requires Binds(s, s1, ids) && g in s1.indexes && k in keys && keys <= s1.indexes[g].ops.Keys
      && OpIds(s1.indexes[g], keys) <= ids
    ensures Source(s, ids, k, Own(s1.indexes[g].ops[k]))
  {
    assert s1.indexes[g].ops[k].id in OpIds(s1.indexes[g], keys);
    assert OpAt(s1, g, k) == OpAt(s, g, k);
    assert Leaving(s, ids, g, k);
  }

  // What stops one index keeps the whole from agreeing.
  lemma BindsHalted(s: Disk, s1: Disk, ids: set<string>, g: string, keys: set<string>)
    requires Binds(s, s1, ids) && g in s1.indexes && keys <= s1.indexes[g].ops.Keys && OpIds(s1.indexes[g], keys) <= ids
    requires !KeysFree(s1.retired, s1.indexes[g], keys)
    ensures !KeysAgree(s, ids)
  {
    var k :| k in keys && k in s1.indexes[g].ops && k in s1.retired && s1.retired[k] != Own(s1.indexes[g].ops[k]);
    assert s1.indexes[g].ops[k].id in OpIds(s1.indexes[g], keys);
    assert OpAt(s1, g, k) == OpAt(s, g, k);
    assert Leaving(s, ids, g, k);
    if k !in s.retired {
      assert Source(s, ids, k, s1.retired[k]);
      var h :| Leaving(s, ids, h, k) && Own(OpAt(s, h, k)) == s1.retired[k];
    }
  }

  // When all of them have left, they agreed.
  lemma BindsAll(s: Disk, s': Disk, ids: set<string>)
    requires Binds(s, s', ids) && forall g, k :: !Leaving(s', ids, g, k)
    ensures KeysAgree(s, ids)
  {
    forall g, k | Leaving(s, ids, g, k) ensures k in s'.retired && s'.retired[k] == Own(OpAt(s, g, k)) {
      assert !Leaving(s', ids, g, k);
    }
  }

  // A disk on which a purge stops, whenever it is tried.
  lemma HaltedStays(time: ParseTime, ts: seq<Tombstone>, s: Disk, s': Disk, g: string, forgotten: set<string>)
    requires g in s.indexes && forgotten <= s'.forgotten
    requires Halted(s, s', g, MatchingOps(time, ts, forgotten, s.indexes[g]))
    ensures !KeysAgree(s', ToForget(time, ts, s'))
  {
    hide OpMatches, MatchingIds;
    var ix := s.indexes[g];
    var keys := MatchingOps(time, ts, forgotten, ix);
    var k :| k in keys && k in ix.ops && k in s.retired && s.retired[k] != Own(ix.ops[k]);
    assert s'.indexes[g] == ix && k in s'.retired && s'.retired[k] == s.retired[k];
    OpIsToForget(time, ts, s', g, k, forgotten);
    assert Leaving(s', ToForget(time, ts, s'), g, k);
  }

  lemma OpIsToForget(time: ParseTime, ts: seq<Tombstone>, s: Disk, g: string, k: string, forgotten: set<string>)
    requires g in s.indexes && forgotten <= s.forgotten && k in MatchingOps(time, ts, forgotten, s.indexes[g])
    ensures k in s.indexes[g].ops && s.indexes[g].ops[k].id in ToForget(time, ts, s)
  {
    hide MatchingIds, AnyMatch;
    var ix := s.indexes[g];
    if ix.ops[k].id !in s.forgotten {
      assert OpMatches(time, ts, {}, ix.ops[k]);
      assert k in MatchingOps(time, ts, {}, ix);
      assert ix.ops[k].id in OpIds(ix, MatchingOps(time, ts, {}, ix));
      assert ix.ops[k].id in Found(time, ts, {}, ix);
    }
  }

  // ----- the phases, over values

  function Uncached(ix: Index): Index {
    ix.(caches := map[], temps := map[])
  }

  // Operations left an index, and only those whose identity is forgotten.
  predicate Thinned(ix: Index, ix': Index, forgotten: set<string>) {
    && ix' == SansOps(ix, ix.ops.Keys - ix'.ops.Keys)
    && (forall k :: k in ix.ops && k !in ix'.ops ==> ix.ops[k].id in forgotten)
  }

  // An index without the forgotten identities: rows, references, operations.
  function Forgot(ix: Index, forgotten: set<string>): Index {
    Purged(ix, forgotten).(ops := map k | k in ix.ops && ix.ops[k].id !in forgotten :: ix.ops[k])
  }

  predicate RememberedIn(time: ParseTime, ts: seq<Tombstone>, s: Disk, s': Disk, done: set<string>) {
    && s'.indexes.Keys == s.indexes.Keys
    && s'.forgotten == s.forgotten + Shown(time, ts, s.indexes, done)
    && NeverUnpends(s, s')
    && (forall g :: g in s.indexes && g in done ==>
          Thinned(s.indexes[g], s'.indexes[g], s'.forgotten) && ClearOps(time, ts, s'.indexes[g]))
    && (forall g :: g in s.indexes && g !in done ==> s'.indexes[g] == s.indexes[g])
  }

  lemma RememberedInNone(time: ParseTime, ts: seq<Tombstone>, s: Disk)
    ensures RememberedIn(time, ts, s, s, s.indexes.Keys - s.indexes.Keys)
  {
    hide Found;
    assert Shown(time, ts, s.indexes, {}) == {};
  }

  // What is found with the ledger at hand is what is found without it, and the ledger.
  lemma FoundBeyondLedger(time: ParseTime, ts: seq<Tombstone>, forgotten: set<string>, ix: Index)
    ensures forgotten + Found(time, ts, forgotten, ix) == forgotten + Found(time, ts, {}, ix)
  {
    hide JoinRows, AnyMatch;
    forall id | id in Found(time, ts, forgotten, ix) && id !in forgotten ensures id in Found(time, ts, {}, ix) {
      if id in MatchingIds(time, ts, forgotten, ix) {
        var r :| r in JoinRows(ix) && RowMatches(time, ts, forgotten, r) && r.id == id;
        assert RowMatches(time, ts, {}, r);
      } else {
        var k :| k in MatchingOps(time, ts, forgotten, ix) && ix.ops[k].id == id;
        assert OpMatches(time, ts, {}, ix.ops[k]);
        assert k in MatchingOps(time, ts, {}, ix);
      }
    }
    forall id | id in Found(time, ts, {}, ix) ensures id in Found(time, ts, forgotten, ix) {
      if id in MatchingIds(time, ts, {}, ix) {
        var r :| r in JoinRows(ix) && RowMatches(time, ts, {}, r) && r.id == id;
        assert RowMatches(time, ts, forgotten, r);
      } else {
        var k :| k in MatchingOps(time, ts, {}, ix) && ix.ops[k].id == id;
        assert OpMatches(time, ts, forgotten, ix.ops[k]);
        assert k in MatchingOps(time, ts, forgotten, ix);
      }
    }
  }

  lemma SansOpsClears(time: ParseTime, ts: seq<Tombstone>, forgotten: set<string>, ix: Index)
    ensures ClearOps(time, ts, SansOps(ix, MatchingOps(time, ts, forgotten, ix)))
    ensures Thinned(ix, SansOps(ix, MatchingOps(time, ts, forgotten, ix)), Found(time, ts, forgotten, ix))
  {
    hide AnyMatch, MatchingIds;
    var keys := MatchingOps(time, ts, forgotten, ix);
    var ix' := SansOps(ix, keys);
    assert ix.ops.Keys - ix'.ops.Keys == keys;
    forall k | k in ix'.ops
      ensures !AnyMatch(time, ts, ix'.ops[k].id, ThirdField(ix'.ops[k].id), Some(ix'.ops[k].recordedAt)) {
      assert !OpMatches(time, ts, forgotten, ix.ops[k]);
    }
  }

  lemma ShownOneMore(time: ParseTime, ts: seq<Tombstone>, indexes: map<string, Index>, done: set<string>, g: string)
    requires g in indexes
    ensures Shown(time, ts, indexes, done + {g}) == Shown(time, ts, indexes, done) + Found(time, ts, {}, indexes[g])
  {
    hide Found;
  }

  lemma RememberOneMore(time: ParseTime, ts: seq<Tombstone>, s: Disk, s1: Disk, s2: Disk, done: set<string>, g: string)
    requires RememberedIn(time, ts, s, s1, done) && g !in done && Remembered(time, ts, s1, s2, g)
    ensures RememberedIn(time, ts, s, s2, done + {g})
    ensures s2.indexes.Keys == s.indexes.Keys
  {
    hide Pending, Found, MatchingOps, ClearOps, Shown, SansOps, Thinned, NeverUnpends;
    var ix := s.indexes[g];
    FoundBeyondLedger(time, ts, s1.forgotten, ix);
    SansOpsClears(time, ts, s1.forgotten, ix);
    ShownOneMore(time, ts, s.indexes, done, g);
    NeverUnpendsTwice(s, s1, s2);
    forall h | h in s.indexes && h in done + {g} ensures Thinned(s.indexes[h], s2.indexes[h], s2.forgotten) {
      if h in done {
        ThinnedMore(s.indexes[h], s1.indexes[h], s1.forgotten, s2.forgotten);
      } else {
        ThinnedMore(ix, s2.indexes[g], Found(time, ts, s1.forgotten, ix), s2.forgotten);
      }
    }
  }

  lemma NeverUnpendsTwice(s: Disk, s1: Disk, s2: Disk)
    requires NeverUnpends(s, s1) && NeverUnpends(s1, s2)
    ensures NeverUnpends(s, s2)
  {
    hide Pending;
  }

  lemma ThinnedMore(ix: Index, ix': Index, few: set<string>, more: set<string>)
    requires Thinned(ix, ix', few) && few <= more
    ensures Thinned(ix, ix', more)
  {
    hide SansOps;
  }

  lemma RememberedClears(time: ParseTime, ts: seq<Tombstone>, s: Disk, s': Disk)
    requires RememberedIn(time, ts, s, s', s.indexes.Keys)
    ensures forall g :: g in s'.indexes ==> ClearOps(time, ts, s'.indexes[g])
  {
    hide ClearOps, Shown, Pending, Thinned;
  }

  predicate PurgedIn(s: Disk, s': Disk, done: set<string>) {
    && s'.indexes.Keys == s.indexes.Keys && s'.forgotten == s.forgotten && NeverUnpends(s, s')
    && (forall g :: g in s.indexes && g in done ==>
        PurgedOne(s.indexes[g], s'.indexes[g], s.forgotten, Pending(s'.progress)))
    && (forall g :: g in s.indexes && g !in done ==> s'.indexes[g] == s.indexes[g])
  }

  predicate PurgedOne(ix: Index, ix': Index, forgotten: set<string>, pending: bool) {
    && ix' == Forgot(ix, forgotten).(results := ix'.results) && (ix'.results == ix.results || ix'.results == {})
    && (!pending ==> ix' == ix.(ops := ix'.ops))
  }

  lemma PurgedOneStill(ix: Index, ix': Index, forgotten: set<string>, pending: bool, pending': bool)
    requires PurgedOne(ix, ix', forgotten, pending) && (pending ==> pending')
    ensures PurgedOne(ix, ix', forgotten, pending')
  {
    hide Forgot;
  }

  lemma PurgedInNone(s: Disk)
    ensures PurgedIn(s, s, s.indexes.Keys - s.indexes.Keys)
  {
    hide Pending, Forgot;
  }

  lemma SweptForgets(time: ParseTime, ts: seq<Tombstone>, s: Disk, s': Disk, g: string, keys: set<string>)
    requires Swept(s, s', g, keys) && ClearOps(time, ts, s.indexes[g])
      && keys == MatchingOps(time, ts, s.forgotten, s.indexes[g])
    ensures PurgedOne(s.indexes[g], s'.indexes[g], s.forgotten, Pending(s'.progress))
  {
    hide Pending, AnyMatch;
    var ix := s.indexes[g];
    forall k | k in ix.ops ensures k in keys <==> ix.ops[k].id in s.forgotten {
      assert OpMatches(time, ts, s.forgotten, ix.ops[k]) <==> ix.ops[k].id in s.forgotten;
    }
    assert SansOps(ix, keys).ops == map k | k in ix.ops && ix.ops[k].id !in s.forgotten :: ix.ops[k];
    OpsAreApart(ix, keys, s.forgotten);
  }

  lemma OpsAreApart(ix: Index, keys: set<string>, ids: set<string>)
    ensures Purged(SansOps(ix, keys), ids) == Purged(ix, ids).(ops := ix.ops - keys)
  {
  }

  lemma SweptKeepsOthers(s: Disk, s': Disk, g: string, keys: set<string>)
    requires Swept(s, s', g, keys)
    ensures s'.indexes.Keys == s.indexes.Keys && s'.forgotten == s.forgotten && NeverUnpends(s, s')
    ensures forall h :: h in s.indexes && h != g ==> s'.indexes[h] == s.indexes[h]
  {
    hide NeverUnpends, Purged, Pending, SansOps;
  }

  lemma NoLongerUnpending(s: Disk, s': Disk)
    requires NeverUnpends(s, s')
    ensures !Pending(s'.progress) ==> !Pending(s.progress)
  {
    hide Pending;
  }

  lemma PurgeOneMore(time: ParseTime, ts: seq<Tombstone>, s: Disk, s1: Disk, s2: Disk, done: set<string>, g: string)
    requires PurgedIn(s, s1, done) && g in s.indexes && g !in done && ClearOps(time, ts, s.indexes[g])
    requires Swept(s1, s2, g, MatchingOps(time, ts, s1.forgotten, s1.indexes[g]))
    ensures PurgedIn(s, s2, done + {g})
    ensures s2.indexes.Keys == s.indexes.Keys && s2.forgotten == s.forgotten
    ensures forall h :: h in s.indexes && h !in done && h != g ==> s2.indexes[h] == s.indexes[h]
  {
    hide Pending, Purged, Forgot, ClearOps, MatchingOps, NeverUnpends, SansOps, Swept, PurgedOne;
    var keys := MatchingOps(time, ts, s1.forgotten, s1.indexes[g]);
    SweptKeepsOthers(s1, s2, g, keys);
    NeverUnpendsTwice(s, s1, s2);
    NoLongerUnpending(s1, s2);
    SweptForgets(time, ts, s1, s2, g, keys);
    forall h | h in s.indexes && h in done
      ensures PurgedOne(s.indexes[h], s2.indexes[h], s.forgotten, Pending(s2.progress)) {
      PurgedOneStill(s.indexes[h], s1.indexes[h], s.forgotten, Pending(s1.progress), Pending(s2.progress));
    }
  }

  lemma ThinnedForgets(ix: Index, ix': Index, forgotten: set<string>)
    requires Thinned(ix, ix', forgotten)
    ensures Forgot(ix', forgotten) == Forgot(ix, forgotten)
  {
    var keys := ix.ops.Keys - ix'.ops.Keys;
    OpsAreApart(ix, keys, forgotten);
    hide Purged;
    assert Forgot(ix', forgotten).ops == Forgot(ix, forgotten).ops;
  }

  // Only result sets and vector caches may differ beyond that.
  predicate Cleaned(ix: Index, ix': Index, forgotten: set<string>) {
    && ix' == Forgot(ix, forgotten).(results := ix'.results, caches := ix'.caches, temps := ix'.temps)
    && (ix'.results == ix.results || ix'.results == {})
  }

  // The rows of an index under a purge that stopped: all there, or without all that is forgotten.
  predicate RowsWhole(ix: Index, ix': Index, ids: set<string>) {
    || ix' == ix.(ops := ix'.ops)
    || ix' == Forgot(ix, ids).(ops := ix'.ops, results := ix'.results)
  }

  /** What a purge that stops leaves: a disk on which it stops again. */
  ghost predicate Stopped(time: ParseTime, ts: seq<Tombstone>, s: Disk, s': Disk) {
    && !KeysAgree(s, ToForget(time, ts, s))
    && !KeysAgree(s', ToForget(time, ts, s'))
    && s'.indexes.Keys == s.indexes.Keys
    && s.forgotten <= s'.forgotten <= ToForget(time, ts, s)
    && (forall g :: g in s.indexes ==> RowsWhole(s.indexes[g], s'.indexes[g], ToForget(time, ts, s)))
  }

  lemma NothingToForget(time: ParseTime, s: Disk)
    requires s.forgotten == {}
    ensures KeysAgree(s, ToForget(time, [], s))
  {
    hide JoinRows;
    assert ToForget(time, [], s) == {};
  }

  lemma ProgressDoesNotMatter(time: ParseTime, ts: seq<Tombstone>, s: Disk, s': Disk)
    requires s' == s.(progress := s'.progress)
    ensures ToForget(time, ts, s') == ToForget(time, ts, s)
    ensures KeysAgree(s', ToForget(time, ts, s')) <==> KeysAgree(s, ToForget(time, ts, s))
  {
    hide Shown;
    var ids := ToForget(time, ts, s);
    assert forall g, k :: Leaving(s', ids, g, k) <==> Leaving(s, ids, g, k);
    assert forall g, k :: Leaving(s, ids, g, k) ==> OpAt(s', g, k) == OpAt(s, g, k);
  }

  lemma ProgressStops(time: ParseTime, ts: seq<Tombstone>, s: Disk, s1: Disk, s2: Disk)
    requires s1 == s.(progress := s1.progress) && Stopped(time, ts, s1, s2)
    ensures Stopped(time, ts, s, s2) && !KeysAgree(s, ToForget(time, ts, s))
  {
    hide KeysAgree, Shown, RowsWhole, ToForget;
    ProgressDoesNotMatter(time, ts, s, s1);
  }

  // What one index matches while remembering is to be forgotten.
  lemma MatchingReached(time: ParseTime, ts: seq<Tombstone>, s: Disk, s1: Disk, done: set<string>, g: string)
    requires RememberedIn(time, ts, s, s1, done) && g in s.indexes && g !in done && done <= s.indexes.Keys
    ensures var keys := MatchingOps(time, ts, s1.forgotten, s1.indexes[g]);
      keys <= s1.indexes[g].ops.Keys && OpIds(s1.indexes[g], keys) <= ToForget(time, ts, s)
    ensures s1.forgotten <= ToForget(time, ts, s)
  {
    hide Pending, MatchingIds, MatchingOps, ClearOps, Thinned, NeverUnpends;
    var ix := s.indexes[g];
    MatchingAreOps(time, ts, s1.forgotten, ix);
    FoundBeyondLedger(time, ts, s1.forgotten, ix);
    ShownGrows(time, ts, s.indexes, done, s.indexes.Keys, g);
  }

  lemma ShownGrows(time: ParseTime, ts: seq<Tombstone>, indexes: map<string, Index>, some: set<string>,
                   more: set<string>, g: string)
    requires some <= more && g in more && g in indexes
    ensures Shown(time, ts, indexes, some) <= Shown(time, ts, indexes, more)
    ensures Found(time, ts, {}, indexes[g]) <= Shown(time, ts, indexes, more)
  {
    hide Found;
  }

  lemma RememberedAll(time: ParseTime, ts: seq<Tombstone>, s: Disk, s': Disk)
    requires RememberedIn(time, ts, s, s', s.indexes.Keys)
    ensures s'.forgotten == ToForget(time, ts, s)
  {
    hide Shown, Thinned, ClearOps, NeverUnpends;
  }

  lemma RememberStopped(time: ParseTime, ts: seq<Tombstone>, s: Disk, s1: Disk, s2: Disk, done: set<string>, g: string)
    requires RememberedIn(time, ts, s, s1, done) && g in s.indexes && g !in done && done <= s.indexes.Keys
    requires Binds(s, s1, ToForget(time, ts, s))
    requires Halted(s1, s2, g, MatchingOps(time, ts, s1.forgotten, s1.indexes[g]))
    ensures Stopped(time, ts, s, s2)
  {
    hide Binds, MatchingOps, KeysAgree, KeysFree, OwnBound, Shown, ClearOps, NeverUnpends, Forgot;
    var keys := MatchingOps(time, ts, s1.forgotten, s1.indexes[g]);
    MatchingReached(time, ts, s, s1, done, g);
    BindsHalted(s, s1, ToForget(time, ts, s), g, keys);
    HaltedForgotten(s1, s2, g, keys, ToForget(time, ts, s));
    HaltedStays(time, ts, s1, s2, g, s1.forgotten);
  }

  lemma HaltedForgotten(s: Disk, s': Disk, g: string, keys: set<string>, ids: set<string>)
    requires Halted(s, s', g, keys) && keys <= s.indexes[g].ops.Keys && OpIds(s.indexes[g], keys) <= ids
      && s.forgotten <= ids
    ensures s.forgotten <= s'.forgotten <= ids && s'.indexes == s.indexes
  {
    hide KeysFree, OwnBound;
  }

  lemma PurgeStopped(time: ParseTime, ts: seq<Tombstone>, s: Disk, s1: Disk, s2: Disk, s3: Disk, done: set<string>,
                     g: string)
    requires RememberedIn(time, ts, s, s1, s.indexes.Keys) && s1.forgotten == ToForget(time, ts, s)
    requires PurgedIn(s1, s2, done) && g in s1.indexes && Binds(s, s2, s1.forgotten)
    requires var keys := MatchingOps(time, ts, s1.forgotten, s2.indexes[g]);
      Halted(s2, s3, g, keys) && keys <= s2.indexes[g].ops.Keys && OpIds(s2.indexes[g], keys) <= s1.forgotten
    ensures Stopped(time, ts, s, s3)
  {
    hide Binds, MatchingOps, KeysAgree, KeysFree, OwnBound, Shown, ClearOps, NeverUnpends, Forgot, Pending, Thinned,
         PurgedOne, RowsWhole;
    var keys := MatchingOps(time, ts, s1.forgotten, s2.indexes[g]);
    BindsHalted(s, s2, s1.forgotten, g, keys);
    HaltedForgotten(s2, s3, g, keys, s1.forgotten);
    HaltedStays(time, ts, s2, s3, g, s1.forgotten);
    forall h | h in s.indexes ensures RowsWhole(s.indexes[h], s3.indexes[h], s1.forgotten) {
      if h in done {
        WholeAfterPurge(s.indexes[h], s1.indexes[h], s2.indexes[h], s1.forgotten, Pending(s2.progress));
      } else {
        WholeBeforePurge(s.indexes[h], s1.indexes[h], s1.forgotten);
      }
    }
  }

  lemma WholeAfterPurge(ix: Index, ix1: Index, ix2: Index, ids: set<string>, pending: bool)
    requires Thinned(ix, ix1, ids) && PurgedOne(ix1, ix2, ids, pending)
    ensures RowsWhole(ix, ix2, ids)
  {
    hide Forgot;
    ThinnedForgets(ix, ix1, ids);
  }

  lemma WholeBeforePurge(ix: Index, ix1: Index, ids: set<string>)
    requires Thinned(ix, ix1, ids)
    ensures RowsWhole(ix, ix1, ids)
  {
    hide Forgot;
  }

  lemma PurgedNoneLeaving(s: Disk, s': Disk)
    requires PurgedIn(s, s', s.indexes.Keys)
    ensures forall g, k :: !Leaving(s', s.forgotten, g, k)
  {
    hide Purged, Pending, NeverUnpends;
  }

  /** What a whole purge does. */
  predicate Applied(time: ParseTime, ts: seq<Tombstone>, s: Disk, s': Disk) {
    && s'.indexes.Keys == s.indexes.Keys
    && s'.forgotten == s.forgotten + Shown(time, ts, s.indexes, s.indexes.Keys)
    && !Pending(s'.progress) && Asked(s'.progress, ts)
    && (forall g :: g in s.indexes ==> Cleaned(s.indexes[g], s'.indexes[g], s'.forgotten))
    && ((forall g :: g in s.indexes ==> NoCaches(s'.indexes[g]))
        || (forall g :: g in s.indexes ==> s'.indexes[g] == s.indexes[g].(ops := s'.indexes[g].ops)))
  }

  predicate CachesGone(s: Disk, s': Disk) {
    if Pending(s.progress) then s' == s.(indexes := map g | g in s.indexes :: Uncached(s.indexes[g])) else s' == s
  }

  lemma PhasesApply(time: ParseTime, ts: seq<Tombstone>, s0: Disk, s1: Disk, s2: Disk, s3: Disk, s4: Disk, s5: Disk)
    requires s1 == s0.(progress := s1.progress) && RememberedIn(time, ts, s1, s2, s1.indexes.Keys)
    requires PurgedIn(s2, s3, s2.indexes.Keys)
    requires CachesGone(s3, s4) && Asked(s1.progress, ts)
    requires s5 == s4.(progress := MarkComplete(s4.progress))
    ensures Applied(time, ts, s0, s5)
  {
    hide Pending, Shown, ClearOps, Forgot, Purged, PurgedOne, Thinned, Cleaned, CachesGone, NoCaches, Uncached, Asked,
         EpochsKept, MarkComplete;
    CachesGoneShape(s3, s4);
    AskedKept(s1.progress, s2.progress, ts);
    AskedKept(s2.progress, s3.progress, ts);
    AskedKept(s3.progress, s5.progress, ts);
    forall g | g in s1.indexes ensures Cleaned(s1.indexes[g], s5.indexes[g], s5.forgotten) {
      IndexCleaned(s1.indexes[g], s2.indexes[g], s3.indexes[g], s5.indexes[g], s5.forgotten, Pending(s3.progress));
    }
    if !Pending(s3.progress) {
      QuietPhases(s1, s2, s3);
    }
  }

  lemma AskedKept(p: map<string, Progress>, p': map<string, Progress>, ts: seq<Tombstone>)
    requires Asked(p, ts) && EpochsKept(p, p')
    ensures Asked(p', ts)
  {
  }

  lemma AskedNone(p: map<string, Progress>)
    ensures Asked(p, [])
  {
  }

  lemma AskedNext(p: map<string, Progress>, ts: seq<Tombstone>, i: nat)
    requires i < |ts| && Loaded(ts) && Asked(p, ts[..i])
    ensures Asked(p[ts[i].identityHash := Progress(ts[i].epoch, false)], ts[..i + 1])
    ensures ts[i].identityHash in p && p[ts[i].identityHash].epoch == ts[i].epoch ==> Asked(p, ts[..i + 1])
  {
    assert ts[..i + 1] == ts[..i] + [ts[i]];
  }

  lemma CachesGoneShape(s: Disk, s': Disk)
    requires CachesGone(s, s')
    ensures s'.indexes.Keys == s.indexes.Keys && s'.forgotten == s.forgotten
    ensures s'.progress == s.progress && EpochsKept(s'.progress, MarkComplete(s'.progress))
    ensures forall g :: g in s.indexes ==> s'.indexes[g] == Uncached(s.indexes[g]) || s'.indexes[g] == s.indexes[g]
    ensures if Pending(s.progress) then forall g :: g in s.indexes ==> NoCaches(s'.indexes[g]) else s' == s
  {
    hide Pending;
  }

  lemma IndexCleaned(ix1: Index, ix2: Index, ix3: Index, ix5: Index, forgotten: set<string>, pending: bool)
    requires Thinned(ix1, ix2, forgotten) && PurgedOne(ix2, ix3, forgotten, pending)
    requires ix5 == Uncached(ix3) || ix5 == ix3
    ensures Cleaned(ix1, ix5, forgotten)
  {
    hide Forgot;
    ThinnedForgets(ix1, ix2, forgotten);
  }

  lemma QuietPhases(s1: Disk, s2: Disk, s3: Disk)
    requires s1.indexes.Keys == s2.indexes.Keys == s3.indexes.Keys
    requires forall g :: g in s1.indexes ==> Thinned(s1.indexes[g], s2.indexes[g], s2.forgotten)
    requires forall g :: g in s2.indexes ==> PurgedOne(s2.indexes[g], s3.indexes[g], s2.forgotten, false)
    ensures forall g :: g in s1.indexes ==> s3.indexes[g] == s1.indexes[g].(ops := s3.indexes[g].ops)
  {
  }

  /** After a purge no generation holds a row, a reference or an operation of a forgotten identity. */
  lemma AppliedIsClosed(time: ParseTime, ts: seq<Tombstone>, s: Disk, s': Disk, id: string)
    requires Inv(s) && Applied(time, ts, s, s') && id in s'.forgotten
    ensures Gone(s', id) && NowhereReferenced(s', id)
  {
    hide Pending, Purged, Forgot, Shown, NoCaches, Consistent, Absent, Unreferenced, Unreserved;
    forall g | g in s'.indexes
      ensures Absent(s'.indexes[g], id) && Unreferenced(s'.indexes[g], id) && Unreserved(s'.indexes[g], id)
    {
      ForgotIsClean(s.indexes[g], s'.indexes[g], s'.forgotten, id);
    }
  }

  // The identity whose version a row stands on.
  function Owner(ix: Index, v: string): string
    requires Consistent(ix) && v in ix.versions
  {
    ix.versions[v].item
  }

  // A membership stands on an item, a version and an observation, which need not be of one identity.
  predicate MemberStays(ix: Index, m: ViewItem, ids: set<string>)
    requires Consistent(ix) && m in ix.viewItems
  {
    && m.item !in ids && Owner(ix, m.version) !in ids
    && Owner(ix, ix.observations[m.observation].version) !in ids
  }

  /** Row by row: what stands on a forgotten identity is gone, and everything else is there as it was. */
  ghost predicate RestKept(ix: Index, ix': Index, ids: set<string>)
    requires Consistent(ix)
  {
    && RowsKept(ix, ix', ids)
    && (forall m :: m in ix'.viewItems <==> m in ix.viewItems && MemberStays(ix, m, ids))
    && (forall r :: r in ix'.relations <==> r in ix.relations && r.to !in ids && Owner(ix, r.from) !in ids)
    && (forall k :: k in ix'.ops <==> k in ix.ops && ix.ops[k].id !in ids)
    && (forall k :: k in ix'.ops ==> ix'.ops[k] == ix.ops[k])
  }

  ghost predicate RowsKept(ix: Index, ix': Index, ids: set<string>)
    requires Consistent(ix)
  {
    && (forall i :: i in ix'.items <==> i in ix.items && i !in ids)
    && (forall i :: i in ix'.items ==> ix'.items[i] == ix.items[i])
    && (forall v :: v in ix'.versions <==> v in ix.versions && Owner(ix, v) !in ids)
    && (forall v :: v in ix'.versions ==> ix'.versions[v] == ix.versions[v])
    && (forall o :: o in ix'.observations <==>
          o in ix.observations && Owner(ix, ix.observations[o].version) !in ids)
    && (forall o :: o in ix'.observations ==> ix'.observations[o] == ix.observations[o])
  }

  /** A purge takes what is forgotten from every generation, and nothing else. */
  lemma AppliedKeepsTheRest(time: ParseTime, ts: seq<Tombstone>, s: Disk, s': Disk)
    requires Inv(s) && Applied(time, ts, s, s')
    ensures s'.indexes.Keys == s.indexes.Keys
    ensures forall g :: g in s.indexes ==>
              Consistent(s.indexes[g]) && RestKept(s.indexes[g], s'.indexes[g], s'.forgotten)
  {
    hide Pending, Cleaned, Shown, NoCaches, Consistent, Asked;
    forall g | g in s.indexes
      ensures Consistent(s.indexes[g]) && RestKept(s.indexes[g], s'.indexes[g], s'.forgotten)
    {
      CleanedKeepsTheRest(s.indexes[g], s'.indexes[g], s'.forgotten);
    }
  }

  lemma CleanedKeepsTheRest(ix: Index, ix': Index, ids: set<string>)
    requires Consistent(ix) && Cleaned(ix, ix', ids)
    ensures RestKept(ix, ix', ids)
  {
    CleanedKeepsRows(ix, ix', ids);
    hide RowsKept;
  }

  lemma CleanedKeepsRows(ix: Index, ix': Index, ids: set<string>)
    requires Consistent(ix) && Cleaned(ix, ix', ids)
    ensures RowsKept(ix, ix', ids)
  {
  }

  // An identity that a predicate matches in one index: by an item, a version, an observed version or an operation.
  ghost predicate Matched(time: ParseTime, ts: seq<Tombstone>, ix: Index, id: string) {
    || (id in ix.items && (forall v :: v in ix.versions ==> ix.versions[v].item != id)
        && AnyMatch(time, ts, id, ix.items[id], None))
    || (exists v :: v in ix.versions && ix.versions[v].item == id && MatchedUnobserved(time, ts, ix, v))
    || (exists o :: o in ix.observations && MatchedVersion(time, ts, ix, o)
                    && ix.versions[ix.observations[o].version].item == id)
    || (exists k :: k in ix.ops && ix.ops[k].id == id
                    && AnyMatch(time, ts, id, ThirdField(id), Some(ix.ops[k].recordedAt)))
  }

  predicate MatchedUnobserved(time: ParseTime, ts: seq<Tombstone>, ix: Index, v: string)
    requires v in ix.versions
  {
    && (forall o :: o in ix.observations ==> ix.observations[o].version != v)
    && ix.versions[v].item in ix.items
    && AnyMatch(time, ts, ix.versions[v].item, ix.items[ix.versions[v].item], ix.versions[v].recordedAt)
  }

  lemma MatchedIfFound(time: ParseTime, ts: seq<Tombstone>, ix: Index, id: string)
    requires id in MatchingIds(time, ts, {}, ix)
    ensures Matched(time, ts, ix, id)
  {
    hide AnyMatch, ThirdField;
    var r :| r in JoinRows(ix) && RowMatches(time, ts, {}, r) && r.id == id;
  }

  lemma FoundIfMatched(time: ParseTime, ts: seq<Tombstone>, ix: Index, id: string)
    requires Matched(time, ts, ix, id)
    ensures id in Found(time, ts, {}, ix)
  {
    hide AnyMatch, ThirdField;
    if id in ix.items && (forall v :: v in ix.versions ==> ix.versions[v].item != id) {
      assert JoinRow(id, ix.items[id], None) in JoinRows(ix);
    }
    if v :| v in ix.versions && ix.versions[v].item == id && MatchedUnobserved(time, ts, ix, v) {
      assert JoinRow(id, ix.items[id], ix.versions[v].recordedAt) in JoinRows(ix);
    }
    if o :| o in ix.observations && MatchedVersion(time, ts, ix, o)
            && ix.versions[ix.observations[o].version].item == id {
      var _ := MatchedIsFound(time, ts, ix, o);
    }
  }

  lemma FoundIffMatched(time: ParseTime, ts: seq<Tombstone>, ix: Index, id: string)
    ensures id in Found(time, ts, {}, ix) <==> Matched(time, ts, ix, id)
  {
    hide AnyMatch, ThirdField, JoinRows, MatchingIds;
    if id in MatchingIds(time, ts, {}, ix) {
      MatchedIfFound(time, ts, ix, id);
    }
    if Matched(time, ts, ix, id) {
      FoundIfMatched(time, ts, ix, id);
    }
  }

  /** An identity is forgotten after a purge exactly if it was before, or some generation matches it. */
  lemma AppliedForgets(time: ParseTime, ts: seq<Tombstone>, s: Disk, s': Disk, id: string)
    requires Applied(time, ts, s, s')
    ensures id in s'.forgotten <==>
            id in s.forgotten || exists g :: g in s.indexes && Matched(time, ts, s.indexes[g], id)
  {
    hide Pending, Cleaned, NoCaches, Asked, Matched, Found;
    forall g | g in s.indexes ensures id in Found(time, ts, {}, s.indexes[g]) <==> Matched(time, ts, s.indexes[g], id) {
      FoundIffMatched(time, ts, s.indexes[g], id);
    }
  }

  lemma ForgotIsClean(ix: Index, ix': Index, forgotten: set<string>, id: string)
    requires Consistent(ix) && id in forgotten
    requires Cleaned(ix, ix', forgotten)
    ensures Absent(ix', id) && Unreferenced(ix', id) && Unreserved(ix', id)
  {
    hide Purged, Consistent;
    PurgedConsistent(ix, forgotten);
  }

  /**
   A predicate matched by one version in one generation forgets the identity in
   all of them, for good: whatever runs afterwards, no row of it comes back.
   */
  lemma MatchForgetsForGood(time: ParseTime, ts: seq<Tombstone>, s: Disk, log: seq<Disk>, j: nat, g: string, o: string)
    returns (id: string)
    requires Run(log) && j < |log| && Inv(s) && Applied(time, ts, s, log[0])
    requires g in s.indexes && MatchedVersion(time, ts, s.indexes[g], o)
    ensures id == s.indexes[g].versions[s.indexes[g].observations[o].version].item && Gone(log[j], id)
  {
    hide Run, Pending, Gone, Purged, Forgot, NoCaches, MatchedVersion, Inv, JoinRows, Found;
    id := MatchedIsFound(time, ts, s.indexes[g], o);
    assert id in Shown(time, ts, s.indexes, s.indexes.Keys);
    AppliedIsClosed(time, ts, s, log[0], id);
    StaysGone(log, 0, j, id);
  }

  // A predicate matches one observed version, by the version's own time or else the observation's.
  predicate MatchedVersion(time: ParseTime, ts: seq<Tombstone>, ix: Index, o: string) {
    && o in ix.observations && ix.observations[o].version in ix.versions
    && var v := ix.versions[ix.observations[o].version];
    && v.item in ix.items
    && AnyMatch(time, ts, v.item, ix.items[v.item],
                if v.recordedAt == None then ix.observations[o].recordedAt else v.recordedAt)
  }

  lemma MatchedIsFound(time: ParseTime, ts: seq<Tombstone>, ix: Index, o: string) returns (id: string)
    requires MatchedVersion(time, ts, ix, o)
    ensures o in ix.observations && ix.observations[o].version in ix.versions
    ensures id == ix.versions[ix.observations[o].version].item && id in Found(time, ts, {}, ix)
  {
    hide AnyMatch;
    var v := ix.versions[ix.observations[o].version];
    id := v.item;
    var r := JoinRow(v.item, ix.items[v.item], OrElse(v.recordedAt, ix.observations[o].recordedAt));
    assert r in JoinRows(ix);
    assert RowMatches(time, ts, {}, r);
    assert id in MatchingIds(time, ts, {}, ix);
  }

  // ----- a purge that never ends

  function SplitOp(id: string): Op {
    Op(id, "semantic", "time")
  }

  // One tombstone for the whole project.
  function ProjectTombstone(): Tombstone {
    Tombstone("hash", Predicate(None, Some("p"), None, None, None), "epoch")
  }

  function SplitDisk(): Disk {
    Disk({}, map[], map[], map["a" := EMPTY_INDEX.(ops := map["key" := SplitOp("mq:p:notes:1")]),
                               "b" := EMPTY_INDEX.(ops := map["key" := SplitOp("mq:p:notes:2")])])
  }

  lemma SplitOpMatches(time: ParseTime, op: Op)
    requires op == SplitOp("mq:p:notes:1") || op == SplitOp("mq:p:notes:2")
    ensures OpMatches(time, [ProjectTombstone()], {}, op)
  {
    hide Field;
    var t := ProjectTombstone();
    assert "mq:" + "p" + ":" == "mq:p:";
    assert op.id[..5] == "mq:p:";
    assert Matches(time, t.scope, op.id, ThirdField(op.id), Some(op.recordedAt));
    assert t in [t];
  }

  /**
   A key reserved, lost to a crash before its note was written, and reserved again in
   a rebuilt generation: every step is one the program takes, and no purge of the
   project ends afterwards.
   */
  lemma SplitKeyRun(time: ParseTime) returns (log: seq<Disk>)
    ensures Run(log) && |log| == 5 && log[0] == NEW_DISK && log[4] == SplitDisk() && Inv(log[4])
    ensures var ts := [ProjectTombstone()]; !KeysAgree(log[4], ToForget(time, ts, log[4]))
  {
    hide MatchingIds, OpMatches, Purged, MarkPending, MarkComplete, Inserted;
    var one, two := SplitOp("mq:p:notes:1"), SplitOp("mq:p:notes:2");
    assert one.id[11] != two.id[11];
    var a := NEW_DISK.(indexes := NEW_DISK.indexes["a" := EMPTY_INDEX]);
    var a1 := a.(indexes := a.indexes["a" := EMPTY_INDEX.(ops := EMPTY_INDEX.ops["key" := one])]);
    var b := a1.(indexes := a1.indexes["b" := EMPTY_INDEX]);
    var b2 := b.(indexes := b.indexes["b" := EMPTY_INDEX.(ops := EMPTY_INDEX.ops["key" := two])]);
    assert Does(NEW_DISK, a, Build("a")) && Does(a, a1, Reserve("a", "key", one));
    assert Does(a1, b, Build("b")) && Does(b, b2, Reserve("b", "key", two));
    log := [NEW_DISK, a, a1, b, b2];
    forall i | 0 <= i < |log| - 1 ensures Step(log[i], log[i + 1]) {
      assert i == 0 || i == 1 || i == 2 || i == 3;
    }
    assert b2 == SplitDisk();
    RunKeepsInv(log, 4);
    SplitDisagrees(time);
  }

  lemma SplitDisagrees(time: ParseTime)
    ensures var ts := [ProjectTombstone()]; !KeysAgree(SplitDisk(), ToForget(time, ts, SplitDisk()))
  {
    hide MatchingIds, OpMatches, ToForget;
    var one, two := SplitOp("mq:p:notes:1"), SplitOp("mq:p:notes:2");
    assert one.id[11] != two.id[11];
    var ts, d := [ProjectTombstone()], SplitDisk();
    SplitOpMatches(time, one);
    SplitOpMatches(time, two);
    OpIsToForget(time, ts, d, "a", "key", {});
    OpIsToForget(time, ts, d, "b", "key", {});
    assert Leaving(d, ToForget(time, ts, d), "a", "key") && Leaving(d, ToForget(time, ts, d), "b", "key");
  }

  /** The purge of that disk, by the program's own method: it stops, and so does the next one. */
  method PurgeSplitKey(time: ParseTime) returns (r: Result<(), string>, again: Result<(), string>)
    ensures r.Err? && again.Err?
  {
    ghost var log := SplitKeyRun(time);
    var archive := new Archive(SplitDisk(), "b", time);
    r := archive.Apply([ProjectTombstone()]);
    again := archive.Apply([ProjectTombstone()]);
  }
}
