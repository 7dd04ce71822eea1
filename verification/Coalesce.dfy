/**
 Copies of one record in several files (src/capture/jsonl.rs `coalesce`): agreeing
 copies become one item, disagreeing ones pause their identity and their files.
 */
module Coalesce {
  import opened Wrappers
  import opened Order
  import opened CaptureScan
  import opened CaptureCache
  import opened Capture

  datatype Conflict = Conflict(id: string, paths: set<string>)

  function Copies(items: seq<Item>, id: string): (copies: seq<Item>)
    ensures forall c :: c in copies ==> c in items && c.id == id
    ensures copies != [] <==> exists i :: 0 <= i < |items| && items[i].id == id
  {
    if items == [] then []
    else
      var last := items[|items| - 1];
      assert forall i :: 0 <= i < |items| - 1 ==> items[..|items| - 1][i] == items[i];
      if last.id == id then Copies(items[..|items| - 1], id) + [last] else Copies(items[..|items| - 1], id)
  }

  predicate Agree(copies: seq<Item>) {
    copies != [] ==> forall c :: c in copies ==> SameEvidence(c, copies[0])
  }

  predicate SameEvidence(a: Item, b: Item) {
    && a.versionId == b.versionId
    && a.observation.worktree == b.observation.worktree
    && a.observation.branch == b.observation.branch
    && a.observation.nativeRevision == b.observation.nativeRevision
  }

  function IdsOf(items: seq<Item>): set<string> {
    set i | i in items :: i.id
  }

  function PathsOf(copies: seq<Item>): set<string> {
    set c | c in copies :: c.observation.sourcePath
  }

  // How many items belong to a set of identities.
  function CountIn(items: seq<Item>, ids: set<string>): nat {
    if items == [] then 0
    else CountIn(items[..|items| - 1], ids) + if items[|items| - 1].id in ids then 1 else 0
  }

  lemma {:induction false} CountAdd(items: seq<Item>, ids: set<string>, id: string)
    requires id !in ids
    ensures CountIn(items, ids + {id}) == CountIn(items, ids) + |Copies(items, id)|
  {
    if items != [] {
      CountAdd(items[..|items| - 1], ids, id);
    }
  }

  lemma {:induction false} CountAll(items: seq<Item>, ids: set<string>)
    requires IdsOf(items) <= ids
    ensures CountIn(items, ids) == |items|
  {
    if items != [] {
      assert forall i :: i in items[..|items| - 1] ==> i in items;
      assert items[|items| - 1] in items;
      CountAll(items[..|items| - 1], ids);
    }
  }

  lemma {:induction false} CountNone(items: seq<Item>)
    ensures CountIn(items, {}) == 0
  {
    if items != [] {
      CountNone(items[..|items| - 1]);
    }
  }

  // The copies of the identities a conflict paused.
  function PausedCopies(items: seq<Item>, conflicts: seq<Conflict>): nat {
    if conflicts == [] then 0
    else PausedCopies(items, conflicts[..|conflicts| - 1]) + |Copies(items, conflicts[|conflicts| - 1].id)|
  }

  // In strict order of identity, so that no identity occurs twice.
  ghost predicate Rising(items: seq<Item>) {
    forall i, j :: 0 <= i < j < |items| ==> Below(items[i].id, items[j].id)
  }

  ghost predicate Kept(input: seq<Item>, item: Item) {
    var copies := Copies(input, item.id);
    copies != [] && item == copies[0] && Agree(copies)
  }

  ghost predicate Paused(input: seq<Item>, c: Conflict) {
    var copies := Copies(input, c.id);
    !Agree(copies) && c.paths == PathsOf(copies)
  }

  function PausedPaths(conflicts: seq<Conflict>): set<string> {
    set c, p | c in conflicts && p in c.paths :: p
  }

  // A cursor from which the next run starts over.
  function Replay(c: Cursor): Cursor {
    c.(byteOffset := 0, lastId := None, complete := false, cache := None, cacheSha := None)
  }

  function Settled(cursors: seq<(string, string, Cursor)>, source: string,
                   paused: set<string>): (r: seq<(string, string, Cursor)>)
    ensures |r| == |cursors|
    ensures forall i :: 0 <= i < |r| ==>
      r[i] == if cursors[i].0 == source && cursors[i].1 in paused
              then (cursors[i].0, cursors[i].1, Replay(cursors[i].2)) else cursors[i]
  {
    seq(|cursors|, i requires 0 <= i < |cursors| =>
      if cursors[i].0 == source && cursors[i].1 in paused
      then (cursors[i].0, cursors[i].1, Replay(cursors[i].2)) else cursors[i])
  }

  ghost predicate Grouped(items: seq<Item>, groups: map<string, seq<Item>>) {
    groups.Keys == IdsOf(items) && forall id :: id in groups ==> groups[id] == Copies(items, id)
  }

  method Group(items: seq<Item>) returns (groups: map<string, seq<Item>>)
    ensures groups.Keys == IdsOf(items)
    ensures forall id :: id in groups ==> groups[id] == Copies(items, id)
  {
    hide Grouped;
    groups := map[];
    GroupedNone();
    var i := 0;
    assert items[..0] == [];
    while i < |items|
      invariant 0 <= i <= |items|
      invariant Grouped(items[..i], groups)
    {
      var id := items[i].id;
      assert items[..i + 1] == items[..i] + [items[i]];
      GroupedOneMore(items[..i], items[i], groups);
      groups := groups[id := (if id in groups then groups[id] else []) + [items[i]]];
      i := i + 1;
    }
    assert items[..i] == items;
    GroupedAll(items, groups);
  }

  lemma GroupedNone()
    ensures Grouped([], map[])
  {
  }

  lemma GroupedOneMore(items: seq<Item>, item: Item, groups: map<string, seq<Item>>)
    requires Grouped(items, groups)
    ensures Grouped(items + [item],
                    groups[item.id := (if item.id in groups then groups[item.id] else []) + [item]])
  {
    hide Copies, IdsOf;
    AppendCopy(items, item);
  }

  lemma GroupedAll(items: seq<Item>, groups: map<string, seq<Item>>)
    requires Grouped(items, groups)
    ensures groups.Keys == IdsOf(items)
    ensures forall id :: id in groups ==> groups[id] == Copies(items, id)
  {
    hide Copies, IdsOf;
  }

  lemma AppendCopy(items: seq<Item>, item: Item)
    ensures IdsOf(items + [item]) == IdsOf(items) + {item.id}
    ensures forall id ::
      Copies(items + [item], id) == if id == item.id then Copies(items, id) + [item] else Copies(items, id)
    ensures item.id !in IdsOf(items) ==> Copies(items, item.id) == []
  {
    assert (items + [item])[..|items|] == items;
    if item.id !in IdsOf(items) {
      assert forall i :: 0 <= i < |items| ==> items[i] in items;
    }
  }

  /**
   Every item past `before` is accounted for: kept, coalesced into a kept copy, or
   paused by a conflict. Kept items come out in identity order.
   */
  method Coalesce(out: Captured, before: nat, source: string) returns (coalesced: nat, conflicts: seq<Conflict>)
    requires before <= |out.items|
    modifies out
    ensures out.inventory == old(out.inventory)
    ensures |out.items| >= before && out.items[..before] == old(out.items)[..before]
    ensures Accounted(old(out.items)[before..], out.items[before..], coalesced, conflicts)
    ensures out.cursors == Settled(old(out.cursors), source, PausedPaths(conflicts))
    ensures out.missing == old(out.missing) + if conflicts == [] then [] else [(source, "capture_conflict")]
  {
    hide Progress, Accounted, Copies, Agree, PausedCopies;
    var input := out.items[before..];
    var groups := Group(input);
    var base := out.items[..before];
    var kept: seq<Item> := [];
    coalesced, conflicts := 0, [];
    var left := groups.Keys;
    StartProgress(input, left);
    assert groups.Keys - left == {};
    while left != {}
      invariant left <= groups.Keys
      invariant out.inventory == old(out.inventory) && out.cursors == old(out.cursors)
        && out.missing == old(out.missing)
      invariant Progress(input, groups.Keys - left, left, kept, coalesced, conflicts)
      decreases left
    {
      var id := TakeLeast(left);
      var copies := groups[id];
      ghost var done := groups.Keys - left;
      assert groups.Keys - (left - {id}) == done + {id};
      if Agree(copies) {
        KeepOne(input, done, left, kept, coalesced, conflicts, id);
        coalesced := coalesced + |copies| - 1;
        kept := kept + [copies[0]];
      } else {
        PauseOne(input, done, left, kept, coalesced, conflicts, id);
        conflicts := conflicts + [Conflict(id, PathsOf(copies))];
      }
      left := left - {id};
    }
    assert groups.Keys - left == IdsOf(input);
    EndProgress(input, kept, coalesced, conflicts);
    out.items := base + kept;
    assert out.items[before..] == kept;
    if conflicts != [] {
      out.missing := out.missing + [(source, "capture_conflict")];
      SettleCursors(out, source, PausedPaths(conflicts));
    } else {
      assert out.cursors == Settled(out.cursors, source, PausedPaths(conflicts));
    }
  }

  // What holds between two groups.
  ghost predicate Progress(input: seq<Item>, done: set<string>, left: set<string>, kept: seq<Item>, coalesced: nat,
                           conflicts: seq<Conflict>) {
    && Sorted(kept, left)
    && (forall k :: k in kept ==> Kept(input, k))
    && (forall c :: c in conflicts ==> Paused(input, c))
    && (forall id :: id in done ==> Placed(input, kept, conflicts, id))
    && |kept| + coalesced + PausedCopies(input, conflicts) == CountIn(input, done)
  }

  ghost predicate Sorted(kept: seq<Item>, left: set<string>) {
    Rising(kept) && forall k, l :: k in kept && l in left ==> Below(k.id, l)
  }

  ghost predicate Placed(input: seq<Item>, kept: seq<Item>, conflicts: seq<Conflict>, id: string) {
    var copies := Copies(input, id);
    copies != [] && if Agree(copies) then copies[0] in kept else Conflict(id, PathsOf(copies)) in conflicts
  }

  lemma SortedSnoc(kept: seq<Item>, left: set<string>, item: Item)
    requires Sorted(kept, left) && Least(item.id, left)
    ensures Sorted(kept + [item], left - {item.id})
  {
  }

  lemma KeepOne(input: seq<Item>, done: set<string>, left: set<string>, kept: seq<Item>, coalesced: nat,
                conflicts: seq<Conflict>, id: string)
    requires Progress(input, done, left, kept, coalesced, conflicts)
    requires Least(id, left) && id !in done && id in IdsOf(input) && Agree(Copies(input, id))
    ensures Copies(input, id) != []
    ensures Progress(input, done + {id}, left - {id}, kept + [Copies(input, id)[0]],
                     coalesced + |Copies(input, id)| - 1, conflicts)
  {
    hide Copies, CountIn, PausedCopies, Sorted;
    CountAdd(input, done, id);
    var i :| 0 <= i < |input| && input[i].id == id;
    var copies := Copies(input, id);
    assert copies[0] in copies;
    SortedSnoc(kept, left, copies[0]);
  }

  lemma PauseOne(input: seq<Item>, done: set<string>, left: set<string>, kept: seq<Item>, coalesced: nat,
                 conflicts: seq<Conflict>, id: string)
    requires Progress(input, done, left, kept, coalesced, conflicts)
    requires Least(id, left) && id !in done && id in IdsOf(input) && !Agree(Copies(input, id))
    ensures Progress(input, done + {id}, left - {id}, kept, coalesced,
                     conflicts + [Conflict(id, PathsOf(Copies(input, id)))])
  {
    hide Copies, CountIn;
    CountAdd(input, done, id);
    var i :| 0 <= i < |input| && input[i].id == id;
    var more := conflicts + [Conflict(id, PathsOf(Copies(input, id)))];
    assert more[..|more| - 1] == conflicts;
  }

  lemma StartProgress(input: seq<Item>, ids: set<string>)
    ensures Progress(input, {}, ids, [], 0, [])
  {
    CountNone(input);
  }

  lemma EndProgress(input: seq<Item>, kept: seq<Item>, coalesced: nat, conflicts: seq<Conflict>)
    requires Progress(input, IdsOf(input), {}, kept, coalesced, conflicts)
    ensures Accounted(input, kept, coalesced, conflicts)
  {
    hide Copies, CountIn, PausedCopies;
    CountAll(input, IdsOf(input));
    forall i | i in input ensures Placed(input, kept, conflicts, i.id) {
      assert i.id in IdsOf(input);
    }
  }

  /** Every input item is kept as the first of its agreeing copies, coalesced into it, or paused. */
  ghost predicate Accounted(input: seq<Item>, kept: seq<Item>, coalesced: nat, conflicts: seq<Conflict>) {
    && Rising(kept)
    && (forall k :: k in kept ==> Kept(input, k))
    && (forall c :: c in conflicts ==> Paused(input, c))
    && (forall i :: i in input ==> Placed(input, kept, conflicts, i.id))
    && |kept| + coalesced + PausedCopies(input, conflicts) == |input|
  }

  // Two records of one identity that a single row can stand for.
  predicate Interchangeable(a: Item, b: Item) {
    && a.versionId == b.versionId
    && (a.observation.worktree, a.observation.branch) == (b.observation.worktree, b.observation.branch)
    && a.observation.nativeRevision == b.observation.nativeRevision
  }

  ghost predicate AllInterchangeable(input: seq<Item>, id: string) {
    forall a, b :: a in input && b in input && a.id == id && b.id == id ==> Interchangeable(a, b)
  }

  // The first record of its identity.
  ghost predicate FirstOf(input: seq<Item>, item: Item) {
    exists i :: 0 <= i < |input| && input[i] == item && forall j :: 0 <= j < i ==> input[j].id != item.id
  }

  lemma {:induction false} CopiesAreAll(items: seq<Item>, id: string)
    ensures forall i :: i in items && i.id == id ==> i in Copies(items, id)
    ensures Copies(items, id) != [] ==> FirstOf(items, Copies(items, id)[0])
  {
    if items != [] {
      var most := items[..|items| - 1];
      CopiesAreAll(most, id);
      forall i | i in items && i.id == id ensures i in Copies(items, id) {
        CopyIsIn(items, i);
      }
      if Copies(most, id) != [] {
        var k :| 0 <= k < |most| && most[k] == Copies(most, id)[0] && forall j :: 0 <= j < k ==> most[j].id != id;
        assert items[k] == Copies(items, id)[0] && forall j :: 0 <= j < k ==> items[j].id != id;
      } else if items[|items| - 1].id == id {
        assert forall j :: 0 <= j < |most| ==> items[j] == most[j];
      }
    }
  }

  lemma AgreeMeans(input: seq<Item>, id: string)
    ensures Agree(Copies(input, id)) <==> AllInterchangeable(input, id)
  {
    hide Copies;
    CopiesAreAll(input, id);
    if AllInterchangeable(input, id) && Copies(input, id) != [] {
      var first := Copies(input, id)[0];
      assert first in Copies(input, id);
      forall c | c in Copies(input, id) ensures SameEvidence(c, first) {
        assert Interchangeable(c, first);
      }
    }
  }

  /**
   An identity is kept, as the first of its records, exactly if all of them agree on version,
   worktree, branch and revision; it is paused exactly if two of them do not.
   */
  lemma KeptIffInterchangeable(input: seq<Item>, kept: seq<Item>, coalesced: nat, conflicts: seq<Conflict>, item: Item)
    requires Accounted(input, kept, coalesced, conflicts) && item in input
    ensures (exists k :: k in kept && k.id == item.id) <==> AllInterchangeable(input, item.id)
    ensures (exists c :: c in conflicts && c.id == item.id) <==> !AllInterchangeable(input, item.id)
    ensures forall k :: k in kept && k.id == item.id ==> FirstOf(input, k)
  {
    hide Copies, Agree, Rising, PausedCopies, AllInterchangeable, FirstOf;
    AgreeMeans(input, item.id);
    CopiesAreAll(input, item.id);
    assert Placed(input, kept, conflicts, item.id);
    if Agree(Copies(input, item.id)) {
      assert Copies(input, item.id)[0] in Copies(input, item.id);
    }
  }

  // A file of this source that holds a copy of an identity whose copies disagree.
  ghost predicate Disputed(input: seq<Item>, path: string) {
    exists i :: i in input && i.observation.sourcePath == path && !Agree(Copies(input, i.id))
  }

  lemma PausedIsDisputed(input: seq<Item>, c: Conflict, path: string)
    requires Paused(input, c) && path in c.paths
    ensures Disputed(input, path)
  {
    hide Copies, Agree;
    var i :| i in Copies(input, c.id) && i.observation.sourcePath == path;
    assert i in input && i.id == c.id;
  }

  lemma DisputedIsPaused(input: seq<Item>, kept: seq<Item>, conflicts: seq<Conflict>, i: Item)
    requires i in input && Placed(input, kept, conflicts, i.id) && !Agree(Copies(input, i.id))
    ensures i.observation.sourcePath in PausedPaths(conflicts)
  {
    hide Copies, Agree;
    CopyIsIn(input, i);
    var c := Conflict(i.id, PathsOf(Copies(input, i.id)));
    assert c in conflicts && i.observation.sourcePath in c.paths;
  }

  lemma PausedOrDisputed(input: seq<Item>, kept: seq<Item>, coalesced: nat, conflicts: seq<Conflict>, path: string)
    requires Accounted(input, kept, coalesced, conflicts)
    ensures path in PausedPaths(conflicts) <==> Disputed(input, path)
  {
    hide Copies, Agree, Rising, PausedCopies, Placed, Kept, Paused, PathsOf;
    if path in PausedPaths(conflicts) {
      var c :| c in conflicts && path in c.paths;
      PausedIsDisputed(input, c, path);
    }
    if Disputed(input, path) {
      var i :| i in input && i.observation.sourcePath == path && !Agree(Copies(input, i.id));
      DisputedIsPaused(input, kept, conflicts, i);
    }
  }

  lemma {:induction false} CopyIsIn(items: seq<Item>, item: Item)
    requires item in items
    ensures item in Copies(items, item.id)
  {
    if item != items[|items| - 1] {
      CopyIsIn(items[..|items| - 1], item);
    }
  }

  /**
   The files that disagree, and no others, are read again from the start: their cursors
   decode in no world, and every other cursor is left as it was.
   */
  lemma DisputedRescans(input: seq<Item>, kept: seq<Item>, coalesced: nat, conflicts: seq<Conflict>,
                        cursors: seq<(string, string, Cursor)>, source: string, k: nat, w: World)
    requires Accounted(input, kept, coalesced, conflicts) && k < |cursors|
    ensures var after := Settled(cursors, source, PausedPaths(conflicts))[k];
      after.0 == cursors[k].0 && after.1 == cursors[k].1
      && if cursors[k].0 == source && Disputed(input, cursors[k].1) then !Decodes(w, after.2)
         else after.2 == cursors[k].2
  {
    hide Accounted, Disputed, PausedPaths;
    PausedOrDisputed(input, kept, coalesced, conflicts, cursors[k].1);
  }

  method SettleCursors(out: Captured, source: string, paused: set<string>)
    modifies out`cursors
    ensures out.cursors == Settled(old(out.cursors), source, paused)
  {
    var i := 0;
    while i < |out.cursors|
      invariant 0 <= i <= |out.cursors| == |old(out.cursors)|
      invariant forall k :: 0 <= k < i ==> out.cursors[k] == Settled(old(out.cursors), source, paused)[k]
      invariant forall k :: i <= k < |out.cursors| ==> out.cursors[k] == old(out.cursors)[k]
    {
      var (s, path, cursor) := out.cursors[i];
      if s == source && path in paused {
        out.cursors := out.cursors[i := (s, path,
                                         cursor.(byteOffset := 0, lastId := None, complete := false, cache := None,
                                                 cacheSha := None))];
      }
      i := i + 1;
    }
  }
}
