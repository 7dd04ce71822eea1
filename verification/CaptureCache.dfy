/**
 Recoverable manifests of earlier scans (src/capture/jsonl_cache.rs): when a
 cursor is trusted, and what a verified prefix is turned back into.
 */
module CaptureCache {
  import opened Wrappers
  import opened JsonValues
  import opened Tombstones
  import opened CaptureScan

  // ----- trusting a cursor

  function KindOf(b: Binding): Option<Kind> {
    if b.sourceId == "harness-codex" then Some(Codex)
    else if b.sourceId == "harness-omp" then Some(Omp)
    else None
  }

  predicate Stable(w: World, recordedAt: Option<string>) {
    recordedAt.Some? ==> w.redactText(recordedAt.value) == recordedAt.value
  }

  predicate SoundEntry(w: World, kind: Kind, e: Entry) {
    && w.isDigest(e.sourceSha)
    && SafeMetadata(w, e.id)
    && Stable(w, e.recordedAt)
    && (e.state.Retained? ==> w.isDigest(e.state.versionId))
    && (e.state.CredentialPin? ==> kind.Omp? && e.recordedAt.None?)
  }

  function EntryIds(es: seq<Entry>): (ids: seq<string>)
    ensures |ids| == |es|
    ensures forall i :: 0 <= i < |es| ==> ids[i] == es[i].id
  {
    seq(|es|, i requires 0 <= i < |es| => es[i].id)
  }

  function TileEnd(headerEnd: nat, es: seq<Entry>): nat {
    if es == [] then headerEnd else es[|es| - 1].end
  }

  // Whether an entry may follow those before it.
  predicate Follows(w: World, kind: Kind, m: Manifest, before: seq<Entry>, e: Entry) {
    && e.begin == TileEnd(m.headerEnd, before) < e.end <= m.prefixLen
    && SoundEntry(w, kind, e)
    && e.id !in EntryIds(before)
    && (kind.Codex? ==> LastOrdinal(m.headerOrdinal, EntryIds(before) + [e.id]).Some?)
  }

  predicate SoundEntries(w: World, kind: Kind, m: Manifest, es: seq<Entry>) {
    es == [] || (SoundEntries(w, kind, m, es[..|es| - 1]) && Follows(w, kind, m, es[..|es| - 1], es[|es| - 1]))
  }

  predicate SoundHead(w: World, c: Cursor) {
    && c.complete
    && c.cache.Some?
    && var m := c.cache.value;
    && c.cacheSha == Some(w.manifestSha(m))
    && KindOf(m.binding).Some?
    && var kind := KindOf(m.binding).value;
    && m.format == 1
    && m.binding.parserRevision == w.parserRevision(kind)
    && m.binding.redactionRevision == w.redactionRevision
    && w.isDigest(m.prefixSha)
    && 0 < m.headerEnd <= m.prefixLen
    && c.byteOffset == c.size == m.prefixLen
    && c.inventorySha == m.prefixSha
    && c.inode == m.binding.inode
    && c.device == m.binding.device
    && (kind.Codex? ==> m.headerOrdinal.Some?)
  }

  /** The structure a stored cursor must have before its manifest is used. */
  predicate Decodes(w: World, c: Cursor) {
    && SoundHead(w, c)
    && var m := c.cache.value;
    && SoundEntries(w, KindOf(m.binding).value, m, m.entries)
    && TileEnd(m.headerEnd, m.entries) == m.prefixLen
    && c.lastId == (if m.entries == [] then None else Some(m.entries[|m.entries| - 1].id))
  }

  lemma {:induction false} SoundPrefix(w: World, kind: Kind, m: Manifest, es: seq<Entry>, n: nat)
    requires n <= |es| && SoundEntries(w, kind, m, es)
    ensures SoundEntries(w, kind, m, es[..n])
  {
    if n < |es| {
      SoundPrefix(w, kind, m, es[..|es| - 1], n);
      assert es[..|es| - 1][..n] == es[..n];
    } else {
      assert es[..n] == es;
    }
  }

  lemma SoundAt(w: World, kind: Kind, m: Manifest, es: seq<Entry>, i: nat)
    requires i < |es| && SoundEntries(w, kind, m, es)
    ensures Follows(w, kind, m, es[..i], es[i])
  {
    SoundPrefix(w, kind, m, es, i + 1);
    assert es[..i + 1][..i] == es[..i];
  }

  /** Sound entries tile the file after its header in order, without gap, overlap or repeated id. */
  lemma {:induction false} SoundMeans(w: World, kind: Kind, m: Manifest, es: seq<Entry>, i: nat, j: nat)
    requires SoundEntries(w, kind, m, es) && i < j < |es|
    ensures es[i].end <= es[j].begin < es[j].end <= m.prefixLen
    ensures j == i + 1 ==> es[i].end == es[j].begin
    ensures es[i].id != es[j].id
  {
    SoundAt(w, kind, m, es, j);
    hide LastOrdinal, SoundEntry;
    assert EntryIds(es[..j])[i] == es[i].id;
    if i + 1 < j {
      SoundMeans(w, kind, m, es, i, j - 1);
    }
  }

  lemma OrdinalSnoc(header: Option<nat>, ids: seq<string>, id: string)
    ensures LastOrdinal(header, ids + [id]) ==
            (var before := LastOrdinal(header, ids);
             if before.Some? && OrdinalOf(id).Some? && before.value < OrdinalOf(id).value then OrdinalOf(id) else None)
  {
    assert (ids + [id])[..|ids|] == ids;
  }

  /** The ordinals behind the ids rise strictly, and lie above the header's. */
  lemma {:induction false} OrdinalsRise(header: Option<nat>, ids: seq<string>, i: nat, j: nat)
    requires LastOrdinal(header, ids).Some? && i < j < |ids|
    ensures header.Some? && OrdinalOf(ids[i]).Some? && OrdinalOf(ids[j]).Some?
    ensures header.value < OrdinalOf(ids[i]).value < OrdinalOf(ids[j]).value
  {
    hide OrdinalOf;
    var before := ids[..|ids| - 1];
    if j < |ids| - 1 {
      OrdinalsRise(header, before, i, j);
    } else {
      OrdinalLast(header, before);
      if i < j - 1 {
        OrdinalsRise(header, before, i, j - 1);
      }
    }
  }

  lemma {:induction false} OrdinalLast(header: Option<nat>, ids: seq<string>)
    requires LastOrdinal(header, ids).Some?
    ensures header.Some? && header.value <= LastOrdinal(header, ids).value
    ensures ids != [] ==>
      header.value < LastOrdinal(header, ids).value && LastOrdinal(header, ids) == OrdinalOf(ids[|ids| - 1])
  {
    hide OrdinalOf;
    if ids != [] {
      OrdinalLast(header, ids[..|ids| - 1]);
    }
  }

  // The loop's running values decide whether the next entry may follow.
  predicate Admits(w: World, kind: Kind, m: Manifest, end: nat, ids: set<string>, ordinal: Option<nat>, e: Entry) {
    && e.begin == end < e.end <= m.prefixLen
    && SoundEntry(w, kind, e)
    && e.id !in ids
    && (kind.Codex? ==>
          && ordinal.Some? && OrdinalOf(e.id).Some? && ordinal.value < OrdinalOf(e.id).value)
  }

  ghost predicate Running(kind: Kind, m: Manifest, es: seq<Entry>, end: nat, ids: set<string>, ordinal: Option<nat>) {
    && end == TileEnd(m.headerEnd, es)
    && ids == (set id | id in EntryIds(es))
    && (kind.Codex? ==> ordinal == LastOrdinal(m.headerOrdinal, EntryIds(es)))
  }

  lemma AdmitsIsFollows(w: World, kind: Kind, m: Manifest, es: seq<Entry>, end: nat, ids: set<string>,
                        ordinal: Option<nat>, e: Entry)
    requires Running(kind, m, es, end, ids, ordinal)
    ensures Admits(w, kind, m, end, ids, ordinal, e) <==> Follows(w, kind, m, es, e)
  {
    hide LastOrdinal, OrdinalOf, SoundEntry;
    OrdinalSnoc(m.headerOrdinal, EntryIds(es), e.id);
  }

  lemma RunningSnoc(kind: Kind, m: Manifest, es: seq<Entry>, end: nat, ids: set<string>, ordinal: Option<nat>, e: Entry)
    requires Running(kind, m, es, end, ids, ordinal)
    requires kind.Codex? ==> ordinal.Some? && OrdinalOf(e.id).Some? && ordinal.value < OrdinalOf(e.id).value
    ensures Running(kind, m, es + [e], e.end, ids + {e.id}, if kind.Codex? then OrdinalOf(e.id) else ordinal)
  {
    hide LastOrdinal, OrdinalOf;
    OrdinalSnoc(m.headerOrdinal, EntryIds(es), e.id);
    assert EntryIds(es + [e]) == EntryIds(es) + [e.id];
  }

  // ----- what a trusted cursor says, entry by entry

  predicate EntryHolds(w: World, kind: Kind, m: Manifest, es: seq<Entry>, i: nat)
    requires i < |es|
  {
    var e := es[i];
    && e.begin == (if i == 0 then m.headerEnd else es[i - 1].end) && e.begin < e.end <= m.prefixLen
    && w.isDigest(e.sourceSha) && e.id != "" && w.redactText(e.id) == e.id
    && (e.recordedAt.Some? ==> w.redactText(e.recordedAt.value) == e.recordedAt.value)
    && match e.state
       case Retained(version) => w.isDigest(version)
       case CredentialPin => kind == Omp && e.recordedAt == None
       case Tombstoned => true
  }

  // Ordinals that rise strictly from the header's on.
  predicate RisingFrom(header: nat, es: seq<Entry>) {
    && (forall i :: 0 <= i < |es| ==> OrdinalOf(es[i].id).Some? && header < OrdinalOf(es[i].id).value)
    && (forall i, j :: 0 <= i < j < |es| ==> OrdinalOf(es[i].id).value < OrdinalOf(es[j].id).value)
  }

  predicate DistinctEntries(es: seq<Entry>) {
    forall i, j :: 0 <= i < j < |es| ==> es[i].id != es[j].id
  }

  predicate EntriesHold(w: World, kind: Kind, m: Manifest, es: seq<Entry>) {
    && (forall i :: 0 <= i < |es| ==> EntryHolds(w, kind, m, es, i))
    && DistinctEntries(es)
    && (kind == Codex ==> m.headerOrdinal.Some? && RisingFrom(m.headerOrdinal.value, es))
  }

  /** A complete scan of a whole file by this build, whose digests agree. */
  predicate Trusted(w: World, c: Cursor) {
    && c.complete && c.cache.Some?
    && var m := c.cache.value;
    && c.cacheSha == Some(w.manifestSha(m)) && m.format == 1
    && m.binding.sourceId in {"harness-omp", "harness-codex"}
    && var kind := if m.binding.sourceId == "harness-codex" then Codex else Omp;
    && m.binding.parserRevision == w.parserRevision(kind) && m.binding.redactionRevision == w.redactionRevision
    && w.isDigest(m.prefixSha) && c.inventorySha == m.prefixSha
    && c.byteOffset == m.prefixLen && c.size == m.prefixLen
    && (c.inode, c.device) == (m.binding.inode, m.binding.device)
    && 1 <= m.headerEnd <= m.prefixLen
    && EntriesHold(w, kind, m, m.entries)
    && (if m.entries == [] then m.headerEnd == m.prefixLen && c.lastId == None
        else m.entries[|m.entries| - 1].end == m.prefixLen && c.lastId == Some(m.entries[|m.entries| - 1].id))
  }

  lemma {:induction false} RisingMeans(header: Option<nat>, es: seq<Entry>)
    ensures header.Some? && es != [] ==>
      (LastOrdinal(header, EntryIds(es)).Some? <==>
       LastOrdinal(header, EntryIds(es[..|es| - 1])).Some? && OrdinalOf(es[|es| - 1].id).Some?
       && LastOrdinal(header, EntryIds(es[..|es| - 1])).value < OrdinalOf(es[|es| - 1].id).value)
    ensures header.Some? ==> (LastOrdinal(header, EntryIds(es)).Some? <==> RisingFrom(header.value, es))
    ensures header.Some? && RisingFrom(header.value, es) ==>
      LastOrdinal(header, EntryIds(es)) == if es == [] then header else OrdinalOf(es[|es| - 1].id)
  {
    hide OrdinalOf;
    if es != [] {
      var most, e := es[..|es| - 1], es[|es| - 1];
      RisingMeans(header, most);
      OrdinalSnoc(header, EntryIds(most), e.id);
      assert EntryIds(es) == EntryIds(most) + [e.id];
    }
  }

  lemma FollowsMeans(w: World, kind: Kind, m: Manifest, most: seq<Entry>, es: seq<Entry>)
    requires es != [] && most == es[..|es| - 1]
    requires kind == Codex ==> m.headerOrdinal.Some?
    ensures Follows(w, kind, m, most, es[|es| - 1]) <==>
            EntryHolds(w, kind, m, es, |es| - 1) && (forall i :: 0 <= i < |most| ==> most[i].id != es[|es| - 1].id)
            && (kind == Codex ==> RisingFrom(m.headerOrdinal.value, es))
  {
    hide OrdinalOf, RisingFrom, LastOrdinal;
    RisingMeans(m.headerOrdinal, es);
    var e := es[|es| - 1];
    assert EntryIds(es) == EntryIds(most) + [e.id];
    assert e.id in EntryIds(most) <==> exists i :: 0 <= i < |most| && most[i].id == e.id;
  }

  lemma {:induction false} SoundIsHeld(w: World, kind: Kind, m: Manifest, es: seq<Entry>)
    requires kind == Codex ==> m.headerOrdinal.Some?
    ensures SoundEntries(w, kind, m, es) <==> EntriesHold(w, kind, m, es)
  {
    hide OrdinalOf, Follows, LastOrdinal;
    if es != [] {
      var last := |es| - 1;
      SoundIsHeld(w, kind, m, es[..last]);
      FollowsMeans(w, kind, m, es[..last], es);
      assert forall i :: 0 <= i < last ==> (EntryHolds(w, kind, m, es, i) <==> EntryHolds(w, kind, m, es[..last], i));
    }
  }

  /** A cursor is used exactly when it is trusted. */
  lemma DecodesIsTrusted(w: World, c: Cursor)
    ensures Decodes(w, c) <==> Trusted(w, c)
  {
    hide EntriesHold, SoundEntries;
    if c.cache.Some? {
      var m := c.cache.value;
      if KindOf(m.binding).Some? && (KindOf(m.binding).value == Codex ==> m.headerOrdinal.Some?) {
        SoundIsHeld(w, KindOf(m.binding).value, m, m.entries);
      }
      HeldHeader(w, m);
    }
  }

  lemma HeldHeader(w: World, m: Manifest)
    ensures EntriesHold(w, Codex, m, m.entries) ==> m.headerOrdinal.Some?
  {
  }

  method Decode(w: World, c: Cursor) returns (r: Option<Manifest>)
    ensures r == if Decodes(w, c) then c.cache else None
    ensures r.Some? <==> Trusted(w, c)
  {
    hide Trusted, SoundHead, SoundEntries;
    DecodesIsTrusted(w, c);
    if !SoundHead(w, c) {
      return None;
    }
    HeadHasKind(w, c);
    var ok := EntriesDecode(w, c, KindOf(c.cache.value.binding).value);
    return if ok then c.cache else None;
  }

  lemma HeadHasKind(w: World, c: Cursor)
    requires SoundHead(w, c)
    ensures c.cache.Some? && KindOf(c.cache.value.binding).Some?
  {
  }

  // The entries, one after the other.
  method EntriesDecode(w: World, c: Cursor, kind: Kind) returns (ok: bool)
    requires c.cache.Some?
    ensures var m := c.cache.value;
      ok <==>
        && SoundEntries(w, kind, m, m.entries) && TileEnd(m.headerEnd, m.entries) == m.prefixLen
        && c.lastId == (if m.entries == [] then None else Some(m.entries[|m.entries| - 1].id))
  {
    var m := c.cache.value;
    var end, ordinal := m.headerEnd, m.headerOrdinal;
    var ids: set<string> := {};
    var i := 0;
    assert m.entries[..0] == [];
    hide Running, Admits, Follows, OrdinalOf, LastOrdinal, SoundEntry;
    assert Running(kind, m, m.entries[..0], end, ids, ordinal) by { StartRunning(kind, m); }
    while i < |m.entries|
      invariant 0 <= i <= |m.entries|
      invariant SoundEntries(w, kind, m, m.entries[..i])
      invariant Running(kind, m, m.entries[..i], end, ids, ordinal)
    {
      var e := m.entries[i];
      assert m.entries[..i + 1] == m.entries[..i] + [e];
      AdmitsIsFollows(w, kind, m, m.entries[..i], end, ids, ordinal, e);
      var value := OrdinalOf(e.id);
      if !Admits(w, kind, m, end, ids, ordinal, e) {
        if SoundEntries(w, kind, m, m.entries) {
          SoundAt(w, kind, m, m.entries, i);
        }
        return false;
      }
      AdmittedOrdinal(w, kind, m, end, ids, ordinal, e);
      RunningSnoc(kind, m, m.entries[..i], end, ids, ordinal, e);
      if kind.Codex? {
        ordinal := value;
      }
      ids := ids + {e.id};
      end := e.end;
      i := i + 1;
    }
    assert m.entries[..i] == m.entries;
    assert end == TileEnd(m.headerEnd, m.entries) by { EndRunning(kind, m, m.entries, end, ids, ordinal); }
    return end == m.prefixLen && c.lastId == (if m.entries == [] then None else Some(m.entries[|m.entries| - 1].id));
  }

  lemma StartRunning(kind: Kind, m: Manifest)
    ensures Running(kind, m, [], m.headerEnd, {}, m.headerOrdinal)
  {
  }

  lemma EndRunning(kind: Kind, m: Manifest, es: seq<Entry>, end: nat, ids: set<string>, ordinal: Option<nat>)
    requires Running(kind, m, es, end, ids, ordinal)
    ensures end == TileEnd(m.headerEnd, es)
  {
  }

  lemma AdmittedOrdinal(w: World, kind: Kind, m: Manifest, end: nat, ids: set<string>, ordinal: Option<nat>, e: Entry)
    requires Admits(w, kind, m, end, ids, ordinal, e)
    ensures kind.Codex? ==> ordinal.Some? && OrdinalOf(e.id).Some? && ordinal.value < OrdinalOf(e.id).value
  {
  }

  function ReferencedVersions(es: seq<Entry>): seq<string> {
    if es == [] then []
    else
      ReferencedVersions(es[..|es| - 1])
      + (if es[|es| - 1].state.Retained? then [es[|es| - 1].state.versionId] else [])
  }

  // ----- the manifests that scans write

  // Some earlier scan of the same build, in any scene, stored this manifest.
  ghost predicate Written(w: World, m: Manifest) {
    exists sc, job, content, mtime :: WrittenBy(w, m, sc, job, content, mtime)
  }

  ghost predicate WrittenBy(w: World, m: Manifest, sc: Scene, job: Job, content: Bytes, mtime: Option<string>) {
    && Fits(w, job)
    && var o := Cold(w, sc, job, content, mtime);
    && o.cursor.Some?
    && o.cursor.value.cache == Some(m)
  }

  lemma EntryIsSound(w: World, sc: Scene, job: Job, s: Session, r: Record)
    requires Hashes(w) && WellMade(w, job, s, r)
    ensures SoundEntry(w, job.kind, EntryOf(w, sc, r)) <==> Stable(w, EntryOf(w, sc, r).recordedAt)
  {
    if r.Body? {
      var text, timestamp :| r.item == ItemAt(w, job, s, r, text, timestamp);
    }
  }

  lemma {:induction false} ContiguousBound(headerEnd: nat, rs: seq<Record>)
    requires Contiguous(headerEnd, rs)
    ensures headerEnd <= EndOf(headerEnd, rs)
  {
    if rs != [] {
      ContiguousBound(headerEnd, rs[..|rs| - 1]);
    }
  }

  lemma TiledPrefix(w: World, job: Job, s: Session, headerEnd: nat, rs: seq<Record>)
    requires rs != [] && TiledRecords(w, job, s, headerEnd, rs)
    ensures TiledRecords(w, job, s, headerEnd, rs[..|rs| - 1])
    ensures var before, r := rs[..|rs| - 1], rs[|rs| - 1];
      r.id !in Ids(before) && r.begin == EndOf(headerEnd, before) < r.end && WellMade(w, job, s, r)
  {
  }

  lemma {:induction false} OrdinalPrefix(header: Option<nat>, ids: seq<string>, n: nat)
    requires n <= |ids| && LastOrdinal(header, ids).Some?
    ensures LastOrdinal(header, ids[..n]).Some?
  {
    if n < |ids| {
      OrdinalPrefix(header, ids[..|ids| - 1], n);
      assert ids[..|ids| - 1][..n] == ids[..n];
    } else {
      assert ids[..n] == ids;
    }
  }

  lemma RecordFollows(w: World, sc: Scene, job: Job, m: Manifest, before: seq<Record>, r: Record)
    requires Hashes(w) && WellMade(w, job, m.session, r) && r.id !in Ids(before)
    requires r.begin == EndOf(m.headerEnd, before) < r.end <= m.prefixLen
    requires job.kind.Codex? ==> LastOrdinal(m.headerOrdinal, IdSeq(before) + [r.id]).Some?
    ensures Follows(w, job.kind, m, EntriesOf(w, sc, before), EntryOf(w, sc, r)) <==>
      Stable(w, EntryOf(w, sc, r).recordedAt)
    ensures TileEnd(m.headerEnd, EntriesOf(w, sc, before)) == EndOf(m.headerEnd, before)
  {
    EntryIsSound(w, sc, job, m.session, r);
    hide EntryOf, SoundEntry, WellMade, LastOrdinal;
    assert EntryIds(EntriesOf(w, sc, before)) == IdSeq(before);
  }

  lemma {:induction false} RecordsAreSound(w: World, sc: Scene, job: Job, m: Manifest, rs: seq<Record>)
    requires Hashes(w) && TiledRecords(w, job, m.session, m.headerEnd, rs)
    requires EndOf(m.headerEnd, rs) <= m.prefixLen
    requires job.kind.Codex? ==> LastOrdinal(m.headerOrdinal, IdSeq(rs)).Some?
    ensures SoundEntries(w, job.kind, m, EntriesOf(w, sc, rs)) <==> AllStable(w, EntriesOf(w, sc, rs))
  {
    hide EntryOf, LastOrdinal, Follows, WellMade, TiledRecords, Hashes, Excluded;
    if rs != [] {
      var before, r := rs[..|rs| - 1], rs[|rs| - 1];
      TiledPrefix(w, job, m.session, m.headerEnd, rs);
      assert rs == before + [r];
      assert IdSeq(rs) == IdSeq(before) + [r.id] && IdSeq(rs)[..|rs| - 1] == IdSeq(before);
      if job.kind.Codex? {
        OrdinalPrefix(m.headerOrdinal, IdSeq(rs), |rs| - 1);
      }
      RecordFollows(w, sc, job, m, before, r);
      RecordsAreSound(w, sc, job, m, before);
      RecordSnoc(w, sc, job, before, r);
      SoundSnoc(w, job.kind, m, EntriesOf(w, sc, before), EntryOf(w, sc, r));
    }
  }

  lemma SoundSnoc(w: World, kind: Kind, m: Manifest, es: seq<Entry>, e: Entry)
    ensures SoundEntries(w, kind, m, es + [e]) <==> SoundEntries(w, kind, m, es) && Follows(w, kind, m, es, e)
    ensures AllStable(w, es + [e]) <==> AllStable(w, es) && Stable(w, e.recordedAt)
  {
    hide Follows;
    assert (es + [e])[..|es|] == es;
  }

  predicate AllStable(w: World, es: seq<Entry>) {
    forall e :: e in es ==> Stable(w, e.recordedAt)
  }

  lemma WrittenHead(w: World, sc: Scene, job: Job, content: Bytes, mtime: Option<string>, p: Parse)
    requires Hashes(w) && Fits(w, job) && Resumable(content, p) && p.session.Some?
    requires 0 < p.headerEnd <= Accepted(p) && (job.kind.Codex? ==> p.headerOrdinal.Some?)
    ensures SoundHead(w, CursorOf(w, sc, job, content, mtime, p))
  {
    hide EntriesOf;
  }

  // The cursor of a resumable run.
  lemma WrittenRun(w: World, sc: Scene, job: Job, content: Bytes, mtime: Option<string>)
    requires Hashes(w)
    requires Cold(w, sc, job, content, mtime).cursor.Some?
    requires Cold(w, sc, job, content, mtime).cursor.value.cache.Some?
    ensures var p := Run(w, sc, job, content, START);
      && Resumable(content, p) && p.session.Some? && p.error.None? && !p.unrelated
      && Tiled(w, job, p)
      && 0 < p.headerEnd <= EndOf(p.headerEnd, p.records) == Accepted(p)
      && Cold(w, sc, job, content, mtime).cursor == Some(CursorOf(w, sc, job, content, mtime, p))
      && CursorOf(w, sc, job, content, mtime, p).cache == Some(ManifestOf(w, sc, job, content, p))
  {
    RunKeepsTiled(w, sc, job, content, START);
    hide Run, LastOrdinal;
    var p := Run(w, sc, job, content, START);
    ContiguousBound(p.headerEnd, p.records);
  }

  lemma CursorFields(w: World, sc: Scene, job: Job, content: Bytes, mtime: Option<string>, p: Parse)
    requires p.session.Some? && Resumable(content, p)
    ensures var c := CursorOf(w, sc, job, content, mtime, p);
      c.lastId == LastId(p) && c.cache == Some(ManifestOf(w, sc, job, content, p))
  {
  }

  /**
   A manifest that a scan writes has the structure that decoding demands, except
   that every recorded time in it must be left alone by a second redaction.
   Decoding then gives back exactly what was written.
   */
  lemma WrittenDecodes(w: World, sc: Scene, job: Job, content: Bytes, mtime: Option<string>)
    requires Hashes(w) && Fits(w, job)
    requires Cold(w, sc, job, content, mtime).cursor.Some?
    requires Cold(w, sc, job, content, mtime).cursor.value.cache.Some?
    ensures var c := Cold(w, sc, job, content, mtime).cursor.value;
      Decodes(w, c) <==> AllStable(w, c.cache.value.entries)
  {
    hide Run, SoundEntries, LastOrdinal, TiledRecords, Cold, EntriesOf, SoundHead, CursorOf, Hashes, AllStable;
    var p := Run(w, sc, job, content, START);
    WrittenRun(w, sc, job, content, mtime);
    CursorFields(w, sc, job, content, mtime, p);
    WrittenHead(w, sc, job, content, mtime, p);
    RecordsAreSound(w, sc, job, ManifestOf(w, sc, job, content, p), p.records);
    assert TileEnd(p.headerEnd, EntriesOf(w, sc, p.records)) == EndOf(p.headerEnd, p.records);
  }

  function ItemVersions(items: seq<Item>): (vs: seq<string>)
    ensures |vs| == |items|
    ensures forall i :: 0 <= i < |items| ==> vs[i] == items[i].versionId
  {
    seq(|items|, i requires 0 <= i < |items| => items[i].versionId)
  }

  /** The versions a manifest refers to are those of the items the scan kept, in order. */
  lemma {:induction false} VersionsAreKeptItems(w: World, sc: Scene, rs: seq<Record>)
    ensures ReferencedVersions(EntriesOf(w, sc, rs)) == ItemVersions(ItemsOf(w, sc, rs))
  {
    if rs != [] {
      var before := rs[..|rs| - 1];
      assert EntriesOf(w, sc, rs)[..|rs| - 1] == EntriesOf(w, sc, before);
      VersionsAreKeptItems(w, sc, before);
      var r := rs[|rs| - 1];
      if r.Body? && !Excluded(w, sc, r.item) {
        assert ItemsOf(w, sc, rs) == ItemsOf(w, sc, before) + [r.item];
      } else {
        assert ItemsOf(w, sc, rs) == ItemsOf(w, sc, before);
      }
    }
  }

  // ----- restoring a verified prefix

  function Refresh(s: Session): Json {
    Obj(map["id" := Str(s.id), "cwd" := Str(s.cwd), "branch" := Str(s.branch),
            "git" := if s.nativeRevision.Some? then s.nativeRevision.value else Null])
  }

  predicate SameSession(w: World, sc: Scene, s: Session) {
    SessionOf(w, sc, Refresh(s)) == Ok(Some(s))
  }

  function RestoreEntry(w: World, sc: Scene, m: Manifest, payloads: map<string, Payload>,
                        e: Entry): Option<(Entry, Option<Item>)> {
    var b := m.binding;
    var native := NativeId(m.session, e.id);
    if e.state.CredentialPin? then Some((e, None))
    else if ExcludesRecord(w.time, sc.tombstones, sc.forgotten, w.itemId(b.projectId, b.sourceId, native), b.sourceId,
                           e.recordedAt)
      then Some((e.(state := Tombstoned), None))
    else if !e.state.Retained? || e.state.versionId !in payloads then None
    else
      var payload := payloads[e.state.versionId];
      if payload.nativeId != native || payload.kind != b.sourceId || payload.nativeStatus.Some?
         || payload.record != Null || payload.sections != [] then None
      else
        var kind := if b.sourceId == "harness-codex" then Codex else Omp;
        var item := MakeItem(w, kind, b, m.session, e.id, payload.text, e.begin, e.end, e.recordedAt, e.sourceSha);
        if item.versionId != e.state.versionId then None else Some((e, Some(item)))
  }

  function Restored(w: World, sc: Scene, m: Manifest, payloads: map<string, Payload>,
                    es: seq<Entry>): Option<(seq<Entry>, seq<Item>)> {
    if es == [] then Some(([], []))
    else
      var before := Restored(w, sc, m, payloads, es[..|es| - 1]);
      var last := RestoreEntry(w, sc, m, payloads, es[|es| - 1]);
      if before.None? || last.None? then None
      else Some((before.value.0 + [last.value.0],
                 before.value.1 + (if last.value.1.Some? then [last.value.1.value] else [])))
  }

  lemma RestoredSnoc(w: World, sc: Scene, m: Manifest, payloads: map<string, Payload>, es: seq<Entry>, e: Entry)
    ensures var before, last := Restored(w, sc, m, payloads, es), RestoreEntry(w, sc, m, payloads, e);
      Restored(w, sc, m, payloads, es + [e]) ==
      if before.None? || last.None? then None
      else Some((before.value.0 + [last.value.0],
                 if last.value.1.Some? then before.value.1 + [last.value.1.value] else before.value.1))
  {
    hide RestoreEntry;
    assert (es + [e])[..|es|] == es;
    var before := Restored(w, sc, m, payloads, es);
    assert before.Some? ==> before.value.1 + [] == before.value.1;
  }

  lemma RestoredEntryIsRecord(w: World, sc: Scene, sc': Scene, job: Job, m: Manifest, payloads: map<string, Payload>,
                              r: Record)
    requires Hashes(w) && Fits(w, job) && m.binding == job.binding
    requires WellMade(w, job, m.session, r)
    requires Stable(w, EntryOf(w, sc, r).recordedAt)
    requires RestoreEntry(w, sc', m, payloads, EntryOf(w, sc, r)).Some?
    ensures RestoreEntry(w, sc', m, payloads, EntryOf(w, sc, r)).value ==
            (EntryOf(w, sc', r), if r.Body? && !Excluded(w, sc', r.item) then Some(r.item) else None)
  {
    if r.Body? {
      var text, timestamp :| r.item == ItemAt(w, job, m.session, r, text, timestamp);
      if !Excluded(w, sc', r.item) {
        var e := EntryOf(w, sc, r);
        var payload := payloads[e.state.versionId];
        assert w.version(r.item.id, payload) == w.version(r.item.id, r.item.payload);
      }
    }
  }

  /**
   A restored prefix is exactly the prefix classified under the current scene.
   The bodies come from any payload map; version identity settles their text.
   */
  lemma {:induction false} RestoredIsClassified(w: World, sc: Scene, sc': Scene, job: Job, m: Manifest,
                                               payloads: map<string, Payload>, rs: seq<Record>)
    requires Hashes(w) && Fits(w, job) && m.binding == job.binding
    requires forall r :: r in rs ==> WellMade(w, job, m.session, r) && Stable(w, EntryOf(w, sc, r).recordedAt)
    requires Restored(w, sc', m, payloads, EntriesOf(w, sc, rs)).Some?
    ensures Restored(w, sc', m, payloads, EntriesOf(w, sc, rs)).value == (EntriesOf(w, sc', rs), ItemsOf(w, sc', rs))
  {
    hide RestoreEntry, EntryOf, Excluded, WellMade, Hashes, Fits;
    if rs == [] {
    } else {
      var before, r := rs[..|rs| - 1], rs[|rs| - 1];
      assert rs == before + [r];
      RecordSnoc(w, sc, job, before, r);
      RecordSnoc(w, sc', job, before, r);
      RestoredSnoc(w, sc', m, payloads, EntriesOf(w, sc, before), EntryOf(w, sc, r));
      RestoredIsClassified(w, sc, sc', job, m, payloads, before);
      RestoredEntryIsRecord(w, sc, sc', job, m, payloads, r);
    }
  }

  // A payload map that still holds the body of every kept item.
  ghost predicate Holds(payloads: map<string, Payload>, items: seq<Item>) {
    forall item :: item in items ==> item.versionId in payloads && payloads[item.versionId] == item.payload
  }

  /** With all bodies at hand and no exclusion lifted, a restore never falls back to a rescan. */
  lemma {:induction false} RestoreSucceeds(w: World, sc: Scene, sc': Scene, job: Job, m: Manifest,
                                          payloads: map<string, Payload>, rs: seq<Record>)
    requires Fits(w, job) && m.binding == job.binding
    requires forall r :: r in rs ==> WellMade(w, job, m.session, r) && Stable(w, EntryOf(w, sc, r).recordedAt)
    requires forall r :: r in rs && r.Body? && Excluded(w, sc, r.item) ==> Excluded(w, sc', r.item)
    requires Holds(payloads, ItemsOf(w, sc, rs))
    ensures Restored(w, sc', m, payloads, EntriesOf(w, sc, rs)).Some?
  {
    hide RestoreEntry, EntryOf, Excluded, WellMade, Fits;
    if rs == [] {
    } else {
      var before, r := rs[..|rs| - 1], rs[|rs| - 1];
      assert rs == before + [r];
      RecordSnoc(w, sc, job, before, r);
      RestoredSnoc(w, sc', m, payloads, EntriesOf(w, sc, before), EntryOf(w, sc, r));
      RestoreSucceeds(w, sc, sc', job, m, payloads, before);
      RestoreEntrySucceeds(w, sc, sc', job, m, payloads, r);
    }
  }

  lemma RestoreEntrySucceeds(w: World, sc: Scene, sc': Scene, job: Job, m: Manifest, payloads: map<string, Payload>,
                             r: Record)
    requires Fits(w, job) && m.binding == job.binding
    requires WellMade(w, job, m.session, r) && Stable(w, EntryOf(w, sc, r).recordedAt)
    requires r.Body? && Excluded(w, sc, r.item) ==> Excluded(w, sc', r.item)
    requires r.Body? && !Excluded(w, sc, r.item) ==> Holds(payloads, [r.item])
    ensures RestoreEntry(w, sc', m, payloads, EntryOf(w, sc, r)).Some?
  {
    if r.Body? {
      var text, timestamp :| r.item == ItemAt(w, job, m.session, r, text, timestamp);
      assert !Excluded(w, sc, r.item) ==> r.item in [r.item];
    }
  }

  /** A session that refreshes to itself is found again by a full scan. */
  lemma RefreshGivesSameScope(w: World, sc: Scene, sc': Scene, s: Session)
    requires SameSession(w, sc', s)
    ensures SameScope(w, sc, sc', s)
  {
  }
}
