/**
 The incremental scanner (src/capture/jsonl.rs `collect`): its result is the cold
 scan's, whatever the cache holds.
 */
module Capture {
  import opened Wrappers
  import opened JsonValues
  import opened CaptureMeaning
  import opened CaptureScan
  import opened CaptureCache
  import Decimal
  import Utf8

  datatype CacheInput = CacheInput(cursors: map<(string, string), Cursor>, payloads: map<string, Payload>)

  // Every cursor that still decodes was written by an earlier scan of this build.
  ghost predicate Honest(w: World, cache: CacheInput) {
    forall k :: k in cache.cursors && Decodes(w, cache.cursors[k]) ==> Written(w, cache.cursors[k].cache.value)
  }

  /** Storing the cursor of a scan keeps the cache honest, so reuse may be repeated run after run. */
  lemma StoringStaysHonest(w: World, sc: Scene, job: Job, content: Bytes, mtime: Option<string>, cache: CacheInput)
    requires Fits(w, job) && Honest(w, cache)
    requires Cold(w, sc, job, content, mtime).cursor.Some?
    ensures var c := Cold(w, sc, job, content, mtime).cursor.value;
      Honest(w, cache.(cursors := cache.cursors[(job.binding.sourceId, job.binding.sourcePath) := c]))
  {
    hide Cold;
    var c := Cold(w, sc, job, content, mtime).cursor.value;
    if Decodes(w, c) {
      assert WrittenBy(w, c.cache.value, sc, job, content, mtime);
    }
  }

  /** Resolves each working directory at most once per capture. */
  class ScopeCache {
    var resolved: map<string, Option<Repo>>
    var discoveries: nat

    constructor ()
      ensures resolved == map[] && discoveries == 0
    {
      resolved, discoveries := map[], 0;
    }

    ghost predicate Valid(sc: Scene)
      reads this
    {
      forall cwd :: cwd in resolved ==> resolved[cwd] == sc.discover(cwd)
    }

    method Session(w: World, sc: Scene, data: Json) returns (r: Result<Option<Session>, string>)
      requires Valid(sc)
      modifies this
      ensures Valid(sc)
      ensures r == SessionOf(w, sc, data)
      ensures old(resolved.Keys) <= resolved.Keys
      ensures discoveries - old(discoveries) == |resolved| - |old(resolved)|
    {
      var cwd := StrOr(Get(data, "cwd"), "");
      var found: Option<Repo> := None;
      if SafeMetadata(w, StrOr(Get(data, "id"), "")) && Get(data, "cwd").Str? && !w.unsafePath(cwd) {
        if cwd !in resolved {
          resolved := resolved[cwd := sc.discover(cwd)];
          discoveries := discoveries + 1;
        }
        found := resolved[cwd];
      }
      r := SessionIn(w, found, sc.common, data);
    }
  }

  class Captured {
    var items: seq<Item>
    var inventory: seq<Witness>
    var cursors: seq<(string, string, Cursor)>
    var missing: seq<(string, string)>
    var parsedValues: nat
    var reusedRecords: nat

    constructor ()
      ensures items == [] && inventory == [] && cursors == [] && missing == [] && parsedValues == reusedRecords == 0
    {
      items, inventory, cursors, missing, parsedValues, reusedRecords := [], [], [], [], 0, 0;
    }
  }

  // Reads may return fewer bytes than asked for; the digest covers them all.
  method VerifyPrefix(w: World, content: Bytes, length: nat, expected: string) returns (proof: Option<Bytes>)
    ensures proof == if length <= |content| && EndsLine(content[..length]) && w.digest(content[..length]) == expected
                     then Some(content[..length]) else None
  {
    var hasher: Bytes := [];
    var remaining := length;
    var last: Utf8.byte := 0;
    while remaining > 0
      invariant 0 <= remaining <= length && length - remaining <= |content|
      invariant hasher == content[..length - remaining]
      invariant hasher != [] ==> last == hasher[|hasher| - 1]
      invariant hasher == [] ==> last == 0
    {
      var at := length - remaining;
      if at == |content| {
        return None;
      }
      var n: nat :| 0 < n <= 65536 && n <= remaining && at + n <= |content|;
      hasher := hasher + content[at..at + n];
      remaining := remaining - n;
      last := content[at + n - 1];
    }
    return if last == NEWLINE && w.digest(hasher) == expected then Some(hasher) else None;
  }

  method Restore(w: World, sc: Scene, m: Manifest, cache: CacheInput, scopes: ScopeCache)
    returns (r: Option<(seq<Entry>, seq<Item>)>)
    requires scopes.Valid(sc)
    modifies scopes
    ensures scopes.Valid(sc)
    ensures r == if Located(w, sc, m) then Restored(w, sc, m, cache.payloads, m.entries) else None
  {
    hide SessionOf, Restored, RestoreEntry;
    if w.unsafePath(m.binding.sourceRoot) || w.unsafePath(m.binding.sourcePath) {
      return None;
    }
    var refreshed := scopes.Session(w, sc, Refresh(m.session));
    if refreshed != Ok(Some(m.session)) {
      return None;
    }
    r := RestoreAll(w, sc, m, cache.payloads);
  }

  // Nothing is kept of a restore that fails part-way: all entries and items, or none.
  method RestoreAll(w: World, sc: Scene, m: Manifest, payloads: map<string, Payload>)
    returns (r: Option<(seq<Entry>, seq<Item>)>)
    ensures r == Restored(w, sc, m, payloads, m.entries)
  {
    var entries: seq<Entry>, items: seq<Item> := [], [];
    var i := 0;
    assert Restored(w, sc, m, payloads, m.entries[..0]) == Some((entries, items));
    hide Restored, RestoreEntry;
    while i < |m.entries|
      invariant 0 <= i <= |m.entries|
      invariant Restored(w, sc, m, payloads, m.entries[..i]) == Some((entries, items))
    {
      var e := RestoreEntry(w, sc, m, payloads, m.entries[i]);
      assert m.entries[..i + 1] == m.entries[..i] + [m.entries[i]];
      RestoredSnoc(w, sc, m, payloads, m.entries[..i], m.entries[i]);
      if e.None? {
        RestoreFails(w, sc, m, payloads, m.entries, i);
        return None;
      }
      entries := entries + [e.value.0];
      if e.value.1.Some? {
        items := items + [e.value.1.value];
      }
      i := i + 1;
    }
    assert m.entries[..i] == m.entries;
    return Some((entries, items));
  }

  predicate Located(w: World, sc: Scene, m: Manifest) {
    !w.unsafePath(m.binding.sourceRoot) && !w.unsafePath(m.binding.sourcePath) && SameSession(w, sc, m.session)
  }

  lemma {:induction false} RestoreFails(w: World, sc: Scene, m: Manifest, payloads: map<string, Payload>,
                                        es: seq<Entry>, i: nat)
    requires i < |es| && RestoreEntry(w, sc, m, payloads, es[i]).None?
    ensures Restored(w, sc, m, payloads, es).None?
  {
    hide RestoreEntry;
    if i < |es| - 1 {
      RestoreFails(w, sc, m, payloads, es[..|es| - 1], i);
    }
  }

  // The saved manifest, if it still describes a prefix of this file.
  ghost predicate Usable(w: World, sc: Scene, job: Job, content: Bytes, m: Manifest) {
    && m.binding == job.binding
    && m.prefixLen <= |content|
    && EndsLine(content[..m.prefixLen])
    && w.digest(content[..m.prefixLen]) == m.prefixSha
    && SameSession(w, sc, m.session)
  }

  // The parse that a restored manifest stands for.
  function Resumed(m: Manifest, records: seq<Record>, ordinal: Option<nat>): Parse {
    Parse(m.prefixLen, true, Some(m.session), m.headerEnd, m.headerOrdinal, ordinal, records, None, false)
  }

  function ResumedOrdinal(job: Job, m: Manifest, entries: seq<Entry>): Option<nat> {
    if job.kind.Codex? && entries != [] && Decimal.ParseU64(entries[|entries| - 1].id).Some?
      then Decimal.ParseU64(entries[|entries| - 1].id)
    else m.headerOrdinal
  }

  lemma WrittenOrdinal(w: World, job: Job, m: Manifest, p: Parse)
    requires p.session.Some? && Tiled(w, job, p) && m.headerOrdinal == p.headerOrdinal
    requires job.kind.Omp? ==> p.ordinal == p.headerOrdinal
    ensures forall es: seq<Entry> ::
      |es| == |p.records| && (es != [] ==> es[|es| - 1].id == p.records[|p.records| - 1].id) ==>
        ResumedOrdinal(job, m, es) == p.ordinal
  {
    if job.kind.Codex? {
      OrdinalLast(p.headerOrdinal, IdSeq(p.records));
      hide LastOrdinal, TiledRecords, Decimal.ParseU64, Decimal.Show;
    }
  }

  lemma {:induction false} OmpOrdinal(w: World, sc: Scene, job: Job, content: Bytes, p: Parse)
    requires job.kind.Omp? && p.ordinal == p.headerOrdinal
    ensures var q := Run(w, sc, job, content, p); q.ordinal == q.headerOrdinal
    decreases |content| - p.offset
  {
    hide CaptureScan.Step;
    if p.offset < |content| && !Halted(p) {
      var line := content[p.offset..LineEnd(content, p.offset)];
      StepOffset(w, sc, job, p, line);
      OmpStep(w, sc, job, p, line);
      OmpOrdinal(w, sc, job, content, CaptureScan.Step(w, sc, job, p, line));
    }
  }

  lemma OmpStep(w: World, sc: Scene, job: Job, p: Parse, line: Bytes)
    requires job.kind.Omp? && p.ordinal == p.headerOrdinal
    ensures var q := CaptureScan.Step(w, sc, job, p, line); q.ordinal == q.headerOrdinal
  {
    hide HeaderStep, EntryStep;
    var next := p.(offset := p.offset + |line|, newline := EndsLine(line));
    if w.parse(line).Some? {
      if p.session.None? {
        OmpHeader(w, sc, job, next, w.parse(line).value);
      } else {
        OmpEntry(w, job, next, line, p.offset, w.parse(line).value);
      }
    }
  }

  lemma OmpHeader(w: World, sc: Scene, job: Job, p: Parse, record: Json)
    requires job.kind.Omp? && p.ordinal == p.headerOrdinal
    ensures var q := HeaderStep(w, sc, job, p, record); q.ordinal == q.headerOrdinal
  {
    hide SessionOf;
  }

  lemma OmpEntry(w: World, job: Job, p: Parse, line: Bytes, begin: nat, record: Json)
    requires job.kind.Omp? && p.ordinal == p.headerOrdinal && p.session.Some?
    ensures var q := EntryStep(w, job, p, line, begin, record); q.ordinal == q.headerOrdinal
  {
    hide EntryId, MakeItem;
  }

  /**
   The heart of reuse: if a written manifest is usable and restoring it succeeds,
   what was restored is the state a scan of the prefix would have reached, and
   going on from there is scanning the whole file.
   */
  lemma ResumeIsRun(w: World, sc: Scene, job: Job, content: Bytes, c: Cursor, payloads: map<string, Payload>)
    returns (records: seq<Record>)
    requires Hashes(w) && Fits(w, job)
    requires Decodes(w, c) && Written(w, c.cache.value) && Usable(w, sc, job, content, c.cache.value)
    requires Restored(w, sc, c.cache.value, payloads, c.cache.value.entries).Some?
    ensures var m := c.cache.value;
      var (entries, items) := Restored(w, sc, m, payloads, m.entries).value;
      var p := Resumed(m, records, ResumedOrdinal(job, m, entries));
      && Run(w, sc, job, content, p) == Run(w, sc, job, content, START)
      && entries == EntriesOf(w, sc, records)
      && items == ItemsOf(w, sc, records)
      && Accepted(p) == m.prefixLen
  {
    var m := c.cache.value;
    var sc0, job0, content0, mtime :| WrittenBy(w, m, sc0, job0, content0, mtime);
    var p := WrittenPrefix(w, sc, job, content, m, sc0, job0, content0, mtime);
    records := p.records;
    DecodedIsStable(w, c);
    assert job0 == job;
    hide Run, Restored, LastOrdinal, Decodes, ItemsOf, WrittenBy, Written;
    assert forall r :: r in records ==> WellMade(w, job, m.session, r) && Stable(w, EntryOf(w, sc0, r).recordedAt);
    RestoredIsClassified(w, sc0, sc, job, m, payloads, records);
    WrittenOrdinal(w, job, m, p);
    var entries := Restored(w, sc, m, payloads, m.entries).value.0;
    assert p == Resumed(m, records, ResumedOrdinal(job, m, entries));
  }

  // What the writing run had read when it stored the manifest, seen from the current run.
  lemma WrittenPrefix(w: World, sc: Scene, job: Job, content: Bytes, m: Manifest,
                      sc0: Scene, job0: Job, content0: Bytes, mtime: Option<string>) returns (p: Parse)
    requires Hashes(w) && Fits(w, job)
    requires WrittenBy(w, m, sc0, job0, content0, mtime) && Usable(w, sc, job, content, m)
    ensures job0 == job && p.session == Some(m.session) && Resumable(content0, p) && !Halted(p)
    ensures Tiled(w, job, p) && (job.kind.Omp? ==> p.ordinal == p.headerOrdinal)
    ensures m == ManifestOf(w, sc0, job0, content0, p) && m.prefixLen == p.offset
    ensures Run(w, sc, job, content, p) == Run(w, sc, job, content, START)
  {
    p := WrittenIs(w, m, sc0, job0, content0, mtime);
    PrefixIsWritten(w, sc0, job0, content0, content, m, p);
    RefreshGivesSameScope(w, sc0, sc, m.session);
    hide Run, LastOrdinal, WellMade, SameScope, SameSession, WrittenBy, ManifestOf, Hashes, Tiled;
    SameJob(w, sc0, job, job0, content0, m, p);
    RunSameScope(w, sc0, sc, job, content0, START);
    RunPrefix(w, sc, job, content, m.prefixLen, START);
  }

  lemma SameJob(w: World, sc0: Scene, job: Job, job0: Job, content0: Bytes, m: Manifest, p: Parse)
    requires Fits(w, job) && Fits(w, job0) && p.session.Some?
    requires m == ManifestOf(w, sc0, job0, content0, p) && m.binding == job.binding
    ensures job0 == job
  {
  }

  lemma WrittenIs(w: World, m: Manifest, sc: Scene, job: Job, content: Bytes, mtime: Option<string>) returns (p: Parse)
    requires Hashes(w) && WrittenBy(w, m, sc, job, content, mtime)
    ensures p == Run(w, sc, job, content, START) && p.session == Some(m.session) && Resumable(content, p) && !Halted(p)
    ensures Fits(w, job) && Tiled(w, job, p) && (job.kind.Omp? ==> p.ordinal == p.headerOrdinal)
    ensures m == ManifestOf(w, sc, job, content, p) && m.prefixLen == p.offset == |content|
    ensures EndsLine(content)
  {
    hide Run, Cold, CursorOf, LastOrdinal, TiledRecords, EntriesOf;
    WrittenRun(w, sc, job, content, mtime);
    p := Run(w, sc, job, content, START);
    if job.kind.Omp? {
      OmpOrdinal(w, sc, job, content, START);
    }
    LastLine(w, sc, job, content, START);
  }

  // The newline flag is about the last byte read.
  lemma {:induction false} LastLine(w: World, sc: Scene, job: Job, content: Bytes, p: Parse)
    requires p.offset <= |content|
    requires p.newline ==> 0 < p.offset && content[p.offset - 1] == NEWLINE
    ensures var q := Run(w, sc, job, content, p);
      q.offset <= |content| && (q.newline ==> 0 < q.offset && content[q.offset - 1] == NEWLINE)
    decreases |content| - p.offset
  {
    hide Step;
    if p.offset < |content| && !Halted(p) {
      var line := content[p.offset..LineEnd(content, p.offset)];
      StepOffset(w, sc, job, p, line);
      LastLine(w, sc, job, content, Step(w, sc, job, p, line));
    }
  }

  lemma DecodedIsStable(w: World, c: Cursor)
    requires Decodes(w, c)
    ensures AllStable(w, c.cache.value.entries)
  {
    var m := c.cache.value;
    var kind := KindOf(m.binding).value;
    forall e | e in m.entries ensures Stable(w, e.recordedAt) {
      var i :| 0 <= i < |m.entries| && m.entries[i] == e;
      SoundAt(w, kind, m, m.entries, i);
    }
  }

  // Equal digests mean the old file is a prefix of the new one.
  lemma PrefixIsWritten(w: World, sc0: Scene, job0: Job, content0: Bytes, content: Bytes, m: Manifest, p: Parse)
    requires Hashes(w)
    requires p.session.Some? && Resumable(content0, p) && m == ManifestOf(w, sc0, job0, content0, p)
    requires m.prefixLen <= |content| && w.digest(content[..m.prefixLen]) == m.prefixSha
    ensures content[..m.prefixLen] == content0
  {
  }

  // The running values of one scan.
  datatype Scan = Scan(
    offset: nat, accepted: nat, last: Option<string>, session: Option<Session>, hasher: Bytes, error: Option<string>,
    ids: set<string>, ordinal: Option<nat>, headerEnd: nat, headerOrdinal: Option<nat>, entries: seq<Entry>,
    newline: bool, items: seq<Item>, inventory: seq<Witness>)

  // The values stand for what has been parsed so far.
  ghost predicate Mirrors(w: World, sc: Scene, job: Job, content: Bytes, v: Scan, p: Parse) {
    && v.offset == p.offset <= |content|
    && v.hasher == content[..v.offset]
    && v.newline == p.newline && v.session == p.session && v.error == p.error
    && v.headerEnd == p.headerEnd && v.headerOrdinal == p.headerOrdinal && v.ordinal == p.ordinal
    && v.accepted == Accepted(p)
    && v.last == LastId(p)
    && (p.session.None? ==> p.records == [])
    && v.ids == Ids(p.records)
    && v.entries == EntriesOf(w, sc, p.records)
    && v.items == ItemsOf(w, sc, p.records)
    && v.inventory == InventoryOf(w, job, p)
  }

  lemma MirrorsStart(w: World, sc: Scene, job: Job, content: Bytes)
    ensures Mirrors(w, sc, job, content, Scan(0, 0, None, None, [], None, {}, None, 0, None, [], false, [], []), START)
  {
  }

  lemma MirrorsError(w: World, sc: Scene, job: Job, content: Bytes, v: Scan, p: Parse, e: string)
    requires Mirrors(w, sc, job, content, v, p)
    ensures Mirrors(w, sc, job, content, v.(error := Some(e)), p.(error := Some(e)))
  {
    hide ItemsOf, EntriesOf, PinWitnesses;
  }

  lemma Joined(content: Bytes, i: nat, j: nat)
    requires i <= j <= |content|
    ensures content[..i] + content[i..j] == content[..j]
  {
  }

  lemma MirrorsAdvance(w: World, sc: Scene, job: Job, content: Bytes, v: Scan, p: Parse, e: nat)
    requires Mirrors(w, sc, job, content, v, p) && v.offset <= e <= |content|
    ensures var line := content[v.offset..e];
      Mirrors(w, sc, job, content,
              v.(offset := v.offset + |line|, newline := EndsLine(line), hasher := v.hasher + line),
              p.(offset := p.offset + |line|, newline := EndsLine(line)))
  {
    hide ItemsOf, EntriesOf, PinWitnesses, EndsLine, Ids;
    Joined(content, v.offset, e);
  }

  lemma MirrorsHeader(w: World, sc: Scene, job: Job, content: Bytes, v: Scan, p: Parse, s: Session,
                      ordinal: Option<nat>)
    requires Mirrors(w, sc, job, content, v, p) && p.session.None?
    ensures Mirrors(w, sc, job, content,
                    v.(session := Some(s), accepted := v.offset, headerEnd := v.offset, headerOrdinal := ordinal,
                       ordinal := ordinal,
                       inventory := v.inventory
                           + [Scope(job.binding.sourceId, job.binding.sourcePath, w.sessionSha(s))]),
                    p.(session := Some(s), headerEnd := p.offset, headerOrdinal := ordinal, ordinal := ordinal))
  {
    hide ItemsOf, EntriesOf;
  }

  lemma MirrorsRecord(w: World, sc: Scene, job: Job, content: Bytes, v: Scan, p: Parse, r: Record, ordinal: Option<nat>)
    requires Mirrors(w, sc, job, content, v, p) && p.session.Some? && r.end == p.offset
    ensures Mirrors(w, sc, job, content,
                    v.(ids := v.ids + {r.id}, ordinal := ordinal, accepted := r.end, last := Some(r.id),
                       entries := v.entries + [EntryOf(w, sc, r)],
                       items := if r.Body? && !Excluded(w, sc, r.item) then v.items + [r.item] else v.items,
                       inventory :=
                         if r.Pin? then v.inventory + [ExcludedPin(job.binding.sourceId, job.binding.sourcePath, r.id)]
                                    else v.inventory),
                    p.(records := p.records + [r], ordinal := ordinal))
  {
    hide Excluded, EntryOf, ItemsOf, EntriesOf, PinWitnesses, Ids;
    RecordSnoc(w, sc, job, p.records, r);
    var scope := [Scope(job.binding.sourceId, job.binding.sourcePath, w.sessionSha(p.session.value))];
    if r.Pin? {
      var pin := [ExcludedPin(job.binding.sourceId, job.binding.sourcePath, r.id)];
      assert scope + (PinWitnesses(job, p.records) + pin) == scope + PinWitnesses(job, p.records) + pin;
    }
  }

  lemma MirrorsResumed(w: World, sc: Scene, job: Job, content: Bytes, m: Manifest, entries: seq<Entry>,
                       items: seq<Item>,
                       pins: seq<Witness>, records: seq<Record>)
    requires entries == EntriesOf(w, sc, records) && items == ItemsOf(w, sc, records)
      && pins == PinWitnesses(job, records)
    requires m.prefixLen <= |content|
    requires Accepted(Resumed(m, records, ResumedOrdinal(job, m, entries))) == m.prefixLen
    ensures Mirrors(w, sc, job, content,
                    Scan(m.prefixLen, m.prefixLen, if entries == [] then None else Some(entries[|entries| - 1].id),
                         Some(m.session), content[..m.prefixLen], None, set e | e in entries :: e.id,
                         ResumedOrdinal(job, m, entries), m.headerEnd, m.headerOrdinal, entries, true, items,
                         [Scope(job.binding.sourceId, job.binding.sourcePath, w.sessionSha(m.session))] + pins),
                    Resumed(m, records, ResumedOrdinal(job, m, entries)))
  {
    hide ItemsOf, PinWitnesses, ResumedOrdinal, EntryOf;
    assert forall i :: 0 <= i < |records| ==>
      entries[i] in entries && records[i] in records && entries[i].id == records[i].id;
    assert (set e | e in entries :: e.id) == Ids(records);
  }

  // Pins are reported again for a restored prefix.
  method PinsOf(w: World, sc: Scene, job: Job, entries: seq<Entry>, ghost records: seq<Record>)
    returns (pins: seq<Witness>)
    requires entries == EntriesOf(w, sc, records)
    ensures pins == PinWitnesses(job, records)
  {
    hide Excluded;
    pins := [];
    var i := 0;
    while i < |entries|
      invariant 0 <= i <= |entries|
      invariant pins == PinWitnesses(job, records[..i])
    {
      assert records[..i + 1][..i] == records[..i];
      assert PinWitnesses(job, records[..i]) + [] == PinWitnesses(job, records[..i]);
      if entries[i].state.CredentialPin? {
        pins := pins + [ExcludedPin(job.binding.sourceId, job.binding.sourcePath, entries[i].id)];
      }
      i := i + 1;
    }
    assert records[..i] == records;
  }

  method ReadHeader(w: World, sc: Scene, job: Job, content: Bytes, v: Scan, record: Json, scopes: ScopeCache,
                    ghost p: Parse)
    returns (r: Scan, unrelated: bool)
    requires Mirrors(w, sc, job, content, v, p) && p.session.None? && !Halted(p)
    requires scopes.Valid(sc)
    modifies scopes
    ensures scopes.Valid(sc)
    ensures Mirrors(w, sc, job, content, r, HeaderStep(w, sc, job, p, record).(unrelated := false))
    ensures unrelated == HeaderStep(w, sc, job, p, record).unrelated
  {
    hide SessionOf, SessionIn, Header, Mirrors;
    r, unrelated := v, false;
    match Header(job.kind, record)
    case Err(e) =>
      MirrorsError(w, sc, job, content, v, p, e);
      r := r.(error := Some(e));
    case Ok(None) =>
      assert HeaderStep(w, sc, job, p, record).(unrelated := false) == p;
    case Ok(Some(data)) =>
      var found := scopes.Session(w, sc, data);
      match found
      case Err(e) =>
        MirrorsError(w, sc, job, content, v, p, e);
        r := r.(error := Some(e));
      case Ok(None) =>
        assert HeaderStep(w, sc, job, p, record).(unrelated := false) == p;
        unrelated := true;
      case Ok(Some(s)) =>
        var ordinal := AsU64(Get(record, "ordinal"));
        MirrorsHeader(w, sc, job, content, v, p, s, ordinal);
        r := r.(session := Some(s), accepted := r.offset, headerEnd := r.offset, headerOrdinal := ordinal,
                ordinal := ordinal,
                inventory := r.inventory + [Scope(job.binding.sourceId, job.binding.sourcePath, w.sessionSha(s))]);
  }

  method ReadEntry(w: World, sc: Scene, job: Job, content: Bytes, v: Scan, record: Json, line: Bytes, begin: nat,
                   ghost p: Parse)
    returns (r: Scan)
    requires Mirrors(w, sc, job, content, v, p) && v.session == p.session && p.session.Some? && v.ordinal == p.ordinal
    requires v.offset == p.offset && v.ids == Ids(p.records)
    ensures Mirrors(w, sc, job, content, r, EntryStep(w, job, p, line, begin, record))
  {
    hide EntryId, MakeItem, SafeMetadata, Mirrors, Excluded;
    r := v;
    var id := EntryId(job.kind, record, v.ordinal);
    if id.Err? {
      MirrorsError(w, sc, job, content, v, p, id.error);
      r := r.(error := Some(id.error));
    } else if !SafeMetadata(w, id.value) {
      MirrorsError(w, sc, job, content, v, p, "capture_unsafe_metadata");
      r := r.(error := Some("capture_unsafe_metadata"));
    } else if id.value in v.ids {
      MirrorsError(w, sc, job, content, v, p, "capture_schema");
      r := r.(error := Some("capture_schema"));
    } else {
      var ordinal := if job.kind.Codex? then AsU64(Get(record, "ordinal")) else v.ordinal;
      var sha := w.digest(line);
      if IsPin(record) {
        MirrorsRecord(w, sc, job, content, v, p, Pin(id.value, begin, v.offset, sha), ordinal);
        r := r.(inventory := r.inventory + [ExcludedPin(job.binding.sourceId, job.binding.sourcePath, id.value)],
                entries := r.entries + [Entry(id.value, begin, v.offset, sha, None, CredentialPin)]);
      } else {
        var item := MakeItem(w, job.kind, job.binding, v.session.value, id.value, w.redactedBody(record), begin,
                             v.offset,
                             AsStr(Get(record, "timestamp")), sha);
        MirrorsRecord(w, sc, job, content, v, p, Body(id.value, begin, v.offset, sha, item), ordinal);
        var excluded := Excluded(w, sc, item);
        r := r.(entries := r.entries + [Entry(id.value, begin, v.offset, sha, item.observation.recordedAt,
                                              if excluded then Tombstoned else Retained(item.versionId))],
                items := if excluded then r.items else r.items + [item]);
      }
      r := r.(ids := r.ids + {id.value}, ordinal := ordinal, accepted := r.offset, last := Some(id.value));
    }
  }

  method ReadLine(w: World, sc: Scene, job: Job, content: Bytes, v: Scan, scopes: ScopeCache, ghost p: Parse)
    returns (r: Scan, unrelated: bool)
    requires Mirrors(w, sc, job, content, v, p) && !Halted(p) && v.offset < |content|
    requires scopes.Valid(sc)
    modifies scopes
    ensures scopes.Valid(sc)
    ensures var q := Step(w, sc, job, p, content[v.offset..LineEnd(content, v.offset)]);
      unrelated == q.unrelated && Mirrors(w, sc, job, content, r, q.(unrelated := false))
  {
    hide Mirrors, HeaderStep, EntryStep, ItemsOf, PinWitnesses, EntriesOf, InventoryOf, Ids;
    var line := content[v.offset..LineEnd(content, v.offset)];
    r := v.(offset := v.offset + |line|, newline := EndsLine(line), hasher := v.hasher + line);
    MirrorsAdvance(w, sc, job, content, v, p, LineEnd(content, v.offset));
    MirrorsFields(w, sc, job, content, v, p);
    ghost var next := p.(offset := p.offset + |line|, newline := EndsLine(line));
    unrelated := false;
    var record := w.parse(line);
    if record.None? {
      var e := if r.newline then "capture_schema" else "incomplete_tail";
      MirrorsError(w, sc, job, content, r, next, e);
      r := r.(error := Some(e));
    } else if r.session.None? {
      r, unrelated := ReadHeader(w, sc, job, content, r, record.value, scopes, next);
    } else {
      EntryRelated(w, job, next, line, v.offset, record.value);
      r := ReadEntry(w, sc, job, content, r, record.value, line, v.offset, next);
    }
  }

  lemma MirrorsFields(w: World, sc: Scene, job: Job, content: Bytes, v: Scan, p: Parse)
    requires Mirrors(w, sc, job, content, v, p)
    ensures v.session == p.session && v.ordinal == p.ordinal && v.offset == p.offset && v.ids == Ids(p.records)
  {
    hide Ids, EntriesOf, ItemsOf, PinWitnesses, InventoryOf;
  }

  lemma EntryRelated(w: World, job: Job, p: Parse, line: Bytes, begin: nat, record: Json)
    requires p.session.Some?
    ensures EntryStep(w, job, p, line, begin, record).unrelated == p.unrelated
  {
    hide EntryId, MakeItem, SafeMetadata;
  }

  // The file still begins with a whole scan of this build, in the same scope and with every body at hand.
  ghost predicate Reusable(w: World, sc: Scene, job: Job, content: Bytes, cache: CacheInput) {
    var key := (job.binding.sourceId, job.binding.sourcePath);
    && key in cache.cursors && Trusted(w, cache.cursors[key])
    && var m := cache.cursors[key].cache.value;
    && m.binding == job.binding && m.prefixLen <= |content|
    && EndsLine(content[..m.prefixLen]) && w.digest(content[..m.prefixLen]) == m.prefixSha
    && Located(w, sc, m) && Restored(w, sc, m, cache.payloads, m.entries).Some?
  }

  // ----- how much is read again

  // A line begins at the front and behind every newline but the last byte.
  function LinesIn(s: Bytes): nat {
    if s == [] then 0
    else LinesIn(s[..|s| - 1]) + if |s| == 1 || s[|s| - 2] == NEWLINE then 1 else 0
  }

  function LinesBetween(content: Bytes, from: nat, to: nat): nat {
    if from <= to <= |content| then LinesIn(content[from..to]) else 0
  }

  lemma {:induction false} LinesMore(s: Bytes, line: Bytes)
    requires line != [] && (s == [] || s[|s| - 1] == NEWLINE)
    requires forall k :: 0 <= k < |line| - 1 ==> line[k] != NEWLINE
    ensures LinesIn(s + line) == LinesIn(s) + 1
  {
    var all := s + line;
    assert all[..|all| - 1] == s + line[..|line| - 1];
    if |line| > 1 {
      LinesMore(s, line[..|line| - 1]);
      assert all[|all| - 2] == line[|line| - 2];
    } else {
      assert line[..0] == [] && s + [] == s;
    }
  }

  lemma LineRead(content: Bytes, from: nat, at: nat)
    requires from <= at < |content| && (at == from || content[at - 1] == NEWLINE)
    ensures LinesBetween(content, from, LineEnd(content, at)) == LinesBetween(content, from, at) + 1
  {
    var e := LineEnd(content, at);
    assert content[from..at] + content[at..e] == content[from..e];
    LinesMore(content[from..at], content[at..e]);
  }

  /**
   The work of a scan: a reusable cache saves every line of its prefix, and each line
   behind it is parsed once, as far as the scan goes.
   */
  ghost predicate Works(w: World, sc: Scene, job: Job, content: Bytes, cache: CacheInput, reused: nat, reused': nat,
                        parsed: nat, parsed': nat) {
    var end := Run(w, sc, job, content, START).offset;
    if Reusable(w, sc, job, content, cache) then
      var m := cache.cursors[(job.binding.sourceId, job.binding.sourcePath)].cache.value;
      && reused' == reused + |Restored(w, sc, m, cache.payloads, m.entries).value.1|
      && parsed' == parsed + LinesBetween(content, m.prefixLen, end)
    else reused' == reused && parsed' == parsed + LinesBetween(content, 0, end)
  }

  // Where reading sets in, and what was reused before it.
  ghost predicate WorksFrom(w: World, sc: Scene, job: Job, content: Bytes, cache: CacheInput, reused: nat, from: nat) {
    if Reusable(w, sc, job, content, cache) then
      var m := cache.cursors[(job.binding.sourceId, job.binding.sourcePath)].cache.value;
      reused == |Restored(w, sc, m, cache.payloads, m.entries).value.1| && from == m.prefixLen
    else reused == 0 && from == 0
  }

  lemma WorksDone(w: World, sc: Scene, job: Job, content: Bytes, cache: CacheInput, from: nat, to: nat, saved: nat,
                  reused: nat, parsed: nat)
    requires WorksFrom(w, sc, job, content, cache, saved, from)
    requires to == Run(w, sc, job, content, START).offset
    ensures Works(w, sc, job, content, cache, reused, reused + saved, parsed,
                  parsed + LinesBetween(content, from, to))
  {
    hide Reusable, Run, LinesBetween, Restored;
  }

  // Decoding, verification and restore together: a hit, or nothing at all.
  method Reuse(w: World, sc: Scene, job: Job, content: Bytes, cache: CacheInput, scopes: ScopeCache)
    returns (saved: Option<Manifest>, restored: Option<(seq<Entry>, seq<Item>)>, ghost records: seq<Record>)
    requires Hashes(w) && Fits(w, job) && Honest(w, cache) && scopes.Valid(sc)
    modifies scopes
    ensures scopes.Valid(sc)
    ensures restored.Some? ==> saved.Some? && Hit(w, sc, job, content, saved.value, restored.value, records)
    ensures WorksFrom(w, sc, job, content, cache, if restored.Some? then |restored.value.1| else 0,
                      if restored.Some? then saved.value.prefixLen else 0)
  {
    hide Decodes, Restored, Written, Run, SessionOf, Hashes, Fits, ResumedOrdinal, ItemsOf, EntriesOf, Trusted;
    saved, restored, records := None, None, [];
    var key := (job.binding.sourceId, job.binding.sourcePath);
    if key !in cache.cursors {
      return;
    }
    var c := cache.cursors[key];
    saved := Decode(w, c);
    if saved.None? || saved.value.binding != job.binding || saved.value.prefixLen > |content| {
      return;
    }
    var m := saved.value;
    var proof := VerifyPrefix(w, content, m.prefixLen, m.prefixSha);
    if proof.None? {
      return;
    }
    restored := Restore(w, sc, m, cache, scopes);
    if restored.Some? {
      records := ResumeIsRun(w, sc, job, content, c, cache.payloads);
    }
  }

  // What a hit hands to the scan: the classified records of a prefix from which the whole run goes on.
  ghost predicate Hit(w: World, sc: Scene, job: Job, content: Bytes, m: Manifest, restored: (seq<Entry>, seq<Item>),
                      records: seq<Record>) {
    var p := Resumed(m, records, ResumedOrdinal(job, m, restored.0));
    && m.prefixLen <= |content|
    && Run(w, sc, job, content, p) == Run(w, sc, job, content, START)
    && restored == (EntriesOf(w, sc, records), ItemsOf(w, sc, records))
    && Accepted(p) == m.prefixLen
  }

  // What a scan adds to a capture is what the lines of its file mean, with at most one cursor, filed under the file.
  ghost predicate AddsMeaning(
    w: World, sc: Scene, job: Job, content: Bytes, mtime: Option<string>, items: seq<Item>, items': seq<Item>,
    inventory: seq<Witness>, inventory': seq<Witness>, cursors: seq<(string, string, Cursor)>,
    cursors': seq<(string, string, Cursor)>, failure: Option<string>) {
    && items <= items' && inventory <= inventory' && cursors <= cursors'
    && |cursors'| <= |cursors| + 1
    && var c := if |cursors'| == |cursors| then None else Some(cursors'[|cursors|].2);
    && (c.Some? ==> c.value.mtime == mtime
                    && cursors'[|cursors|] == (job.binding.sourceId, job.binding.sourcePath, c.value))
    && Means(w, sc, job, content, Outcome(items'[|items|..], inventory'[|inventory|..], c, failure))
  }

  lemma ColdAddsMeaning(
    w: World, sc: Scene, job: Job, content: Bytes, mtime: Option<string>, items: seq<Item>, items': seq<Item>,
    inventory: seq<Witness>, inventory': seq<Witness>, cursors: seq<(string, string, Cursor)>,
    cursors': seq<(string, string, Cursor)>)
    requires var cold := Cold(w, sc, job, content, mtime);
      && items' == items + cold.items && inventory' == inventory + cold.inventory
      && cursors' == cursors
         + (if cold.cursor.Some? then [(job.binding.sourceId, job.binding.sourcePath, cold.cursor.value)] else [])
    ensures AddsMeaning(w, sc, job, content, mtime, items, items', inventory, inventory', cursors, cursors',
                        Cold(w, sc, job, content, mtime).error)
  {
    hide Cold, Means;
    ColdMeans(w, sc, job, content, mtime);
    var cold := Cold(w, sc, job, content, mtime);
    assert items'[|items|..] == cold.items && inventory'[|inventory|..] == cold.inventory;
  }

  // No exclusion is lifted from one run to the next.
  ghost predicate NoneLifted(sc: Scene, sc': Scene) {
    sc.forgotten <= sc'.forgotten && forall t :: t in sc.tombstones ==> t in sc'.tombstones
  }

  // Redacting what was recorded of Git a second time changes nothing.
  predicate RevisionStable(w: World, s: Session) {
    s.nativeRevision.Some? ==>
      && s.nativeRevision.value.Obj?
      && var git := s.nativeRevision.value.o;
      if "branch" in git && git["branch"].Str? then
        git["branch"] == Str(s.branch) && w.redactGit(git)["branch" := git["branch"]] == git
      else w.redactGit(git) == git
  }

  /** A recorded session of this clone still resolves to itself exactly when its revision is stable. */
  lemma SessionStays(w: World, sc: Scene, sc': Scene, data: Json, s: Session)
    requires Describes(w, sc, data, s) && sc'.common == sc.common && sc'.discover(s.cwd) == sc.discover(s.cwd)
    ensures SameSession(w, sc', s) <==> RevisionStable(w, s)
  {
    var again := Refresh(s);
    assert Get(again, "cwd") == Str(s.cwd) && Get(again, "id") == Str(s.id) && Get(again, "branch") == Str(s.branch);
    assert Get(again, "git") == if s.nativeRevision.Some? then s.nativeRevision.value else Null;
  }

  // The session in a manifest is the one its file's header describes.
  lemma WrittenSession(w: World, sc: Scene, job: Job, content: Bytes, mtime: Option<string>) returns (data: Json)
    requires Cold(w, sc, job, content, mtime).cursor.Some?
    requires Cold(w, sc, job, content, mtime).cursor.value.cache.Some?
    ensures Describes(w, sc, data, Cold(w, sc, job, content, mtime).cursor.value.cache.value.session)
  {
    hide Cold, Describes, IsHead, Other, Told, Stops, Takes, Witnesses, Stamped, OpensNothing;
    ColdMeans(w, sc, job, content, mtime);
    var h, s :| Ours(w, sc, job, content, h, s);
    data := Data(job.kind, h);
  }

  /**
   A file that was read to its end and only grew since is never read again from the
   front: its cursor is reused, so that a scan parses the appended lines alone.
   */
  lemma AppendedIsReused(w: World, sc: Scene, sc': Scene, job: Job, content: Bytes, mtime: Option<string>, more: Bytes,
                         cache: CacheInput)
    requires Hashes(w) && Fits(w, job)
    requires var key, o := (job.binding.sourceId, job.binding.sourcePath), Cold(w, sc, job, content, mtime);
      && o.cursor.Some? && o.cursor.value.cache.Some?
      && key in cache.cursors && cache.cursors[key] == o.cursor.value
      && AllStable(w, o.cursor.value.cache.value.entries) && Holds(cache.payloads, o.items)
      && RevisionStable(w, o.cursor.value.cache.value.session)
      && sc'.discover(o.cursor.value.cache.value.session.cwd) == sc.discover(o.cursor.value.cache.value.session.cwd)
    requires !w.unsafePath(job.binding.sourceRoot) && !w.unsafePath(job.binding.sourcePath)
    requires sc'.common == sc.common && NoneLifted(sc, sc')
    ensures Reusable(w, sc', job, content + more, cache)
    ensures cache.cursors[(job.binding.sourceId, job.binding.sourcePath)].cache.value.prefixLen == |content|
  {
    hide Run, Cold, AllStable, Restored, Trusted, Decodes, WellMade, ItemsOf, Excluded, TiledRecords, Describes,
         RevisionStable, SameSession;
    var c := Cold(w, sc, job, content, mtime).cursor.value;
    var m := c.cache.value;
    WrittenDecodes(w, sc, job, content, mtime);
    DecodesIsTrusted(w, c);
    var data := WrittenSession(w, sc, job, content, mtime);
    SessionStays(w, sc, sc', data, m.session);
    assert WrittenBy(w, m, sc, job, content, mtime);
    var p := WrittenIs(w, m, sc, job, content, mtime);
    assert (content + more)[..|content|] == content;
    ColdItems(w, sc, job, content, mtime, p);
    WrittenRecords(w, sc, job, c, m, p);
    forall r | r in p.records && r.Body? && Excluded(w, sc, r.item) ensures Excluded(w, sc', r.item) {
      StaysExcluded(w, sc, sc', r.item);
    }
    RestoreSucceeds(w, sc, sc', job, m, cache.payloads, p.records);
  }

  lemma ColdItems(w: World, sc: Scene, job: Job, content: Bytes, mtime: Option<string>, p: Parse)
    requires p == Run(w, sc, job, content, START) && !Halted(p)
    ensures Cold(w, sc, job, content, mtime).items == ItemsOf(w, sc, p.records)
  {
    hide Run, ItemsOf, InventoryOf, CursorOf;
  }

  lemma WrittenRecords(w: World, sc: Scene, job: Job, c: Cursor, m: Manifest, p: Parse)
    requires Tiled(w, job, p) && p.session == Some(m.session)
    requires Decodes(w, c) && c.cache == Some(m) && m.entries == EntriesOf(w, sc, p.records)
    ensures forall r :: r in p.records ==> WellMade(w, job, m.session, r) && Stable(w, EntryOf(w, sc, r).recordedAt)
  {
    hide Decodes, WellMade, Stable, EntryOf;
    DecodedIsStable(w, c);
  }

  lemma StaysExcluded(w: World, sc: Scene, sc': Scene, item: Item)
    requires NoneLifted(sc, sc') && Excluded(w, sc, item)
    ensures Excluded(w, sc', item)
  {
  }

  // Where a scan sets in: behind what can be reused, else at the first byte.
  method Begin(w: World, sc: Scene, job: Job, content: Bytes, cache: CacheInput, scopes: ScopeCache, out: Captured)
    returns (v: Scan, ghost p: Parse, ghost saved: nat)
    requires Hashes(w) && Fits(w, job) && Honest(w, cache)
    requires scopes.Valid(sc)
    modifies scopes, out`reusedRecords
    ensures scopes.Valid(sc)
    ensures Mirrors(w, sc, job, content, v, p) && v.offset == p.offset && v.error == p.error && !p.unrelated
    ensures Run(w, sc, job, content, p) == Run(w, sc, job, content, START)
    ensures WorksFrom(w, sc, job, content, cache, saved, v.offset)
      && out.reusedRecords == old(out.reusedRecords) + saved
  {
    hide Mirrors, Hit, Run, Honest, Fits, Hashes, Reusable, Restored, WorksFrom;
    v, p := Scan(0, 0, None, None, [], None, {}, None, 0, None, [], false, [], []), START;
    MirrorsStart(w, sc, job, content);
    var manifest, restored, records := Reuse(w, sc, job, content, cache, scopes);
    saved := if restored.Some? then |restored.value.1| else 0;
    if restored.Some? {
      v, p := Resume(w, sc, job, content, manifest.value, restored.value, records);
      out.reusedRecords := out.reusedRecords + |restored.value.1|;
    }
  }

  // The lines from there on, to the end of the file or the first that stops the scan.
  method ReadLines(w: World, sc: Scene, job: Job, content: Bytes, start: Scan, scopes: ScopeCache, out: Captured,
                   ghost first: Parse)
    returns (v: Scan, unrelated: bool, ghost p: Parse)
    requires Mirrors(w, sc, job, content, start, first) && start.offset == first.offset && start.error == first.error
    requires !first.unrelated && Run(w, sc, job, content, first) == Run(w, sc, job, content, START)
    requires scopes.Valid(sc)
    modifies scopes, out`parsedValues
    ensures scopes.Valid(sc)
    ensures p == Run(w, sc, job, content, START) && unrelated == p.unrelated
    ensures Mirrors(w, sc, job, content, v, p.(unrelated := false)) && v.offset == p.offset
    ensures out.parsedValues == old(out.parsedValues) + LinesBetween(content, start.offset, v.offset)
  {
    hide Mirrors, Run, Step, LinesBetween;
    v, unrelated, p := start, false, first;
    NothingRead(content, v.offset);
    while v.offset < |content| && v.error.None?
      invariant scopes.Valid(sc)
      invariant Mirrors(w, sc, job, content, v, p) && v.offset == p.offset && v.error == p.error && !p.unrelated
      invariant Run(w, sc, job, content, p) == Run(w, sc, job, content, START)
      invariant start.offset <= v.offset
      invariant v.offset == start.offset || v.offset >= |content| || content[v.offset - 1] == NEWLINE
      invariant out.parsedValues == old(out.parsedValues) + LinesBetween(content, start.offset, v.offset)
      decreases |content| - v.offset
    {
      ghost var begin := v.offset;
      LineRead(content, start.offset, begin);
      RunStep(w, sc, job, content, p);
      v, unrelated := ReadLine(w, sc, job, content, v, scopes, p);
      out.parsedValues := out.parsedValues + 1;
      StepOffset(w, sc, job, p, content[begin..LineEnd(content, begin)]);
      p := Step(w, sc, job, p, content[begin..LineEnd(content, begin)]);
      MirrorsEnd(w, sc, job, content, v, p.(unrelated := false));
      if unrelated {
        RunStops(w, sc, job, content, p);
        return;
      }
      assert p.(unrelated := false) == p;
    }
    RunStops(w, sc, job, content, p);
    assert p.(unrelated := false) == p;
    unrelated := false;
  }

  /**
   The scan of one file. Whatever the cache holds, what is added to the capture and
   the error reported are those of the cold scan.
   */
  method Collect(w: World, sc: Scene, job: Job, content: Bytes, mtime: Option<string>,
                 cache: CacheInput, scopes: ScopeCache, out: Captured)
    returns (failure: Option<string>)
    requires Hashes(w) && Fits(w, job) && Honest(w, cache)
    requires scopes.Valid(sc)
    modifies scopes, out
    ensures scopes.Valid(sc)
    ensures var cold := Cold(w, sc, job, content, mtime);
      && failure == cold.error
      && out.items == old(out.items) + cold.items
      && out.inventory == old(out.inventory) + cold.inventory
      && out.cursors == old(out.cursors)
         + (if cold.cursor.Some? then [(job.binding.sourceId, job.binding.sourcePath, cold.cursor.value)] else [])
    ensures AddsMeaning(w, sc, job, content, mtime, old(out.items), out.items, old(out.inventory), out.inventory,
                        old(out.cursors), out.cursors, failure)
    ensures Works(w, sc, job, content, cache, old(out.reusedRecords), out.reusedRecords, old(out.parsedValues),
                  out.parsedValues)
  {
    hide Mirrors, Run, Cold, Honest, Fits, Hashes, ManifestOf, AddsMeaning, LinesBetween, Works, WorksFrom;
    var source, path := job.binding.sourceId, job.binding.sourcePath;
    var start, first, saved := Begin(w, sc, job, content, cache, scopes, out);
    var v, unrelated, p := ReadLines(w, sc, job, content, start, scopes, out, first);
    WorksDone(w, sc, job, content, cache, start.offset, v.offset, saved, old(out.reusedRecords), old(out.parsedValues));
    if unrelated {
      ColdUnrelated(w, sc, job, content, mtime, v, p);
      out.inventory := out.inventory + v.inventory + [Unrelated(source, path)];
      ColdAddsMeaning(w, sc, job, content, mtime, old(out.items), out.items, old(out.inventory), out.inventory,
                      old(out.cursors), out.cursors);
      return None;
    }
    assert p.(unrelated := false) == p;
    var cursor, error := Conclude(w, sc, job, content, mtime, v, p);
    out.items := out.items + v.items;
    out.inventory := out.inventory + v.inventory + [Fingerprint(source, path, cursor.inventorySha, |content|)];
    out.cursors := out.cursors + [(source, path, cursor)];
    ColdAddsMeaning(w, sc, job, content, mtime, old(out.items), out.items, old(out.inventory), out.inventory,
                    old(out.cursors), out.cursors);
    return error;
  }

  lemma NothingRead(content: Bytes, from: nat)
    ensures LinesBetween(content, from, from) == 0
  {
  }

  lemma ColdUnrelated(w: World, sc: Scene, job: Job, content: Bytes, mtime: Option<string>, v: Scan, p: Parse)
    requires p == Run(w, sc, job, content, START) && p.unrelated
    requires Mirrors(w, sc, job, content, v, p.(unrelated := false))
    ensures Cold(w, sc, job, content, mtime) ==
            Outcome([], v.inventory + [Unrelated(job.binding.sourceId, job.binding.sourcePath)], None, None)
  {
    hide Run, ItemsOf, EntriesOf, Ids, PinWitnesses;
  }

  // The digest of the whole file needs the bytes after a line that stopped the scan.
  method Drain(content: Bytes, hasher: Bytes) returns (whole: Bytes)
    requires hasher <= content
    ensures whole == content
  {
    whole := hasher;
    while |whole| < |content|
      invariant whole <= content
    {
      var n: nat :| 0 < n <= 65536 && |whole| + n <= |content|;
      whole := whole + content[|whole|..|whole| + n];
    }
  }

  method Conclude(w: World, sc: Scene, job: Job, content: Bytes, mtime: Option<string>, v: Scan, ghost p: Parse)
    returns (cursor: Cursor, error: Option<string>)
    requires p == Run(w, sc, job, content, START) && !p.unrelated
    requires Mirrors(w, sc, job, content, v, p)
    ensures Cold(w, sc, job, content, mtime) ==
            Outcome(v.items,
                    v.inventory
                        + [Fingerprint(job.binding.sourceId, job.binding.sourcePath, cursor.inventorySha, |content|)],
                    Some(cursor), error)
  {
    hide Run, ItemsOf, EntriesOf, Ids, InventoryOf;
    var whole := Drain(content, v.hasher);
    var fingerprint := w.digest(whole);
    error := v.error;
    if v.session.None? && error.None? {
      error := Some("capture_schema");
    }
    cursor := Cursor(w.digest(First4k(content)), job.binding.inode, job.binding.device, v.accepted, v.last, |content|,
                     mtime,
                     error.None?, fingerprint, None, None);
    if error.None? && v.newline && v.accepted == |content| {
      var m := Manifest(1, job.binding, v.accepted, fingerprint, v.session.value, v.headerEnd, v.headerOrdinal,
                        v.entries);
      cursor := cursor.(cache := Some(m), cacheSha := Some(w.manifestSha(m)));
    }
    assert cursor == CursorOf(w, sc, job, content, mtime, p);
  }

  lemma RunStep(w: World, sc: Scene, job: Job, content: Bytes, p: Parse)
    requires p.offset < |content| && !Halted(p)
    ensures Run(w, sc, job, content, p) ==
            Run(w, sc, job, content, Step(w, sc, job, p, content[p.offset..LineEnd(content, p.offset)]))
  {
    hide Step;
  }

  lemma RunStops(w: World, sc: Scene, job: Job, content: Bytes, p: Parse)
    requires p.offset >= |content| || Halted(p)
    ensures Run(w, sc, job, content, p) == p
  {
    hide Step;
  }

  lemma MirrorsEnd(w: World, sc: Scene, job: Job, content: Bytes, v: Scan, p: Parse)
    requires Mirrors(w, sc, job, content, v, p)
    ensures v.offset == p.offset && v.error == p.error && v.hasher == content[..v.offset] && v.offset <= |content|
  {
    hide ItemsOf, EntriesOf, InventoryOf, Ids;
  }

  method Resume(w: World, sc: Scene, job: Job, content: Bytes, m: Manifest, restored: (seq<Entry>, seq<Item>),
                ghost records: seq<Record>)
    returns (v: Scan, ghost p: Parse)
    requires Hit(w, sc, job, content, m, restored, records)
    ensures Mirrors(w, sc, job, content, v, p) && v.offset == p.offset && v.error == p.error && !p.unrelated
    ensures v.offset == m.prefixLen
    ensures Run(w, sc, job, content, p) == Run(w, sc, job, content, START)
  {
    hide Mirrors, ItemsOf, EntriesOf, Run, ResumedOrdinal, Excluded;
    var entries := restored.0;
    var pins := PinsOf(w, sc, job, entries, records);
    MirrorsResumed(w, sc, job, content, m, entries, restored.1, pins, records);
    var ordinal := ResumedOrdinal(job, m, entries);
    v := Scan(m.prefixLen, m.prefixLen, if entries == [] then None else Some(entries[|entries| - 1].id),
              Some(m.session), content[..m.prefixLen], None, set e | e in entries :: e.id,
              ordinal, m.headerEnd, m.headerOrdinal, entries, true, restored.1,
              [Scope(job.binding.sourceId, job.binding.sourcePath, w.sessionSha(m.session))] + pins);
    p := Resumed(m, records, ordinal);
  }
}
