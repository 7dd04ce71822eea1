/**
 What one JSONL session file means (src/capture/jsonl.rs, src/capture.rs).

 The meaning is given in two parts. `Run` reads the file line by line and says
 which records it holds; it knows nothing of tombstones. `EntriesOf` and
 `ItemsOf` then classify those records under a run's exclusions. `Cold` is the
 outcome of a scan without any cache.
 */
module CaptureScan {
  import opened Wrappers
  import opened JsonValues
  import opened Tombstones
  import Decimal
  import Utf8

  type Bytes = seq<Utf8.byte>

  const NEWLINE: Utf8.byte := 10

  datatype Kind = Omp | Codex

  function SourceId(kind: Kind): string {
    if kind.Codex? then "harness-codex" else "harness-omp"
  }

  datatype Repo = Repo(common: string, root: string)

  datatype Session = Session(id: string, cwd: string, worktree: string, branch: string, nativeRevision: Option<Json>)

  datatype Payload = Payload(
    kind: string, nativeId: string, nativeStatus: Option<string>, record: Json, text: string, sections: seq<string>)

  // Without the observation's own random id and the time it was made.
  datatype Observation = Observation(
    worktree: string, branch: string, pointer: string, sourcePath: string, sourceSha: string,
    sourceRoot: string, begin: nat, end: nat, nativeRevision: Option<Json>, recordedAt: Option<string>)

  datatype Item = Item(id: string, sourceId: string, versionId: string, payload: Payload, observation: Observation)

  // Identity of one file under one build, as stored in a manifest.
  datatype Binding = Binding(
    projectId: string, cloneId: string, sourceId: string, sourcePath: string, sourceRoot: string, rootSha: string,
    parserRevision: string, redactionRevision: string, inode: nat, device: nat)

  datatype EntryState = Retained(versionId: string) | CredentialPin | Tombstoned

  datatype Entry = Entry(id: string, begin: nat, end: nat, sourceSha: string, recordedAt: Option<string>,
                         state: EntryState)

  datatype Manifest = Manifest(
    format: nat, binding: Binding, prefixLen: nat, prefixSha: string, session: Session,
    headerEnd: nat, headerOrdinal: Option<nat>, entries: seq<Entry>)

  datatype Cursor = Cursor(
    first4k: string, inode: nat, device: nat, byteOffset: nat, lastId: Option<string>, size: nat, mtime: Option<string>,
    complete: bool, inventorySha: string, cache: Option<Manifest>, cacheSha: Option<string>)

  // Functions of the build that the scanner only calls.
  datatype World = World(
    parse: Bytes -> Option<Json>,
    digest: Bytes -> string,
    isDigest: string -> bool,
    redactText: string -> string,
    redactedBody: Json -> string,
    redactGit: map<string, Json> -> map<string, Json>,
    sensitive: string -> bool,
    unsafePath: string -> bool,
    itemId: (string, string, string) -> string,
    pointer: (Kind, string, string) -> string,
    version: (string, Payload) -> string,
    sessionSha: Session -> string,
    manifestSha: Manifest -> string,
    time: ParseTime,
    parserRevision: Kind -> string,
    redactionRevision: string)

  // What may differ from one run to the next.
  datatype Scene = Scene(common: string, discover: string -> Option<Repo>, tombstones: seq<Tombstone>,
                         forgotten: set<string>)

  // One file of one adapter.
  datatype Job = Job(kind: Kind, binding: Binding)

  ghost predicate Fits(w: World, job: Job) {
    && job.binding.sourceId == SourceId(job.kind)
    && job.binding.parserRevision == w.parserRevision(job.kind)
    && job.binding.redactionRevision == w.redactionRevision
  }

  // SHA-256 is taken to be injective, so the shape of its text has to stay abstract.
  ghost predicate Hashes(w: World) {
    && (forall b :: w.isDigest(w.digest(b)))
    && (forall a, b :: w.digest(a) == w.digest(b) ==> a == b)
    && (forall i, p :: w.isDigest(w.version(i, p)))
    && (forall i, p, i', p' :: w.version(i, p) == w.version(i', p') ==> p == p')
  }

  // ----- session scope (src/capture.rs `session`)

  predicate SafeMetadata(w: World, s: string) {
    s != "" && w.redactText(s) == s
  }

  predicate SafeStructure(w: World, s: string) {
    s != "" && !w.sensitive(s)
  }

  function BranchOf(data: Json): string {
    var git := Get(Get(data, "git"), "branch");
    if git.Str? then git.s else StrOr(Get(data, "branch"), "unknown")
  }

  function RevisionOf(w: World, data: Json): Option<Json> {
    var git := Get(data, "git");
    if !git.Obj? then None
    else if Get(git, "branch").Str? then Some(Obj(w.redactGit(git.o)["branch" := Str(BranchOf(data))]))
    else Some(Obj(w.redactGit(git.o)))
  }

  // The session of a header, given what its directory resolved to.
  function SessionIn(w: World, found: Option<Repo>, common: string, data: Json): Result<Option<Session>, string> {
    var id := StrOr(Get(data, "id"), "");
    if id == "" then Err("capture_schema")
    else if !SafeMetadata(w, id) then Err("capture_unsafe_metadata")
    else if !Get(data, "cwd").Str? then Err("capture_schema")
    else
      var cwd := Get(data, "cwd").s;
      if w.unsafePath(cwd) then Err("capture_unsafe_metadata")
      else if found.None? then Err("scope_unresolved")
      else if found.value.common != common then Ok(None)
      else if w.unsafePath(found.value.root) then Err("capture_unsafe_metadata")
      else if !SafeStructure(w, BranchOf(data)) then Err("capture_unsafe_metadata")
      else Ok(Some(Session(id, cwd, found.value.root, BranchOf(data), RevisionOf(w, data))))
  }

  function SessionOf(w: World, sc: Scene, data: Json): Result<Option<Session>, string> {
    SessionIn(w, sc.discover(StrOr(Get(data, "cwd"), "")), sc.common, data)
  }

  // ----- record syntax (src/capture/omp.rs, src/capture/codex.rs)

  function Header(kind: Kind, record: Json): Result<Option<Json>, string> {
    if kind.Omp? then
      if Get(record, "type") == Str("title") then Ok(None)
      else if Get(record, "type") != Str("session") || Get(record, "version") != Num(3) then Err("capture_schema")
      else Ok(Some(record))
    else
      if Get(record, "type") != Str("session_meta") || AsU64(Get(record, "ordinal")).None? then Err("capture_schema")
      else Ok(Some(Get(record, "payload")))
  }

  function KnownTypes(kind: Kind): set<string> {
    match kind
    case Omp =>
      { "message", "model_usage", "thinking_level_change", "model_change", "service_tier_change", "compaction",
        "branch_summary", "reset_boundary", "custom", "label", "title_change", "ttsr_injection", "credential_pin",
        "session_init", "mode_change", "custom_message" }
    case Codex =>
      { "event_msg", "response_item", "turn_context", "compacted", "session_end", "world_state", "token_usage_record" }
  }

  // A credential pin is a record of OMP only.
  function EntryId(kind: Kind, record: Json, before: Option<nat>): (r: Result<string, string>)
    ensures r.Ok? && kind.Codex? ==> !IsPin(record)
  {
    var typ := StrOr(Get(record, "type"), "");
    if kind.Omp? then
      if typ !in KnownTypes(kind) || !Get(record, "id").Str? then Err("capture_schema")
      else Ok(Get(record, "id").s)
    else
      var ordinal := AsU64(Get(record, "ordinal"));
      if typ !in KnownTypes(kind) || !Get(record, "payload").Obj? || ordinal.None?
         || (before.Some? && ordinal.value <= before.value) then Err("capture_schema")
      else Ok(Decimal.Show(ordinal.value))
  }

  predicate IsPin(record: Json) {
    StrOr(Get(record, "type"), "") == "credential_pin"
  }

  // ----- items (src/capture.rs `make_item`)

  function NativeId(s: Session, entry: string): string {
    s.id + "/" + entry
  }

  function MakeItem(w: World, kind: Kind, b: Binding, s: Session, entry: string, text: string,
                    begin: nat, end: nat, timestamp: Option<string>, sha: string): Item {
    var payload := Payload(b.sourceId, NativeId(s, entry), None, Null, text, []);
    var id := w.itemId(b.projectId, b.sourceId, payload.nativeId);
    Item(id, b.sourceId, w.version(id, payload), payload,
         Observation(s.worktree, s.branch, w.pointer(kind, b.sourcePath, entry), b.sourcePath, sha, b.sourceRoot,
                     begin, end, s.nativeRevision,
                     if timestamp.Some? then Some(w.redactText(timestamp.value)) else None))
  }

  // ----- what a file holds

  datatype Record =
    | Pin(id: string, begin: nat, end: nat, sha: string)
    | Body(id: string, begin: nat, end: nat, sha: string, item: Item)

  datatype Parse = Parse(
    offset: nat, newline: bool, session: Option<Session>, headerEnd: nat, headerOrdinal: Option<nat>,
    ordinal: Option<nat>, records: seq<Record>, error: Option<string>, unrelated: bool)

  const START := Parse(0, false, None, 0, None, None, [], None, false)

  predicate Halted(p: Parse) {
    p.error.Some? || p.unrelated
  }

  function LineEnd(content: Bytes, i: nat): (e: nat)
    requires i < |content|
    ensures i < e <= |content|
    ensures forall k :: i <= k < e - 1 ==> content[k] != NEWLINE
    ensures e == |content| || content[e - 1] == NEWLINE
    decreases |content| - i
  {
    if content[i] == NEWLINE || i + 1 == |content| then i + 1 else LineEnd(content, i + 1)
  }

  predicate EndsLine(b: Bytes) {
    b != [] && b[|b| - 1] == NEWLINE
  }

  function Ids(records: seq<Record>): set<string> {
    set r | r in records :: r.id
  }

  function HeaderStep(w: World, sc: Scene, job: Job, p: Parse, record: Json): Parse {
    match Header(job.kind, record)
    case Err(e) => p.(error := Some(e))
    case Ok(None) => p
    case Ok(Some(data)) =>
      match SessionOf(w, sc, data)
      case Err(e) => p.(error := Some(e))
      case Ok(None) => p.(unrelated := true)
      case Ok(Some(s)) =>
        var ordinal := AsU64(Get(record, "ordinal"));
        p.(session := Some(s), headerEnd := p.offset, headerOrdinal := ordinal, ordinal := ordinal)
  }

  function EntryStep(w: World, job: Job, p: Parse, line: Bytes, begin: nat, record: Json): Parse
    requires p.session.Some?
  {
    match EntryId(job.kind, record, p.ordinal)
    case Err(e) => p.(error := Some(e))
    case Ok(id) =>
      if !SafeMetadata(w, id) then p.(error := Some("capture_unsafe_metadata"))
      else if id in Ids(p.records) then p.(error := Some("capture_schema"))
      else
        var sha := w.digest(line);
        var ordinal := if job.kind.Codex? then AsU64(Get(record, "ordinal")) else p.ordinal;
        var r :=
          if IsPin(record) then Pin(id, begin, p.offset, sha)
          else Body(id, begin, p.offset, sha,
                    MakeItem(w, job.kind, job.binding, p.session.value, id, w.redactedBody(record), begin, p.offset,
                             AsStr(Get(record, "timestamp")), sha));
        p.(records := p.records + [r], ordinal := ordinal)
  }

  function Step(w: World, sc: Scene, job: Job, p: Parse, line: Bytes): Parse {
    var next := p.(offset := p.offset + |line|, newline := EndsLine(line));
    match w.parse(line)
    case None => next.(error := Some(if EndsLine(line) then "capture_schema" else "incomplete_tail"))
    case Some(record) =>
      if p.session.None? then HeaderStep(w, sc, job, next, record)
      else EntryStep(w, job, next, line, p.offset, record)
  }

  function Run(w: World, sc: Scene, job: Job, content: Bytes, p: Parse): Parse
    decreases |content| - p.offset
  {
    if p.offset >= |content| || Halted(p) then p
    else Run(w, sc, job, content, Step(w, sc, job, p, content[p.offset..LineEnd(content, p.offset)]))
  }

  // ----- classification under a run's exclusions

  predicate Excluded(w: World, sc: Scene, item: Item) {
    ExcludesRecord(w.time, sc.tombstones, sc.forgotten, item.id, item.sourceId, item.observation.recordedAt)
  }

  function EntryOf(w: World, sc: Scene, r: Record): (e: Entry)
    ensures e.id == r.id && e.begin == r.begin && e.end == r.end
  {
    match r
    case Pin(id, begin, end, sha) => Entry(id, begin, end, sha, None, CredentialPin)
    case Body(id, begin, end, sha, item) =>
      Entry(id, begin, end, sha, item.observation.recordedAt,
            if Excluded(w, sc, item) then Tombstoned else Retained(item.versionId))
  }

  function EntriesOf(w: World, sc: Scene, rs: seq<Record>): (es: seq<Entry>)
    ensures |es| == |rs|
    ensures forall i :: 0 <= i < |rs| ==> es[i] == EntryOf(w, sc, rs[i])
  {
    seq(|rs|, i requires 0 <= i < |rs| => EntryOf(w, sc, rs[i]))
  }

  function ItemsOf(w: World, sc: Scene, rs: seq<Record>): seq<Item> {
    if rs == [] then []
    else
      var r := rs[|rs| - 1];
      ItemsOf(w, sc, rs[..|rs| - 1]) + (if r.Body? && !Excluded(w, sc, r.item) then [r.item] else [])
  }

  // ----- the outcome of a scan

  datatype Witness =
    | Unrelated(source: string, path: string)
    | Scope(source: string, path: string, sessionSha: string)
    | ExcludedPin(source: string, path: string, entry: string)
    | Fingerprint(source: string, path: string, sha: string, size: nat)

  datatype Outcome = Outcome(
    items: seq<Item>, inventory: seq<Witness>, cursor: Option<Cursor>, error: Option<string>)

  function PinWitnesses(job: Job, rs: seq<Record>): seq<Witness> {
    if rs == [] then []
    else
      var r := rs[|rs| - 1];
      PinWitnesses(job, rs[..|rs| - 1])
      + (if r.Pin? then [ExcludedPin(job.binding.sourceId, job.binding.sourcePath, r.id)] else [])
  }

  function InventoryOf(w: World, job: Job, p: Parse): seq<Witness> {
    if p.session.None? then []
    else
      [Scope(job.binding.sourceId, job.binding.sourcePath, w.sessionSha(p.session.value))]
      + PinWitnesses(job, p.records)
  }

  function Accepted(p: Parse): nat {
    if p.records == [] then p.headerEnd else p.records[|p.records| - 1].end
  }

  function LastId(p: Parse): Option<string> {
    if p.records == [] then None else Some(p.records[|p.records| - 1].id)
  }

  function First4k(content: Bytes): Bytes {
    if |content| <= 4096 then content else content[..4096]
  }

  function ManifestOf(w: World, sc: Scene, job: Job, content: Bytes, p: Parse): Manifest
    requires p.session.Some?
  {
    Manifest(1, job.binding, Accepted(p), w.digest(content), p.session.value, p.headerEnd, p.headerOrdinal,
             EntriesOf(w, sc, p.records))
  }

  // The header check that follows the loop.
  function FinalError(p: Parse): Option<string> {
    if p.session.None? && p.error.None? then Some("capture_schema") else p.error
  }

  predicate Resumable(content: Bytes, p: Parse) {
    FinalError(p).None? && p.newline && Accepted(p) == |content|
  }

  function CursorOf(w: World, sc: Scene, job: Job, content: Bytes, mtime: Option<string>, p: Parse): Cursor {
    var bare := Cursor(
      w.digest(First4k(content)), job.binding.inode, job.binding.device, Accepted(p), LastId(p), |content|, mtime,
      FinalError(p).None?, w.digest(content), None, None);
    if Resumable(content, p) then
      var m := ManifestOf(w, sc, job, content, p);
      bare.(cache := Some(m), cacheSha := Some(w.manifestSha(m)))
    else bare
  }

  function Finish(w: World, sc: Scene, job: Job, content: Bytes, mtime: Option<string>, p: Parse): Outcome {
    if p.unrelated then
      Outcome([], InventoryOf(w, job, p) + [Unrelated(job.binding.sourceId, job.binding.sourcePath)], None, None)
    else
      Outcome(ItemsOf(w, sc, p.records),
              InventoryOf(w, job, p)
              + [Fingerprint(job.binding.sourceId, job.binding.sourcePath, w.digest(content), |content|)],
              Some(CursorOf(w, sc, job, content, mtime, p)),
              FinalError(p))
  }

  /** The outcome of scanning a file from its first byte, with no cache. */
  function Cold(w: World, sc: Scene, job: Job, content: Bytes, mtime: Option<string>): Outcome {
    Finish(w, sc, job, content, mtime, Run(w, sc, job, content, START))
  }

  // ----- facts about runs

  lemma LineEndInPrefix(content: Bytes, n: nat, i: nat)
    requires i < n <= |content| && content[n - 1] == NEWLINE
    ensures LineEnd(content[..n], i) == LineEnd(content, i) <= n
  {
    var e := LineEnd(content, i);
    assert e < |content[..n]| ==> content[..n][e - 1] == content[e - 1];
  }

  /** Reading a newline-terminated prefix and then going on is reading the whole. */
  lemma {:induction false} RunPrefix(w: World, sc: Scene, job: Job, content: Bytes, n: nat, p: Parse)
    requires p.offset <= n <= |content|
    requires n > 0 ==> content[n - 1] == NEWLINE
    ensures Run(w, sc, job, content, p) == Run(w, sc, job, content, Run(w, sc, job, content[..n], p))
    ensures Run(w, sc, job, content[..n], p).offset <= n
    ensures !Halted(Run(w, sc, job, content[..n], p)) ==> Run(w, sc, job, content[..n], p).offset == n
    decreases n - p.offset
  {
    if p.offset < n && !Halted(p) {
      LineEndInPrefix(content, n, p.offset);
      var e := LineEnd(content, p.offset);
      assert content[..n][p.offset..e] == content[p.offset..e];
      RunPrefix(w, sc, job, content, n, Step(w, sc, job, p, content[p.offset..e]));
    }
  }

  // ----- the shape of a run

  function ItemAt(w: World, job: Job, s: Session, r: Record, text: string, timestamp: Option<string>): Item {
    MakeItem(w, job.kind, job.binding, s, r.id, text, r.begin, r.end, timestamp, r.sha)
  }

  // One record as the loop builds it.
  ghost predicate WellMade(w: World, job: Job, s: Session, r: Record) {
    && SafeMetadata(w, r.id)
    && w.isDigest(r.sha)
    && (job.kind.Codex? ==> r.Body?)
    && (r.Body? ==> exists text, timestamp :: r.item == ItemAt(w, job, s, r, text, timestamp))
  }

  // Records follow one another without gap or overlap from the header's end.
  ghost predicate Contiguous(headerEnd: nat, rs: seq<Record>) {
    rs == [] ||
    (var before := rs[..|rs| - 1];
     && Contiguous(headerEnd, before)
     && rs[|rs| - 1].begin == EndOf(headerEnd, before) < rs[|rs| - 1].end)
  }

  function EndOf(headerEnd: nat, rs: seq<Record>): nat {
    if rs == [] then headerEnd else rs[|rs| - 1].end
  }

  ghost predicate DistinctIds(rs: seq<Record>) {
    forall i, j :: 0 <= i < j < |rs| ==> rs[i].id != rs[j].id
  }

  // The ordinal a canonical numeral stands for.
  function OrdinalOf(id: string): Option<nat> {
    var n := Decimal.ParseU64(id);
    if n.Some? && Decimal.Show(n.value) == id then n else None
  }

  /** An ordinal is the one decimal numeral of a 64-bit value. */
  lemma OrdinalMeans(id: string, n: nat)
    ensures OrdinalOf(id) == Some(n) <==> n < U64_LIMIT && id == Decimal.Show(n)
  {
    hide Decimal.ParseU64;
    Decimal.ParseShow(n);
    Decimal.ParseBounded(id);
  }

  // The last ordinal, provided all ids are canonical and rise strictly above the header's.
  function LastOrdinal(header: Option<nat>, ids: seq<string>): Option<nat> {
    if ids == [] then header
    else
      var before := LastOrdinal(header, ids[..|ids| - 1]);
      var own := OrdinalOf(ids[|ids| - 1]);
      if before.Some? && own.Some? && before.value < own.value then own else None
  }

  function IdSeq(rs: seq<Record>): (ids: seq<string>)
    ensures |ids| == |rs|
    ensures forall i :: 0 <= i < |rs| ==> ids[i] == rs[i].id
  {
    seq(|rs|, i requires 0 <= i < |rs| => rs[i].id)
  }

  ghost predicate Ordered(p: Parse) {
    p.headerOrdinal.Some? && p.ordinal.Some? && p.ordinal == LastOrdinal(p.headerOrdinal, IdSeq(p.records))
  }

  // What a run keeps between two lines.
  ghost predicate Tiled(w: World, job: Job, p: Parse) {
    if p.session.None? then p.records == []
    else
      && 0 < p.headerEnd
      && (!Halted(p) ==> Accepted(p) == p.offset)
      && TiledRecords(w, job, p.session.value, p.headerEnd, p.records)
      && (job.kind.Codex? ==> Ordered(p))
  }

  ghost predicate TiledRecords(w: World, job: Job, s: Session, headerEnd: nat, rs: seq<Record>) {
    && Contiguous(headerEnd, rs)
    && DistinctIds(rs)
    && forall r :: r in rs ==> WellMade(w, job, s, r)
  }

  lemma AddRecord(w: World, job: Job, s: Session, headerEnd: nat, rs: seq<Record>, r: Record)
    requires TiledRecords(w, job, s, headerEnd, rs) && WellMade(w, job, s, r)
    requires r.id !in Ids(rs) && r.begin == EndOf(headerEnd, rs) < r.end
    ensures TiledRecords(w, job, s, headerEnd, rs + [r])
  {
    var longer := rs + [r];
    assert longer[..|longer| - 1] == rs;
    forall i | 0 <= i < |rs| ensures rs[i].id != r.id {
      assert rs[i].id in Ids(rs);
    }
  }

  lemma AddOrdinal(header: Option<nat>, rs: seq<Record>, r: Record, n: nat)
    requires r.id == Decimal.Show(n) && n < U64_LIMIT
    requires var m := LastOrdinal(header, IdSeq(rs)); m.Some? && m.value < n
    ensures LastOrdinal(header, IdSeq(rs + [r])) == Some(n)
  {
    Decimal.ParseShow(n);
    var ids := IdSeq(rs + [r]);
    assert ids[..|ids| - 1] == IdSeq(rs);
  }

  // What one accepted record adds.
  lemma EntryAdds(w: World, job: Job, p: Parse, line: Bytes, begin: nat, record: Json)
    requires Hashes(w) && p.session.Some? && p.error.None?
    requires EntryStep(w, job, p, line, begin, record).error == p.error
    ensures var q := EntryStep(w, job, p, line, begin, record);
      && |q.records| == |p.records| + 1
      && var r := q.records[|p.records|];
      && q == p.(records := p.records + [r], ordinal := q.ordinal)
      && WellMade(w, job, p.session.value, r)
      && r.id !in Ids(p.records) && r.begin == begin && r.end == p.offset
      && (job.kind.Codex? ==>
            && q.ordinal.Some? && q.ordinal.value < U64_LIMIT && r.id == Decimal.Show(q.ordinal.value)
            && (p.ordinal.Some? ==> p.ordinal.value < q.ordinal.value))
  {
    hide KnownTypes;
    var q := EntryStep(w, job, p, line, begin, record);
    var r := q.records[|p.records|];
    if r.Body? {
      assert r.item == ItemAt(w, job, p.session.value, r, w.redactedBody(record), AsStr(Get(record, "timestamp")));
    }
  }

  lemma EntryKeepsTiled(w: World, job: Job, p: Parse, line: Bytes, begin: nat, record: Json)
    requires Hashes(w) && p.session.Some? && p.error.None?
    requires Tiled(w, job, p.(error := Some("")))
    requires begin == Accepted(p) < p.offset
    ensures Tiled(w, job, EntryStep(w, job, p, line, begin, record))
  {
    hide TiledRecords, WellMade, Hashes, LastOrdinal;
    var q := EntryStep(w, job, p, line, begin, record);
    if q.error == p.error {
      EntryAdds(w, job, p, line, begin, record);
      hide EntryStep;
      var r := q.records[|p.records|];
      AddRecord(w, job, p.session.value, p.headerEnd, p.records, r);
      if job.kind.Codex? {
        AddOrdinal(p.headerOrdinal, p.records, r, q.ordinal.value);
      }
    } else {
      EntryRejects(w, job, p, line, begin, record);
    }
  }

  lemma EntryRejects(w: World, job: Job, p: Parse, line: Bytes, begin: nat, record: Json)
    requires p.session.Some?
    requires EntryStep(w, job, p, line, begin, record).error != p.error
    ensures var q := EntryStep(w, job, p, line, begin, record); q.error.Some? && q == p.(error := q.error)
  {
    hide KnownTypes;
  }

  lemma NoRecords(w: World, job: Job, s: Session, headerEnd: nat, header: Option<nat>)
    ensures TiledRecords(w, job, s, headerEnd, []) && LastOrdinal(header, IdSeq([])) == header
  {
  }

  lemma StepKeepsTiled(w: World, sc: Scene, job: Job, p: Parse, line: Bytes)
    requires Hashes(w) && line != [] && !Halted(p)
    requires Tiled(w, job, p)
    ensures Tiled(w, job, Step(w, sc, job, p, line))
  {
    hide EntryStep, SessionOf, TiledRecords, LastOrdinal;
    var next := p.(offset := p.offset + |line|, newline := EndsLine(line));
    if p.session.Some? && w.parse(line).Some? {
      EntryKeepsTiled(w, job, next, line, p.offset, w.parse(line).value);
    }
    var q := Step(w, sc, job, p, line);
    if p.session.None? && q.session.Some? {
      assert q.records == [];
      NoRecords(w, job, q.session.value, q.headerEnd, q.headerOrdinal);
    }
  }

  lemma {:induction false} RunKeepsTiled(w: World, sc: Scene, job: Job, content: Bytes, p: Parse)
    requires Hashes(w) && Tiled(w, job, p)
    ensures Tiled(w, job, Run(w, sc, job, content, p))
    decreases |content| - p.offset
  {
    hide Tiled, Hashes, EntryStep, SessionOf;
    if p.offset < |content| && !Halted(p) {
      var line := content[p.offset..LineEnd(content, p.offset)];
      StepKeepsTiled(w, sc, job, p, line);
      StepOffset(w, sc, job, p, line);
      RunKeepsTiled(w, sc, job, content, Step(w, sc, job, p, line));
    }
  }

  // ----- scope is the only way a run depends on its scene

  /** Once the header is read, the rest of the parse does not depend on the scene. */
  lemma {:induction false} RunAfterHeader(w: World, sc: Scene, sc': Scene, job: Job, content: Bytes, p: Parse)
    requires p.session.Some?
    ensures Run(w, sc, job, content, p) == Run(w, sc', job, content, p)
    ensures Run(w, sc, job, content, p).session == p.session
    decreases |content| - p.offset
  {
    if p.offset < |content| && !Halted(p) {
      RunAfterHeader(w, sc, sc', job, content, Step(w, sc, job, p, content[p.offset..LineEnd(content, p.offset)]));
    }
  }

  // The same session data resolves to the same session in both scenes.
  ghost predicate SameScope(w: World, sc: Scene, sc': Scene, s: Session) {
    forall data ::
      SessionOf(w, sc, data) == Ok(Some(s)) ==>
        SessionOf(w, sc', data) == Ok(Some(s))
  }

  lemma HeaderSameScope(w: World, sc: Scene, sc': Scene, job: Job, p: Parse, record: Json)
    requires p.session.None? && !Halted(p)
    requires var q := HeaderStep(w, sc, job, p, record); q.session.Some? ==> SameScope(w, sc, sc', q.session.value)
    ensures var q := HeaderStep(w, sc, job, p, record); !Halted(q) ==> q == HeaderStep(w, sc', job, p, record)
  {
    hide SessionOf;
  }

  lemma StepSameScope(w: World, sc: Scene, sc': Scene, job: Job, p: Parse, line: Bytes)
    requires p.session.None? && !Halted(p)
    requires var q := Step(w, sc, job, p, line); q.session.Some? ==> SameScope(w, sc, sc', q.session.value)
    ensures var q := Step(w, sc, job, p, line); !Halted(q) ==> q == Step(w, sc', job, p, line)
  {
    hide HeaderStep, SameScope;
    if w.parse(line).Some? {
      HeaderSameScope(w, sc, sc', job, p.(offset := p.offset + |line|, newline := EndsLine(line)), w.parse(line).value);
    }
  }

  /** Two scenes that agree on the session of a file parse it alike. */
  lemma {:induction false} RunSameScope(w: World, sc: Scene, sc': Scene, job: Job, content: Bytes, p: Parse)
    requires !Halted(p) && p.session.None?
    requires var q := Run(w, sc, job, content, p); q.session.Some? && SameScope(w, sc, sc', q.session.value)
    ensures Run(w, sc, job, content, p) == Run(w, sc', job, content, p)
    decreases |content| - p.offset
  {
    if p.offset < |content| {
      hide Step, SameScope;
      var line := content[p.offset..LineEnd(content, p.offset)];
      var next := Step(w, sc, job, p, line);
      StepOffset(w, sc, job, p, line);
      if next.session.Some? {
        RunAfterHeader(w, sc, sc', job, content, next);
      } else if !Halted(next) {
        RunSameScope(w, sc, sc', job, content, next);
      }
      StepSameScope(w, sc, sc', job, p, line);
    }
  }

  // A step consumes its line, and only a line without a session header leaves the session open.
  lemma StepOffset(w: World, sc: Scene, job: Job, p: Parse, line: Bytes)
    ensures var q := Step(w, sc, job, p, line);
      q.offset == p.offset + |line| && q.newline == EndsLine(line) && (p.session.Some? ==> q.session == p.session)
          && (q.session.Some? && p.session.None? ==> !Halted(q) || Halted(p))
  {
    hide SessionOf, EntryId, MakeItem;
  }

  // One more record shows up once in each thing the scan collects.
  lemma RecordSnoc(w: World, sc: Scene, job: Job, rs: seq<Record>, r: Record)
    ensures Ids(rs + [r]) == Ids(rs) + {r.id}
    ensures EntriesOf(w, sc, rs + [r]) == EntriesOf(w, sc, rs) + [EntryOf(w, sc, r)]
    ensures ItemsOf(w, sc, rs + [r]) ==
            if r.Body? && !Excluded(w, sc, r.item) then ItemsOf(w, sc, rs) + [r.item] else ItemsOf(w, sc, rs)
    ensures PinWitnesses(job, rs + [r]) ==
            if r.Pin? then PinWitnesses(job, rs) + [ExcludedPin(job.binding.sourceId, job.binding.sourcePath, r.id)]
            else PinWitnesses(job, rs)
  {
    hide Excluded, EntryOf;
    assert (rs + [r])[..|rs|] == rs;
    assert ItemsOf(w, sc, rs) + [] == ItemsOf(w, sc, rs);
    assert PinWitnesses(job, rs) + [] == PinWitnesses(job, rs);
  }
}
