/**
 What a session file says, line by line (src/capture/jsonl.rs, src/capture.rs `session`,
 `make_item`): whose session it is, which lines become items, and why reading stops. The
 outcome of a scan is described here by the file's lines alone.
 */
module CaptureMeaning {
  import opened Wrappers
  import opened JsonValues
  import opened Tombstones
  import opened CaptureScan
  import Decimal

  // ----- lines

  predicate Line(content: Bytes, b: nat, e: nat) {
    && b < e <= |content|
    && (b == 0 || content[b - 1] == NEWLINE)
    && (forall k :: b <= k < e - 1 ==> content[k] != NEWLINE)
    && (e == |content| || content[e - 1] == NEWLINE)
  }

  // Where a line may begin.
  predicate LineStart(content: Bytes, b: nat) {
    b <= |content| && (b == 0 || b == |content| || content[b - 1] == NEWLINE)
  }

  lemma LineAt(content: Bytes, b: nat)
    requires LineStart(content, b) && b < |content|
    ensures Line(content, b, LineEnd(content, b)) && LineStart(content, LineEnd(content, b))
  {
  }

  // Lines do not overlap.
  lemma LinesApart(content: Bytes, b: nat, e: nat, c: nat)
    requires Line(content, b, e) && LineStart(content, c)
    ensures c <= b || e <= c
  {
  }

  lemma OneLine(content: Bytes, b: nat, e: nat, f: nat)
    requires Line(content, b, e) && Line(content, b, f)
    ensures e == f
  {
  }

  // ----- the header

  datatype Head = Head(begin: nat, end: nat, record: Json)

  function Data(kind: Kind, h: Head): Json {
    if kind.Omp? then h.record else Get(h.record, "payload")
  }

  predicate Opens(kind: Kind, record: Json) {
    if kind.Omp? then Get(record, "type") == Str("session") && Get(record, "version") == Num(3)
    else Get(record, "type") == Str("session_meta") && AsU64(Get(record, "ordinal")).Some?
  }

  predicate Title(w: World, line: Bytes) {
    w.parse(line).Some? && Get(w.parse(line).value, "type") == Str("title")
  }

  // Nothing but titles comes before.
  ghost predicate Titles(w: World, kind: Kind, content: Bytes, until: nat) {
    forall b: nat, e: nat :: Line(content, b, e) && e <= until ==> kind.Omp? && Title(w, content[b..e])
  }

  // The first line that is no title opens a session.
  ghost predicate IsHead(w: World, kind: Kind, content: Bytes, h: Head) {
    && Line(content, h.begin, h.end) && w.parse(content[h.begin..h.end]) == Some(h.record)
    && Opens(kind, h.record) && Titles(w, kind, content, h.begin)
  }

  // The header is valid as far as its directory, which a repository holds.
  predicate Located(w: World, sc: Scene, data: Json) {
    && Get(data, "id").Str? && Get(data, "id").s != "" && w.redactText(Get(data, "id").s) == Get(data, "id").s
    && Get(data, "cwd").Str? && !w.unsafePath(Get(data, "cwd").s) && sc.discover(Get(data, "cwd").s).Some?
  }

  predicate Foreign(w: World, sc: Scene, data: Json) {
    Located(w, sc, data) && sc.discover(Get(data, "cwd").s).value.common != sc.common
  }

  // The branch that Git says, else the one the session says.
  predicate OnBranch(data: Json, branch: string) {
    if Get(Get(data, "git"), "branch").Str? then Get(Get(data, "git"), "branch") == Str(branch)
    else if Get(data, "branch").Str? then Get(data, "branch") == Str(branch)
    else branch == "unknown"
  }

  predicate AtRevision(w: World, data: Json, branch: string, revision: Option<Json>) {
    var git := Get(data, "git");
    if !git.Obj? then revision == None
    else if Get(git, "branch").Str? then revision == Some(Obj(w.redactGit(git.o)["branch" := Str(branch)]))
    else revision == Some(Obj(w.redactGit(git.o)))
  }

  // A session of this clone, as its header describes it.
  predicate Describes(w: World, sc: Scene, data: Json, s: Session) {
    && Located(w, sc, data)
    && Get(data, "id") == Str(s.id) && Get(data, "cwd") == Str(s.cwd)
    && sc.discover(s.cwd) == Some(Repo(sc.common, s.worktree)) && !w.unsafePath(s.worktree)
    && OnBranch(data, s.branch) && s.branch != "" && !w.sensitive(s.branch)
    && AtRevision(w, data, s.branch, s.nativeRevision)
  }

  // Why a header is refused.
  ghost predicate HeadRefused(w: World, sc: Scene, data: Json, why: string) {
    if !Get(data, "id").Str? || Get(data, "id").s == "" then why == "capture_schema"
    else if w.redactText(Get(data, "id").s) != Get(data, "id").s then why == "capture_unsafe_metadata"
    else if !Get(data, "cwd").Str? then why == "capture_schema"
    else if w.unsafePath(Get(data, "cwd").s) then why == "capture_unsafe_metadata"
    else if sc.discover(Get(data, "cwd").s).None? then why == "scope_unresolved"
    else
      && sc.discover(Get(data, "cwd").s).value.common == sc.common && why == "capture_unsafe_metadata"
      && (w.unsafePath(sc.discover(Get(data, "cwd").s).value.root)
          || exists branch :: OnBranch(data, branch) && (branch == "" || w.sensitive(branch)))
  }

  /** A header is another repository's, describes a session of this one, or is refused. */
  lemma SessionMeans(w: World, sc: Scene, data: Json)
    ensures match SessionOf(w, sc, data)
            case Ok(None) => Foreign(w, sc, data)
            case Ok(Some(s)) => Describes(w, sc, data, s)
            case Err(why) => HeadRefused(w, sc, data, why)
  {
    assert OnBranch(data, BranchOf(data));
    var found := sc.discover(StrOr(Get(data, "cwd"), ""));
    if found.Some? {
      assert found.value == Repo(found.value.common, found.value.root);
    }
  }

  // ----- records

  predicate SaysId(kind: Kind, record: Json, id: string) {
    if kind.Omp? then Get(record, "id") == Str(id)
    else AsU64(Get(record, "ordinal")).Some? && id == Decimal.Show(AsU64(Get(record, "ordinal")).value)
  }

  // A record of a known type with an identity.
  predicate Shaped(kind: Kind, record: Json) {
    && Get(record, "type").Str? && Get(record, "type").s in KnownTypes(kind)
    && if kind.Omp? then Get(record, "id").Str?
       else Get(record, "payload").Obj? && AsU64(Get(record, "ordinal")).Some?
  }

  predicate PinLine(record: Json) {
    Get(record, "type") == Str("credential_pin")
  }

  // An item is one line of the file: its bytes, its digest, its redacted text, in the header's scope.
  predicate Shows(w: World, job: Job, content: Bytes, s: Session, it: Item) {
    var o := it.observation;
    && Line(content, o.begin, o.end) && w.parse(content[o.begin..o.end]).Some?
    && var record := w.parse(content[o.begin..o.end]).value;
    && Shaped(job.kind, record) && !PinLine(record)
    && o.sourceSha == w.digest(content[o.begin..o.end]) && it.payload.text == w.redactedBody(record)
    && o.worktree == s.worktree && o.branch == s.branch && o.nativeRevision == s.nativeRevision
    && o.sourcePath == job.binding.sourcePath && o.sourceRoot == job.binding.sourceRoot
    && o.recordedAt == (if Get(record, "timestamp").Str? then Some(w.redactText(Get(record, "timestamp").s)) else None)
    && Names(w, job, record, s, it)
  }

  predicate Names(w: World, job: Job, record: Json, s: Session, it: Item) {
    && s.id + "/" <= it.payload.nativeId
    && var entry := it.payload.nativeId[|s.id| + 1..];
    && SaysId(job.kind, record, entry) && entry != "" && w.redactText(entry) == entry
    && it.observation.pointer == w.pointer(job.kind, job.binding.sourcePath, entry)
    && it.sourceId == job.binding.sourceId == it.payload.kind
    && it.payload.record == Null && it.payload.nativeStatus == None && it.payload.sections == []
    && it.id == w.itemId(job.binding.projectId, job.binding.sourceId, it.payload.nativeId)
    && it.versionId == w.version(it.id, it.payload)
  }

  // Forgotten, or matched by a tombstone.
  predicate Withheld(w: World, sc: Scene, it: Item) {
    || it.id in sc.forgotten
    || exists t :: t in sc.tombstones && Matches(w.time, t.scope, it.id, it.sourceId, it.observation.recordedAt)
  }

  // What a record of the run is, by its line.
  predicate Tells(w: World, job: Job, content: Bytes, s: Session, r: Record) {
    && Line(content, r.begin, r.end) && w.parse(content[r.begin..r.end]).Some?
    && var record := w.parse(content[r.begin..r.end]).value;
    && Shaped(job.kind, record) && SaysId(job.kind, record, r.id) && r.id != "" && w.redactText(r.id) == r.id
    && (r.Pin? <==> job.kind.Omp? && PinLine(record))
    && r.sha == w.digest(content[r.begin..r.end])
    && (r.Body? ==> Shows(w, job, content, s, r.item) && r.item.observation.begin == r.begin
                    && r.item.observation.end == r.end)
  }

  // Why a line after the header is refused.
  ghost predicate Refused(w: World, kind: Kind, rs: seq<Record>, before: Option<nat>, line: Bytes, why: string) {
    if w.parse(line).None? then why == if EndsLine(line) then "capture_schema" else "incomplete_tail"
    else
      var record := w.parse(line).value;
      || (why == "capture_schema" && !Shaped(kind, record))
      || (why == "capture_schema" && NotRising(kind, record, before))
      || (why == "capture_unsafe_metadata"
          && exists id :: SaysId(kind, record, id) && (id == "" || w.redactText(id) != id))
      || (why == "capture_schema" && exists r :: r in rs && SaysId(kind, record, r.id))
  }

  // An ordinal that does not rise above the last one.
  predicate NotRising(kind: Kind, record: Json, before: Option<nat>) {
    && kind.Codex? && before.Some? && AsU64(Get(record, "ordinal")).Some?
    && AsU64(Get(record, "ordinal")).value <= before.value
  }

  lemma IdMeans(kind: Kind, record: Json, before: Option<nat>)
    ensures match EntryId(kind, record, before)
            case Ok(id) => Shaped(kind, record) && SaysId(kind, record, id)
              && (kind.Codex? ==> !PinLine(record))
              && (kind.Codex? && before.Some? ==> before.value < AsU64(Get(record, "ordinal")).value)
            case Err(why) => why == "capture_schema" && (!Shaped(kind, record) || NotRising(kind, record, before))
  {
    hide Decimal.Show;
  }

  lemma ItemMeans(w: World, job: Job, content: Bytes, s: Session, id: string, b: nat, e: nat, record: Json)
    requires Line(content, b, e) && w.parse(content[b..e]) == Some(record)
    requires Shaped(job.kind, record) && !PinLine(record) && SaysId(job.kind, record, id)
    requires id != "" && w.redactText(id) == id
    ensures var it := MakeItem(w, job.kind, job.binding, s, id, w.redactedBody(record), b, e,
                               AsStr(Get(record, "timestamp")), w.digest(content[b..e]));
      Shows(w, job, content, s, it) && it.observation.begin == b && it.observation.end == e
  {
    hide Line, Shaped, SaysId, Decimal.Show;
    assert NativeId(s, id)[|s.id| + 1..] == id;
  }

  /** A line after the header that does not stop the run is told as one record. */
  lemma EntryMeans(w: World, job: Job, content: Bytes, p: Parse, begin: nat, record: Json)
    requires p.session.Some? && p.error.None? && Line(content, begin, p.offset)
    requires w.parse(content[begin..p.offset]) == Some(record)
    ensures var q := EntryStep(w, job, p, content[begin..p.offset], begin, record);
      q.error.None? ==>
        && |q.records| == |p.records| + 1 && q.records[..|p.records|] == p.records
        && q == p.(records := q.records, ordinal := q.ordinal)
        && var r := q.records[|p.records|];
        && r.begin == begin && r.end == p.offset && Tells(w, job, content, p.session.value, r)
        && r.id !in Ids(p.records)
        && (job.kind.Codex? ==> q.ordinal == AsU64(Get(record, "ordinal")))
  {
    hide Line, Shaped, SaysId, Shows, EntryId, MakeItem, Ids;
    IdMeans(job.kind, record, p.ordinal);
    var id := EntryId(job.kind, record, p.ordinal);
    if id.Ok? && !IsPin(record) && id.value != "" && w.redactText(id.value) == id.value {
      ItemMeans(w, job, content, p.session.value, id.value, begin, p.offset, record);
    }
  }

  /** A line after the header stops the run only for a reason. */
  lemma EntryStops(w: World, job: Job, content: Bytes, p: Parse, begin: nat, record: Json)
    requires p.session.Some? && p.error.None? && Line(content, begin, p.offset)
    requires w.parse(content[begin..p.offset]) == Some(record)
    ensures var q := EntryStep(w, job, p, content[begin..p.offset], begin, record);
      q.error.Some? ==>
        && q == p.(error := q.error)
        && Refused(w, job.kind, p.records, p.ordinal, content[begin..p.offset], q.error.value)
  {
    hide Line, Shaped, SaysId, EntryId, MakeItem;
    IdMeans(job.kind, record, p.ordinal);
    var id := EntryId(job.kind, record, p.ordinal);
    hide NotRising;
    if id.Ok? && id.value in Ids(p.records) {
      var r :| r in p.records && r.id == id.value;
    }
  }

  // ----- a run between two lines

  // The ordinal said last, by a record or by the header.
  function LastSaid(w: World, content: Bytes, h: Head, rs: seq<Record>): Option<nat> {
    if rs == [] then AsU64(Get(h.record, "ordinal"))
    else
      var r := rs[|rs| - 1];
      var record := if r.begin <= r.end <= |content| then w.parse(content[r.begin..r.end]) else None;
      if record.Some? then AsU64(Get(record.value, "ordinal")) else None
  }

  // The records tell the lines from the header on, one by one.
  ghost predicate Told(w: World, job: Job, content: Bytes, s: Session, h: Head, rs: seq<Record>) {
    && Contiguous(h.end, rs) && DistinctIds(rs)
    && forall r :: r in rs ==> Tells(w, job, content, s, r)
  }

  ghost predicate Ours(w: World, sc: Scene, job: Job, content: Bytes, h: Head, s: Session) {
    IsHead(w, job.kind, content, h) && Describes(w, sc, Data(job.kind, h), s)
  }

  ghost predicate Read(w: World, sc: Scene, job: Job, content: Bytes, p: Parse, h: Head) {
    && p.session.Some? && Ours(w, sc, job, content, h, p.session.value)
    && p.headerEnd == h.end && p.headerOrdinal == AsU64(Get(h.record, "ordinal"))
    && Told(w, job, content, p.session.value, h, p.records)
    && (job.kind.Codex? ==> p.ordinal == LastSaid(w, content, h, p.records))
  }

  predicate AtLine(content: Bytes, p: Parse) {
    LineStart(content, p.offset) && (p.newline <==> p.offset > 0 && content[p.offset - 1] == NEWLINE)
  }

  ghost predicate Between(w: World, sc: Scene, job: Job, content: Bytes, p: Parse) {
    && AtLine(content, p) && !Halted(p)
    && if p.session.None? then p.records == [] && p.headerEnd == 0 && Titles(w, job.kind, content, p.offset)
       else exists h :: Read(w, sc, job, content, p, h) && EndOf(h.end, p.records) == p.offset
  }

  // Why the first line that is no title opens nothing.
  ghost predicate NotOpened(w: World, sc: Scene, kind: Kind, line: Bytes, why: string) {
    && !(kind.Omp? && Title(w, line))
    && if w.parse(line).None? then why == if EndsLine(line) then "capture_schema" else "incomplete_tail"
       else if !Opens(kind, w.parse(line).value) then why == "capture_schema"
       else HeadRefused(w, sc, Data(kind, Head(0, 0, w.parse(line).value)), why)
  }

  ghost predicate OpensNothing(w: World, sc: Scene, kind: Kind, content: Bytes, why: string) {
    || (Titles(w, kind, content, |content|) && why == "capture_schema")
    || exists b: nat, e: nat :: Line(content, b, e) && Titles(w, kind, content, b)
        && NotOpened(w, sc, kind, content[b..e], why)
  }

  ghost predicate Other(w: World, sc: Scene, job: Job, content: Bytes) {
    exists h :: IsHead(w, job.kind, content, h) && Foreign(w, sc, Data(job.kind, h))
  }

  // Where the records end, reading goes no further: at the end of the file, or at a line that is refused.
  ghost predicate Stops(w: World, job: Job, content: Bytes, h: Head, rs: seq<Record>, error: Option<string>) {
    var at := EndOf(h.end, rs);
    if error.None? then at == |content|
    else exists e: nat :: Line(content, at, e)
           && Refused(w, job.kind, rs, LastSaid(w, content, h, rs), content[at..e], error.value)
  }

  // How a run ends.
  ghost predicate Ended(w: World, sc: Scene, job: Job, content: Bytes, p: Parse) {
    && (p.error.None? && !p.unrelated ==> p.offset == |content| && AtLine(content, p))
    && if p.session.Some? then
         !p.unrelated && exists h :: Read(w, sc, job, content, p, h) && Stops(w, job, content, h, p.records, p.error)
       else
         && p.records == [] && p.headerEnd == 0
         && if p.unrelated then p.error == None && Other(w, sc, job, content)
            else OpensNothing(w, sc, job.kind, content, if p.error.Some? then p.error.value else "capture_schema")
  }

  lemma TellsBounds(w: World, job: Job, content: Bytes, s: Session, h: Head, rs: seq<Record>)
    requires Told(w, job, content, s, h, rs)
    ensures forall r :: r in rs ==> r.begin <= r.end <= |content|
  {
    hide Shaped, SaysId, Shows, Contiguous, DistinctIds;
  }

  // One more line before the header.
  lemma TitlesMore(w: World, kind: Kind, content: Bytes, b: nat, e: nat)
    requires Titles(w, kind, content, b) && Line(content, b, e) && kind.Omp? && Title(w, content[b..e])
    ensures Titles(w, kind, content, e)
  {
    forall c: nat, d: nat | Line(content, c, d) && d <= e ensures kind.Omp? && Title(w, content[c..d]) {
      if d > b {
        LinesApart(content, c, d, b);
        if c > b {
          LinesApart(content, b, e, c);
        }
        OneLine(content, b, e, d);
      }
    }
  }

  lemma HeaderMeans(w: World, sc: Scene, job: Job, content: Bytes, p: Parse, begin: nat, record: Json)
    requires begin < p.offset <= |content|
    requires Line(content, begin, p.offset) && w.parse(content[begin..p.offset]) == Some(record)
    requires p.session.None? && p.records == [] && !Halted(p) && p.headerEnd == 0 && Titles(w, job.kind, content, begin)
    ensures var q := HeaderStep(w, sc, job, p, record);
      && q == p.(session := q.session, headerEnd := q.headerEnd, headerOrdinal := q.headerOrdinal,
                 ordinal := q.ordinal, error := q.error, unrelated := q.unrelated)
      && if q.session.Some? then !Halted(q) && Read(w, sc, job, content, q, Head(begin, p.offset, record))
         else if q.unrelated then q.error == None && q.headerEnd == 0 && Other(w, sc, job, content)
         else if q.error.Some? then q.headerEnd == 0 && OpensNothing(w, sc, job.kind, content, q.error.value)
         else q == p && Titles(w, job.kind, content, p.offset)
  {
    hide SessionOf, Line, Foreign, Describes, HeadRefused, Title, Titles;
    var h := Head(begin, p.offset, record);
    SessionMeans(w, sc, Data(job.kind, h));
    TitleLine(w, content[begin..p.offset], record);
    if job.kind.Omp? && Get(record, "type") == Str("title") {
      TitlesMore(w, job.kind, content, begin, p.offset);
    } else {
      NotOpenedAnyHead(w, sc, job.kind, content[begin..p.offset], record, h);
    }
  }

  lemma TitleLine(w: World, line: Bytes, record: Json)
    requires w.parse(line) == Some(record)
    ensures Title(w, line) <==> Get(record, "type") == Str("title")
  {
  }

  lemma NotOpenedAnyHead(w: World, sc: Scene, kind: Kind, line: Bytes, record: Json, h: Head)
    requires w.parse(line) == Some(record) && h.record == record
    requires !(kind.Omp? && Title(w, line))
    ensures !Opens(kind, record) ==> NotOpened(w, sc, kind, line, "capture_schema")
    ensures forall why :: Opens(kind, record) && HeadRefused(w, sc, Data(kind, h), why) ==>
      NotOpened(w, sc, kind, line, why)
  {
    hide HeadRefused;
  }

  // A record is added behind the others.
  lemma ToldMore(w: World, job: Job, content: Bytes, s: Session, h: Head, rs: seq<Record>, more: seq<Record>)
    requires Told(w, job, content, s, h, rs) && |more| == |rs| + 1 && more[..|rs|] == rs
    requires var r := more[|rs|]; r.begin == EndOf(h.end, rs) && Tells(w, job, content, s, r) && r.id !in Ids(rs)
    ensures Told(w, job, content, s, h, more) && EndOf(h.end, more) == more[|rs|].end
  {
    hide Shaped, SaysId, Shows, Line;
    var r := more[|rs|];
    assert more == rs + [r];
    TellsForward(w, job, content, s, r);
    forall i | 0 <= i < |rs| ensures rs[i].id != r.id {
      assert rs[i].id in Ids(rs);
    }
  }

  lemma TellsForward(w: World, job: Job, content: Bytes, s: Session, r: Record)
    requires Tells(w, job, content, s, r)
    ensures r.begin < r.end <= |content|
  {
  }

  lemma EntryReads(w: World, sc: Scene, job: Job, content: Bytes, p: Parse, next: Parse, record: Json, h: Head)
    requires Read(w, sc, job, content, p, h) && EndOf(h.end, p.records) == p.offset && !Halted(p)
    requires next == p.(offset := next.offset, newline := next.newline) && p.offset < next.offset <= |content|
    requires Line(content, p.offset, next.offset) && w.parse(content[p.offset..next.offset]) == Some(record)
    ensures var q := EntryStep(w, job, next, content[p.offset..next.offset], p.offset, record);
      && !q.unrelated && q.offset == next.offset && q.newline == next.newline && q.session == p.session
      && Read(w, sc, job, content, q, h)
      && (q.error.None? ==> EndOf(h.end, q.records) == q.offset)
      && (q.error.Some? ==> Stops(w, job, content, h, q.records, q.error))
  {
    hide Line, Refused, Tells, Told, EntryStep, Ours, Ids;
    var line := content[p.offset..next.offset];
    var q := EntryStep(w, job, next, line, p.offset, record);
    EntryMeans(w, job, content, next, p.offset, record);
    EntryStops(w, job, content, next, p.offset, record);
    TellsBounds(w, job, content, p.session.value, h, p.records);
    if q.error.None? {
      ToldMore(w, job, content, p.session.value, h, p.records, q.records);
      TellsBounds(w, job, content, p.session.value, h, q.records);
      assert q.records[|q.records| - 1] == q.records[|p.records|];
    } else {
      StopsAt(w, job, content, h, p.records, p.ordinal, p.offset, next.offset, q.error.value);
    }
  }

  lemma StopsAt(w: World, job: Job, content: Bytes, h: Head, rs: seq<Record>, before: Option<nat>, b: nat, e: nat,
                why: string)
    requires b == EndOf(h.end, rs) && b < e <= |content| && Line(content, b, e)
    requires job.kind.Codex? ==> before == LastSaid(w, content, h, rs)
    requires Refused(w, job.kind, rs, before, content[b..e], why)
    ensures Stops(w, job, content, h, rs, Some(why))
  {
    hide Line, LastSaid, Shaped, SaysId;
  }

  lemma LineIsThere(content: Bytes, b: nat, e: nat)
    requires Line(content, b, e)
    ensures b < e <= |content|
    ensures EndsLine(content[b..e]) <==> content[e - 1] == NEWLINE
  {
  }

  lemma UnreadableStops(w: World, sc: Scene, job: Job, content: Bytes, p: Parse, e: nat, why: string)
    requires Between(w, sc, job, content, p) && p.offset < e <= |content| && Line(content, p.offset, e)
    requires w.parse(content[p.offset..e]) == None
    requires why == if EndsLine(content[p.offset..e]) then "capture_schema" else "incomplete_tail"
    ensures var q := p.(offset := e, newline := EndsLine(content[p.offset..e]), error := Some(why));
      Ended(w, sc, job, content, q)
  {
    hide Line, LineStart, Titles, Ours, Told;
    if p.session.Some? {
      var h :| Read(w, sc, job, content, p, h) && EndOf(h.end, p.records) == p.offset;
      TellsBounds(w, job, content, p.session.value, h, p.records);
      StopsAt(w, job, content, h, p.records, p.ordinal, p.offset, e, why);
      assert Read(w, sc, job, content, p.(offset := e, newline := EndsLine(content[p.offset..e]), error := Some(why)),
                  h);
    } else {
      assert NotOpened(w, sc, job.kind, content[p.offset..e], why);
    }
  }

  ghost predicate Goes(w: World, sc: Scene, job: Job, content: Bytes, q: Parse) {
    if Halted(q) then Ended(w, sc, job, content, q) else Between(w, sc, job, content, q)
  }

  lemma HeaderGoes(w: World, sc: Scene, job: Job, content: Bytes, p: Parse, next: Parse, record: Json)
    requires Between(w, sc, job, content, p) && p.session.None?
    requires next == p.(offset := next.offset, newline := next.newline) && p.offset < next.offset <= |content|
    requires Line(content, p.offset, next.offset) && w.parse(content[p.offset..next.offset]) == Some(record)
    requires AtLine(content, next)
    ensures Goes(w, sc, job, content, HeaderStep(w, sc, job, next, record))
  {
    hide HeaderStep, Titles, OpensNothing, Other, Line, LineStart, Ours, Told;
    HeaderMeans(w, sc, job, content, next, p.offset, record);
    var q := HeaderStep(w, sc, job, next, record);
    if q.session.Some? {
      var h := Head(p.offset, next.offset, record);
      assert Read(w, sc, job, content, q, h) && EndOf(h.end, q.records) == q.offset;
    }
  }

  lemma EntryGoes(w: World, sc: Scene, job: Job, content: Bytes, p: Parse, next: Parse, record: Json)
    requires Between(w, sc, job, content, p) && p.session.Some?
    requires next == p.(offset := next.offset, newline := next.newline) && p.offset < next.offset <= |content|
    requires Line(content, p.offset, next.offset) && w.parse(content[p.offset..next.offset]) == Some(record)
    requires AtLine(content, next)
    ensures Goes(w, sc, job, content,
                 EntryStep(w, job, next, content[p.offset..next.offset], p.offset, record))
  {
    hide EntryStep, Read, Stops, Line, LineStart;
    var h :| Read(w, sc, job, content, p, h) && EndOf(h.end, p.records) == p.offset;
    EntryReads(w, sc, job, content, p, next, record, h);
  }

  // One line is read, up to `e`.
  lemma LineGoes(w: World, sc: Scene, job: Job, content: Bytes, p: Parse, e: nat)
    requires Between(w, sc, job, content, p) && p.offset < e <= |content| && Line(content, p.offset, e)
    requires AtLine(content, p.(offset := e, newline := EndsLine(content[p.offset..e])))
    ensures Goes(w, sc, job, content, Step(w, sc, job, p, content[p.offset..e]))
  {
    hide HeaderStep, EntryStep, Between, Ended, Line, AtLine;
    NotHaltedBetween(w, sc, job, content, p);
    var line := content[p.offset..e];
    var next := p.(offset := e, newline := EndsLine(line));
    if w.parse(line).None? {
      UnreadableStops(w, sc, job, content, p, e, if EndsLine(line) then "capture_schema" else "incomplete_tail");
    } else if p.session.None? {
      HeaderGoes(w, sc, job, content, p, next, w.parse(line).value);
    } else {
      EntryGoes(w, sc, job, content, p, next, w.parse(line).value);
    }
  }

  lemma NotHaltedBetween(w: World, sc: Scene, job: Job, content: Bytes, p: Parse)
    requires Between(w, sc, job, content, p)
    ensures !Halted(p) && LineStart(content, p.offset)
  {
  }

  lemma StepMeans(w: World, sc: Scene, job: Job, content: Bytes, p: Parse)
    requires Between(w, sc, job, content, p) && p.offset < |content|
    ensures Goes(w, sc, job, content, Step(w, sc, job, p, content[p.offset..LineEnd(content, p.offset)]))
  {
    hide Step, Between, Line, LineStart, Goes;
    var e := LineEnd(content, p.offset);
    NotHaltedBetween(w, sc, job, content, p);
    LineAt(content, p.offset);
    LineIsThere(content, p.offset, e);
    LineGoes(w, sc, job, content, p, e);
  }

  /** However long the file: a run ends as its lines say. */
  lemma {:induction false} RunMeans(w: World, sc: Scene, job: Job, content: Bytes, p: Parse)
    requires Between(w, sc, job, content, p)
    ensures Ended(w, sc, job, content, Run(w, sc, job, content, p))
    decreases |content| - p.offset
  {
    hide Between, Ended, Step;
    if p.offset < |content| && !Halted(p) {
      var line := content[p.offset..LineEnd(content, p.offset)];
      StepMeans(w, sc, job, content, p);
      StepOffset(w, sc, job, p, line);
      var q := Step(w, sc, job, p, line);
      if Halted(q) {
        assert Run(w, sc, job, content, q) == q;
      } else {
        RunMeans(w, sc, job, content, q);
      }
    } else {
      BetweenEnds(w, sc, job, content, p);
    }
  }

  lemma BetweenEnds(w: World, sc: Scene, job: Job, content: Bytes, p: Parse)
    requires Between(w, sc, job, content, p) && (p.offset >= |content| || Halted(p))
    ensures Ended(w, sc, job, content, p)
  {
    hide Titles, Line, Ours, Told;
    if p.session.Some? {
      var h :| Read(w, sc, job, content, p, h) && EndOf(h.end, p.records) == p.offset;
      TellsBounds(w, job, content, p.session.value, h, p.records);
    }
  }

  // ----- the outcome

  predicate InOrder(items: seq<Item>) {
    forall i, j :: 0 <= i < j < |items| ==> items[i].observation.end <= items[j].observation.begin
  }

  lemma NothingInOrder()
    ensures InOrder([])
  {
  }

  lemma InOrderMore(items: seq<Item>, it: Item)
    requires InOrder(items) && forall x :: x in items ==> x.observation.end <= it.observation.begin
    ensures InOrder(items + [it])
  {
  }

  ghost predicate Taken(w: World, sc: Scene, rs: seq<Record>, it: Item) {
    !Withheld(w, sc, it) && exists r :: r in rs && r.Body? && r.item == it
  }

  // What is taken from the records: every line that is no pin and not withheld, in the order of the file.
  ghost predicate Takes(w: World, sc: Scene, rs: seq<Record>, items: seq<Item>) {
    && (forall it :: it in items <==> Taken(w, sc, rs, it))
    && InOrder(items)
  }

  ghost predicate Witnesses(w: World, job: Job, content: Bytes, s: Session, rs: seq<Record>, inventory: seq<Witness>) {
    && |inventory| >= 2
    && inventory[0] == Scope(job.binding.sourceId, job.binding.sourcePath, w.sessionSha(s))
    && inventory[|inventory| - 1] ==
       Fingerprint(job.binding.sourceId, job.binding.sourcePath, w.digest(content), |content|)
    && forall x :: x in inventory[1..|inventory| - 1] <==> PinOf(job, rs, x)
  }

  predicate PinOf(job: Job, rs: seq<Record>, x: Witness) {
    exists r :: r in rs && r.Pin? && x == ExcludedPin(job.binding.sourceId, job.binding.sourcePath, r.id)
  }

  // The cursor says which file it is of.
  ghost predicate Stamped(w: World, job: Job, content: Bytes, c: Cursor) {
    && c.inode == job.binding.inode && c.device == job.binding.device
    && c.size == |content| && c.inventorySha == w.digest(content)
    && c.first4k == w.digest(if |content| <= 4096 then content else content[..4096])
    && (c.cache.Some? ==> c.cacheSha == Some(w.manifestSha(c.cache.value)))
    && (c.cache.None? ==> c.cacheSha == None)
  }

  predicate EntryTells(w: World, sc: Scene, r: Record, e: Entry) {
    && e.id == r.id && e.begin == r.begin && e.end == r.end && e.sourceSha == r.sha
    && if r.Pin? then e.state == CredentialPin && e.recordedAt == None
       else
         && e.recordedAt == r.item.observation.recordedAt
         && e.state == (if Withheld(w, sc, r.item) then Tombstoned else Retained(r.item.versionId))
  }

  lemma EntryIsTold(w: World, sc: Scene, r: Record)
    ensures EntryTells(w, sc, r, EntryOf(w, sc, r))
  {
    hide Excluded, Withheld;
    if r.Body? {
      ExcludedIsWithheld(w, sc, r.item);
    }
  }

  // The manifest of a file read to its end.
  ghost predicate Keeps(w: World, sc: Scene, job: Job, content: Bytes, s: Session, h: Head, rs: seq<Record>,
                        m: Manifest) {
    && m.binding == job.binding && m.session == s && m.prefixLen == |content| && m.prefixSha == w.digest(content)
    && m.headerEnd == h.end && m.headerOrdinal == AsU64(Get(h.record, "ordinal"))
    && |m.entries| == |rs| && forall i :: 0 <= i < |rs| ==> EntryTells(w, sc, rs[i], m.entries[i])
  }

  // The cursor stands where reading stopped, and can be reused only if nothing was left over.
  ghost predicate Marks(w: World, sc: Scene, job: Job, content: Bytes, s: Session, h: Head, rs: seq<Record>,
                        error: Option<string>, c: Cursor) {
    && Stamped(w, job, content, c) && c.byteOffset == EndOf(h.end, rs)
    && c.lastId == (if rs == [] then None else Some(rs[|rs| - 1].id))
    && (c.complete <==> error.None?)
    && (c.cache.Some? <==> error.None? && EndsLine(content))
    && (c.cache.Some? ==> Keeps(w, sc, job, content, s, h, rs, c.cache.value))
  }

  // The outcome for a session of this clone.
  ghost predicate Captures(w: World, sc: Scene, job: Job, content: Bytes, h: Head, s: Session, rs: seq<Record>,
                           o: Outcome) {
    && Told(w, job, content, s, h, rs)
    && Stops(w, job, content, h, rs, o.error)
    && Takes(w, sc, rs, o.items) && Witnesses(w, job, content, s, rs, o.inventory)
    && h.end <= |content| && o.cursor.Some? && Marks(w, sc, job, content, s, h, rs, o.error, o.cursor.value)
  }

  // The outcome for a file that opens no session.
  ghost predicate CapturesNothing(w: World, sc: Scene, job: Job, content: Bytes, o: Outcome) {
    && o.items == []
    && o.inventory == [Fingerprint(job.binding.sourceId, job.binding.sourcePath, w.digest(content), |content|)]
    && o.error.Some? && OpensNothing(w, sc, job.kind, content, o.error.value)
    && o.cursor.Some? && Stamped(w, job, content, o.cursor.value)
    && o.cursor.value.byteOffset == 0 && o.cursor.value.lastId == None
    && !o.cursor.value.complete && o.cursor.value.cache == None
  }

  /** What a scan makes of a file, by the file's lines alone. */
  ghost predicate Means(w: World, sc: Scene, job: Job, content: Bytes, o: Outcome) {
    && (Unrelated(job.binding.sourceId, job.binding.sourcePath) in o.inventory <==> Other(w, sc, job, content))
    && (Other(w, sc, job, content) ==>
          o == Outcome([], [Unrelated(job.binding.sourceId, job.binding.sourcePath)], None, None))
    && (forall h, s :: Ours(w, sc, job, content, h, s) ==> exists rs :: Captures(w, sc, job, content, h, s, rs, o))
    && (!Other(w, sc, job, content) && (forall h, s :: !Ours(w, sc, job, content, h, s)) ==>
          CapturesNothing(w, sc, job, content, o))
  }

  // A file has one header.
  lemma OneHead(w: World, kind: Kind, content: Bytes, h: Head, g: Head)
    requires IsHead(w, kind, content, h) && IsHead(w, kind, content, g)
    ensures h == g
  {
    if h.begin < g.begin {
      LaterHead(w, kind, content, h, g);
    } else if g.begin < h.begin {
      LaterHead(w, kind, content, g, h);
    } else {
      OneLine(content, h.begin, h.end, g.end);
    }
  }

  lemma LaterHead(w: World, kind: Kind, content: Bytes, h: Head, g: Head)
    requires IsHead(w, kind, content, h) && h.begin < g.begin
    ensures !IsHead(w, kind, content, g)
  {
    if IsHead(w, kind, content, g) {
      LineStarts(content, g.begin, g.end);
      LinesApart(content, h.begin, h.end, g.begin);
    }
  }

  lemma LineStarts(content: Bytes, b: nat, e: nat)
    requires Line(content, b, e)
    ensures LineStart(content, b)
  {
  }

  lemma OneSession(w: World, sc: Scene, data: Json, s: Session, t: Session)
    requires Describes(w, sc, data, s) && Describes(w, sc, data, t)
    ensures s == t
  {
  }

  lemma OursIsNotOther(w: World, sc: Scene, job: Job, content: Bytes, h: Head, s: Session)
    requires Ours(w, sc, job, content, h, s)
    ensures !Other(w, sc, job, content)
  {
    hide Titles, Line;
    if Other(w, sc, job, content) {
      var g :| IsHead(w, job.kind, content, g) && Foreign(w, sc, Data(job.kind, g));
      OneHead(w, job.kind, content, h, g);
    }
  }

  lemma {:induction false} ItemsTaken(w: World, sc: Scene, job: Job, content: Bytes, s: Session, headerEnd: nat,
                                      rs: seq<Record>)
    requires Contiguous(headerEnd, rs) && forall r :: r in rs ==> Tells(w, job, content, s, r)
    ensures Takes(w, sc, rs, ItemsOf(w, sc, rs))
  {
    hide Tells, Excluded, Withheld, ItemsOf, Taken;
    TakenAll(w, sc, rs);
    TakenInOrder(w, sc, job, content, s, headerEnd, rs);
    assert forall it :: Taken(w, sc, rs, it) <==> it in ItemsOf(w, sc, rs);
  }

  lemma {:induction false} TakenAll(w: World, sc: Scene, rs: seq<Record>)
    ensures forall it :: it in ItemsOf(w, sc, rs) <==> Taken(w, sc, rs, it)
  {
    hide Excluded, Withheld;
    if rs != [] {
      var most, r := rs[..|rs| - 1], rs[|rs| - 1];
      TakenAll(w, sc, most);
      assert forall x :: x in rs <==> x in most || x == r;
      if r.Body? {
        ExcludedIsWithheld(w, sc, r.item);
      }
    }
  }

  lemma {:induction false} TakenInOrder(w: World, sc: Scene, job: Job, content: Bytes, s: Session, headerEnd: nat,
                                        rs: seq<Record>)
    requires Contiguous(headerEnd, rs) && forall r :: r in rs ==> Tells(w, job, content, s, r)
    ensures InOrder(ItemsOf(w, sc, rs))
    ensures forall it :: it in ItemsOf(w, sc, rs) ==> it.observation.end <= EndOf(headerEnd, rs)
    ensures headerEnd <= EndOf(headerEnd, rs)
  {
    hide Tells, Excluded, InOrder;
    if rs == [] {
      NothingInOrder();
    } else {
      var most, r := rs[..|rs| - 1], rs[|rs| - 1];
      assert rs == most + [r];
      TakenInOrder(w, sc, job, content, s, headerEnd, most);
      TellsPlace(w, job, content, s, r);
      if r.Body? && !Excluded(w, sc, r.item) {
        InOrderMore(ItemsOf(w, sc, most), r.item);
      } else {
        assert ItemsOf(w, sc, most) + [] == ItemsOf(w, sc, most);
      }
    }
  }

  lemma TellsPlace(w: World, job: Job, content: Bytes, s: Session, r: Record)
    requires Tells(w, job, content, s, r)
    ensures r.begin < r.end && (r.Body? ==> r.item.observation.begin == r.begin && r.item.observation.end == r.end)
  {
    hide Shows, Shaped, SaysId;
  }

  lemma ExcludedIsWithheld(w: World, sc: Scene, it: Item)
    ensures Excluded(w, sc, it) <==> Withheld(w, sc, it)
  {
  }

  lemma {:induction false} PinsWitnessed(job: Job, rs: seq<Record>)
    ensures forall x :: x in PinWitnesses(job, rs) <==> PinOf(job, rs, x)
  {
    if rs != [] {
      PinsWitnessed(job, rs[..|rs| - 1]);
      assert rs == rs[..|rs| - 1] + [rs[|rs| - 1]];
    }
  }

  lemma OursWitnessed(w: World, sc: Scene, job: Job, content: Bytes, mtime: Option<string>, p: Parse)
    requires p.session.Some? && !p.unrelated
    ensures Witnesses(w, job, content, p.session.value, p.records, Finish(w, sc, job, content, mtime, p).inventory)
  {
    hide PinWitnesses, PinOf, ItemsOf, EntriesOf, CursorOf, FinalError;
    PinsWitnessed(job, p.records);
    var o := Finish(w, sc, job, content, mtime, p);
    assert o.inventory[1..|o.inventory| - 1] == PinWitnesses(job, p.records);
  }

  lemma CursorStamped(w: World, sc: Scene, job: Job, content: Bytes, mtime: Option<string>, p: Parse)
    requires p.session.None? ==> p.records == []
    ensures Stamped(w, job, content, CursorOf(w, sc, job, content, mtime, p))
  {
    hide EntriesOf, Line;
  }

  lemma ManifestKeeps(w: World, sc: Scene, job: Job, content: Bytes, p: Parse, h: Head)
    requires p.session.Some? && p.headerEnd == h.end && p.headerOrdinal == AsU64(Get(h.record, "ordinal"))
    requires Accepted(p) == |content|
    ensures Keeps(w, sc, job, content, p.session.value, h, p.records, ManifestOf(w, sc, job, content, p))
  {
    hide EntryTells, EntryOf, Accepted;
    forall i | 0 <= i < |p.records| ensures EntryTells(w, sc, p.records[i], EntryOf(w, sc, p.records[i])) {
      EntryIsTold(w, sc, p.records[i]);
    }
  }

  lemma OursMarked(w: World, sc: Scene, job: Job, content: Bytes, mtime: Option<string>, p: Parse, h: Head)
    requires p.session.Some? && p.headerEnd == h.end && p.headerOrdinal == AsU64(Get(h.record, "ordinal"))
    requires Stops(w, job, content, h, p.records, p.error)
    requires p.error.None? ==> p.offset == |content| && AtLine(content, p)
    ensures Marks(w, sc, job, content, p.session.value, h, p.records, p.error, CursorOf(w, sc, job, content, mtime, p))
  {
    hide Refused, LastSaid, Line, Keeps, ManifestOf, Stamped;
    CursorStamped(w, sc, job, content, mtime, p);
    if Accepted(p) == |content| {
      ManifestKeeps(w, sc, job, content, p, h);
    }
  }

  lemma HeadEnds(w: World, sc: Scene, job: Job, content: Bytes, h: Head, s: Session)
    requires Ours(w, sc, job, content, h, s)
    ensures h.end <= |content|
  {
    hide Titles, Describes;
  }

  lemma CapturesOurs(w: World, sc: Scene, job: Job, content: Bytes, mtime: Option<string>, p: Parse, h: Head)
    requires p.session.Some? && !p.unrelated && Read(w, sc, job, content, p, h)
    requires Stops(w, job, content, h, p.records, p.error)
    requires p.error.None? ==> p.offset == |content| && AtLine(content, p)
    ensures Captures(w, sc, job, content, h, p.session.value, p.records, Finish(w, sc, job, content, mtime, p))
  {
    hide Tells, Stops, ItemsOf, Takes, Ours, CursorOf, Witnesses, Marks, InventoryOf, DistinctIds, Contiguous;
    HeadEnds(w, sc, job, content, h, p.session.value);
    ItemsTaken(w, sc, job, content, p.session.value, h.end, p.records);
    OursWitnessed(w, sc, job, content, mtime, p);
    OursMarked(w, sc, job, content, mtime, p, h);
  }

  lemma OursMeans(w: World, sc: Scene, job: Job, content: Bytes, h: Head, s: Session, rs: seq<Record>, o: Outcome)
    requires Ours(w, sc, job, content, h, s) && Captures(w, sc, job, content, h, s, rs, o)
    ensures Means(w, sc, job, content, o)
  {
    hide Other, Foreign, Describes, IsHead, Told, Stops, Takes, Marks, CapturesNothing;
    OursIsNotOther(w, sc, job, content, h, s);
    forall g, t | Ours(w, sc, job, content, g, t) ensures g == h && t == s {
      OneHead(w, job.kind, content, g, h);
      OneSession(w, sc, Data(job.kind, h), s, t);
    }
    NoUnrelated(w, job, content, s, rs, o.inventory);
  }

  lemma NoUnrelated(w: World, job: Job, content: Bytes, s: Session, rs: seq<Record>, inventory: seq<Witness>)
    requires Witnesses(w, job, content, s, rs, inventory)
    ensures Unrelated(job.binding.sourceId, job.binding.sourcePath) !in inventory
  {
    var x := Unrelated(job.binding.sourceId, job.binding.sourcePath);
    var middle := inventory[1..|inventory| - 1];
    assert inventory == [inventory[0]] + middle + [inventory[|inventory| - 1]];
    assert !PinOf(job, rs, x);
  }

  lemma OtherMeans(w: World, sc: Scene, job: Job, content: Bytes)
    requires Other(w, sc, job, content)
    ensures Means(w, sc, job, content,
                  Outcome([], [Unrelated(job.binding.sourceId, job.binding.sourcePath)], None, None))
  {
    hide Other, Ours, Captures, CapturesNothing;
    forall h, s | Ours(w, sc, job, content, h, s) ensures false {
      OursIsNotOther(w, sc, job, content, h, s);
    }
  }

  // A file without a header has none that opens a session, here or elsewhere.
  lemma NothingOpened(w: World, sc: Scene, job: Job, content: Bytes, why: string)
    requires OpensNothing(w, sc, job.kind, content, why)
    ensures !Other(w, sc, job, content) && forall h, s :: !Ours(w, sc, job, content, h, s)
  {
    hide Describes, Foreign, HeadRefused, Titles;
    forall h: Head | IsHead(w, job.kind, content, h)
      ensures !Foreign(w, sc, Data(job.kind, h)) && forall s :: !Describes(w, sc, Data(job.kind, h), s)
    {
      HeadIsRefused(w, sc, job.kind, content, why, h);
      RefusedIsNeither(w, sc, Data(job.kind, h), why);
    }
  }

  lemma HeadIsRefused(w: World, sc: Scene, kind: Kind, content: Bytes, why: string, h: Head)
    requires OpensNothing(w, sc, kind, content, why) && IsHead(w, kind, content, h)
    ensures HeadRefused(w, sc, Data(kind, h), why)
  {
    hide HeadRefused, Titles, Title, Opens;
    if Titles(w, kind, content, |content|) && why == "capture_schema" {
      NotATitle(w, kind, content, h, |content|);
    } else {
      var b: nat, e: nat :|
        Line(content, b, e) && Titles(w, kind, content, b) && NotOpened(w, sc, kind, content[b..e], why);
      SameLine(w, kind, content, h, b, e);
    }
  }

  // The line that opens a session is no title.
  lemma NotATitle(w: World, kind: Kind, content: Bytes, h: Head, until: nat)
    requires IsHead(w, kind, content, h) && Titles(w, kind, content, until)
    ensures until < h.end
  {
    hide Line;
  }

  // The first line that is no title is one line.
  lemma SameLine(w: World, kind: Kind, content: Bytes, h: Head, b: nat, e: nat)
    requires IsHead(w, kind, content, h)
    requires Line(content, b, e) && Titles(w, kind, content, b) && !(kind.Omp? && Title(w, content[b..e]))
    ensures b == h.begin && e == h.end
  {
    hide Title, Opens, Line;
    LineStarts(content, b, e);
    LineStarts(content, h.begin, h.end);
    NotATitle(w, kind, content, h, b);
    LinesApart(content, h.begin, h.end, b);
    LinesApart(content, b, e, h.begin);
    if b == h.begin {
      OneLine(content, b, e, h.end);
    }
  }

  lemma RefusedIsNeither(w: World, sc: Scene, data: Json, why: string)
    requires HeadRefused(w, sc, data, why)
    ensures !Foreign(w, sc, data) && forall s :: !Describes(w, sc, data, s)
  {
  }

  lemma NothingMeans(w: World, sc: Scene, job: Job, content: Bytes, mtime: Option<string>, p: Parse)
    requires Ended(w, sc, job, content, p) && p.session.None? && !p.unrelated
    ensures Means(w, sc, job, content, Finish(w, sc, job, content, mtime, p))
  {
    hide OpensNothing, Other, Ours, Captures, Read, Line, Stamped;
    CursorStamped(w, sc, job, content, mtime, p);
    NothingOpened(w, sc, job, content, if p.error.Some? then p.error.value else "capture_schema");
  }

  /** The outcome of a scan without a cache is what the lines of the file mean. */
  lemma ColdMeans(w: World, sc: Scene, job: Job, content: Bytes, mtime: Option<string>)
    ensures Means(w, sc, job, content, Cold(w, sc, job, content, mtime))
    ensures Cold(w, sc, job, content, mtime).cursor.Some? ==>
      Cold(w, sc, job, content, mtime).cursor.value.mtime == mtime
  {
    hide Run, Read, Stops, Captures, OpensNothing, Other, Means, Ours;
    StartsBetween(w, sc, job, content);
    RunMeans(w, sc, job, content, START);
    var p := Run(w, sc, job, content, START);
    if p.session.Some? {
      var h :| Read(w, sc, job, content, p, h) && Stops(w, job, content, h, p.records, p.error);
      CapturesOurs(w, sc, job, content, mtime, p, h);
      ReadIsOurs(w, sc, job, content, p, h);
      OursMeans(w, sc, job, content, h, p.session.value, p.records, Finish(w, sc, job, content, mtime, p));
    } else if p.unrelated {
      OtherMeans(w, sc, job, content);
      FinishOther(w, sc, job, content, mtime, p);
    } else {
      NothingMeans(w, sc, job, content, mtime, p);
    }
  }

  lemma FinishOther(w: World, sc: Scene, job: Job, content: Bytes, mtime: Option<string>, p: Parse)
    requires p.unrelated && p.session.None?
    ensures Finish(w, sc, job, content, mtime, p) ==
            Outcome([], [Unrelated(job.binding.sourceId, job.binding.sourcePath)], None, None)
  {
  }

  lemma ReadIsOurs(w: World, sc: Scene, job: Job, content: Bytes, p: Parse, h: Head)
    requires Read(w, sc, job, content, p, h)
    ensures Ours(w, sc, job, content, h, p.session.value)
  {
  }

  lemma StartsBetween(w: World, sc: Scene, job: Job, content: Bytes)
    ensures Between(w, sc, job, content, START)
  {
  }
}
