/** Writing a note exactly once for each retry key (src/notes.rs `write`, `backfill`, `purge_operations`). */
module NoteWriting {
  import opened Wrappers
  import opened Tombstones
  import opened Notes
  import opened Order
  import opened Percent

  datatype Request = Request(key: string, payload: Payload, origin: string)

  datatype Reply = Written(id: string, native: string, path: string) | Forgotten(id: string)

  // A note as it was found among the source files.
  datatype Authored = Authored(id: string, path: string, note: Note)

  datatype Source = Source(id: string, directory: string)

  type Redaction = Payload -> Payload

  function AuthoredBinding(a: Authored): Binding {
    Binding(a.id, a.note.payload)
  }

  function Redacted(redact: Redaction, n: Note): Note {
    n.(payload := redact(n.payload))
  }

  predicate Readable(finals: map<string, Content>, listing: seq<(string, string)>) {
    forall f :: f in listing ==> f.1 in finals && finals[f.1].Whole?
  }

  // The notes of this project among the files, in listing order.
  function Listed(redact: Redaction, project: string, finals: map<string, Content>,
                  listing: seq<(string, string)>): seq<Authored>
    requires Readable(finals, listing)
  {
    if listing == [] then []
    else
      var most := Listed(redact, project, finals, listing[..|listing| - 1]);
      var f := listing[|listing| - 1];
      assert f in listing;
      var n := finals[f.1].note;
      if n.payload.project != project then most
      else most + [Authored(ItemId(project, f.0, n.native), f.1, Redacted(redact, n))]
  }

  // First comes, first kept.
  function Chosen(notes: seq<Authored>): map<string, Authored> {
    if notes == [] then map[]
    else
      var most := Chosen(notes[..|notes| - 1]);
      var a := notes[|notes| - 1];
      if a.note.key in most then most else most[a.note.key := a]
  }

  // Keys under which the files disagree about identity or payload.
  predicate Disagree(notes: seq<Authored>, key: string) {
    exists a, b :: a in notes && b in notes && a.note.key == b.note.key == key
        && AuthoredBinding(a) != AuthoredBinding(b)
  }

  lemma {:induction false} ChosenIsListed(notes: seq<Authored>, key: string)
    ensures key in Chosen(notes) <==> exists a :: a in notes && a.note.key == key
    ensures key in Chosen(notes) ==> Chosen(notes)[key] in notes && Chosen(notes)[key].note.key == key
  {
    if notes != [] {
      var most, a := notes[..|notes| - 1], notes[|notes| - 1];
      ChosenIsListed(most, key);
      assert notes == most + [a];
    }
  }

  // The state of the authored notes of one key against the reservation and the ledger.
  predicate Clashes(d: Disk, key: string, a: Authored) {
    || (key in d.ops && (d.ops[key].native != a.note.native || BindingOf(d.ops[key]) != AuthoredBinding(a)))
    || (key in d.retired && d.retired[key] != AuthoredBinding(a))
  }

  // An authored note whose own identity is excluded or remembered as forgotten.
  predicate Dead(time: ParseTime, ts: seq<Tombstone>, d: Disk, a: Authored) {
    ExcludesId(time, ts, a.id, Some(a.note.recordedAt)) || a.id in d.forgotten
  }

  // A note found under some identity is dead, and is taken up before this key or under it.
  predicate Dooms(time: ParseTime, ts: seq<Tombstone>, hash: Naming, d: Disk, notes: map<string, Authored>,
                  conflicts: set<string>, j: string, key: string)
    requires j in notes && key in notes
  {
    && j !in conflicts && notes[j].id == notes[key].id && Dead(time, ts, d, notes[j])
    && (j == key || Below(hash(j), hash(key)))
  }

  predicate Doomed(time: ParseTime, ts: seq<Tombstone>, hash: Naming, d: Disk, notes: map<string, Authored>,
                   conflicts: set<string>, key: string)
    requires key in notes
  {
    exists j :: j in notes && Dooms(time, ts, hash, d, notes, conflicts, j, key)
  }

  function Recovered(a: Authored): Op {
    Op(a.note.native, a.note.payload, Durable, a.path, a.note, a.id)
  }

  // Files untouched, old rows kept; only keys in `done`, and none in conflict, are new.
  predicate Extends(d: Disk, d': Disk, done: set<string>, conflicts: set<string>) {
    && d'.finals == d.finals && d'.temps == d.temps && d'.links == d.links
    && (forall k :: k in d.ops ==> k in d'.ops && SameButState(d'.ops[k], d.ops[k]))
    && (forall k :: k in d.retired ==> k in d'.retired && d'.retired[k] == d.retired[k])
    && (forall k :: k in d'.ops && k !in d.ops ==> k in done && k !in conflicts)
    && (forall k :: k in d'.retired && k !in d.retired ==> k in done && k !in conflicts)
    && d.forgotten <= d'.forgotten
  }

  // What an authored note leaves behind: its binding for good, or a durable operation.
  predicate Kept(d: Disk, d': Disk, key: string, a: Authored) {
    if key in d'.retired then d'.retired[key] == AuthoredBinding(a)
    else
      && key in d'.ops
      && d'.ops[key] == if key in d.ops then d.ops[key].(state := Durable) else Recovered(a)
  }

  // One of these notes killed the identity.
  predicate KilledIn(time: ParseTime, ts: seq<Tombstone>, d: Disk, notes: map<string, Authored>, done: set<string>,
                     conflicts: set<string>, id: string) {
    exists j :: j in done && j in notes && j !in conflicts && notes[j].id == id && Dead(time, ts, d, notes[j])
  }

  // What backfilling leaves: a key is bound for good exactly if it was, or is doomed.
  ghost predicate Backfilled(time: ParseTime, ts: seq<Tombstone>, hash: Naming, d: Disk, d': Disk,
                             notes: map<string, Authored>, done: set<string>, conflicts: set<string>) {
    && Extends(d, d', done, conflicts)
    && (forall k :: k in done && k in notes && k !in conflicts ==> Kept(d, d', k, notes[k]))
    && (forall k :: k in done && k in notes && k !in conflicts ==>
          (k in d'.retired <==> k in d.retired || Doomed(time, ts, hash, d, notes, conflicts, k)))
    && (forall i :: i in d'.forgotten <==> i in d.forgotten || KilledIn(time, ts, d, notes, done, conflicts, i))
  }

  lemma BackfilledKeepsBinding(time: ParseTime, ts: seq<Tombstone>, hash: Naming, d: Disk, d': Disk,
                               notes: map<string, Authored>, conflicts: set<string>, key: string)
    requires Inv(d') && Backfilled(time, ts, hash, d, d', notes, notes.Keys, conflicts)
    ensures Bound(d, key).Some? ==> Bound(d', key) == Bound(d, key)
  {
    hide Dead, Doomed, KilledIn, Kept, Faithful, Owned;
  }

  // A final file that a retry accepts as the reserved note.
  predicate Accepted(redact: Redaction, c: Content, key: string, op: Op) {
    c.Whole? && c.note.native == op.native && redact(c.note.payload) == op.semantic && c.note.key == key
  }

  // A whole note of that name under that key, with that payload once it is redacted.
  predicate IsNote(redact: Redaction, c: Content, key: string, op: Op) {
    match c
    case Torn => false
    case Whole(Note(native, own, payload, _, _)) => (native, own, redact(payload)) == (op.native, key, op.semantic)
  }

  lemma AcceptedIsNote(redact: Redaction, c: Content, key: string, op: Op)
    ensures Accepted(redact, c, key, op) <==> IsNote(redact, c, key, op)
  {
  }

  class Notebook {
    var disk: Disk
    const project: string
    const source: Option<Source>
    const redact: Redaction
    const acceptable: Request -> bool
    const time: ParseTime
    const hash: Naming
    ghost var log: seq<Disk>
    ghost var replies: seq<Answer>

    ghost predicate Valid()
      reads this
    {
      && Run(log) && Inv(log[0]) && log[|log| - 1] == disk && Inv(disk)
      && Answered(log, replies) && Injective(hash)
    }

    // A process begins with whatever its predecessors, crashes and edits have left.
    constructor (disk: Disk, project: string, source: Option<Source>, redact: Redaction,
                 acceptable: Request -> bool, time: ParseTime, hash: Naming, ghost log: seq<Disk>,
                 ghost replies: seq<Answer>)
      requires Run(log) && Inv(log[0]) && log[|log| - 1] == disk && Answered(log, replies) && Injective(hash)
      ensures Valid() && this.disk == disk && this.log == log && this.replies == replies
      ensures this.project == project && this.source == source && this.redact == redact
      ensures this.acceptable == acceptable && this.time == time && this.hash == hash
    {
      this.disk, this.log, this.replies := disk, log, replies;
      this.project, this.source, this.redact := project, source, redact;
      this.acceptable, this.time, this.hash := acceptable, time, hash;
      RunKeepsInv(log, |log| - 1);
    }

    method Commit(next: Disk, ghost e: Event)
      requires Valid() && Does(disk, next, e)
      modifies `disk, `log
      ensures Valid() && disk == next && log == old(log) + [next]
    {
      hide Does, Inv, Bound;
      ghost var before := log;
      DoesKeepsInv(disk, next, e);
      assert Step(disk, next);
      disk := next;
      log := log + [next];
      forall i | 0 <= i < |log| - 1 ensures Step(log[i], log[i + 1]) {
        if i < |before| - 1 {
          assert Step(before[i], before[i + 1]);
        }
      }
    }

    // Binds a key for good, unless it is already bound to something else.
    method RememberForgotten(key: string, b: Binding) returns (ok: bool)
      requires Valid() && (key in disk.ops ==> BindingOf(disk.ops[key]) == b)
      modifies `disk, `log
      ensures Valid() && old(log) <= log
      ensures ok <==> !(key in old(disk.retired) && old(disk.retired)[key] != b)
      ensures !ok ==> disk == old(disk)
      ensures ok ==>
        disk == old(disk).(retired := old(disk.retired)[key := b], forgotten := old(disk.forgotten) + {b.id})
    {
      hide Answered, Run, Inv, Step;
      if key in disk.retired && disk.retired[key] != b {
        return false;
      }
      Commit(disk.(retired := disk.retired[key := b], forgotten := disk.forgotten + {b.id}), Retire(key, b));
      return true;
    }

    method SetState(key: string, state: State)
      requires Valid() && key in disk.ops
      modifies `disk, `log
      ensures Valid() && log == old(log) + [disk]
      ensures disk == SetOp(old(disk), key, old(disk).ops[key].(state := state))
    {
      hide Answered, Run, Inv, Step;
      Commit(SetOp(disk, key, disk.ops[key].(state := state)), Mark(key, state));
    }

    method RemoveTemp(path: string)
      requires Valid()
      modifies `disk, `log
      ensures Valid() && log == old(log) + [disk]
      ensures disk == old(disk).(temps := old(disk).temps - {path})
    {
      hide Answered, Run, Inv, Step;
      Commit(disk.(temps := disk.temps - {path}), Unlink(path));
    }

    /** The authored notes by retry key, and the keys on which the files disagree. */
    method ReadNotes(listing: seq<(string, string)>) returns (r: Result<(map<string, Authored>, set<string>), string>)
      ensures r.Ok? <==> Readable(disk.finals, listing)
      ensures r.Err? ==> r.error == "invalid_note"
      ensures r.Ok? ==> Sifted(Listed(redact, project, disk.finals, listing), r.value.0, r.value.1)
    {
      hide ItemId, Listed, Sifted;
      var notes: map<string, Authored>, conflicts: set<string> := map[], {};
      SiftedNone(redact, project, disk.finals);
      assert listing[..0] == [];
      for i := 0 to |listing|
        invariant Readable(disk.finals, listing[..i])
        invariant Sifted(Listed(redact, project, disk.finals, listing[..i]), notes, conflicts)
      {
        var f := listing[i];
        assert listing[..i + 1] == listing[..i] + [f];
        if f.1 !in disk.finals || !disk.finals[f.1].Whole? {
          assert f in listing;
          return Err("invalid_note");
        }
        var n := disk.finals[f.1].note;
        ListedSnoc(redact, project, disk.finals, listing[..i], f);
        if n.payload.project == project {
          var a := Authored(ItemId(project, f.0, n.native), f.1, Redacted(redact, n));
          ghost var before := Listed(redact, project, disk.finals, listing[..i]);
          notes, conflicts := TakeNote(notes, conflicts, a, before);
        }
      }
      assert listing[..|listing|] == listing;
      return Ok((notes, conflicts));
    }

    // The first note of a key is kept; a later one that says otherwise makes a conflict.
    method TakeNote(notes: map<string, Authored>, conflicts: set<string>, a: Authored, ghost before: seq<Authored>)
      returns (notes': map<string, Authored>, conflicts': set<string>)
      requires Sifted(before, notes, conflicts)
      ensures Sifted(before + [a], notes', conflicts')
    {
      hide Disagree;
      var key := a.note.key;
      DisagreeSnoc(before, a);
      ChosenIsListed(before, key);
      assert (before + [a])[..|before|] == before;
      notes', conflicts' := notes, conflicts;
      if key in notes {
        if AuthoredBinding(notes[key]) != AuthoredBinding(a) {
          conflicts' := conflicts + {key};
        }
      } else {
        notes' := notes[key := a];
      }
    }

    /** Recovers reservations from the authored notes; a key in conflict is left alone and reported. */
    method Backfill(ts: seq<Tombstone>, listing: seq<(string, string)>) returns (r: Result<set<string>, string>)
      requires Valid()
      modifies `disk, `log
      ensures Valid() && old(log) <= log
      ensures r.Ok? <==> Readable(old(disk).finals, listing)
      ensures r.Err? ==> r.error == "invalid_note" && disk == old(disk)
      ensures r.Ok? ==>
        var found := Listed(redact, project, old(disk).finals, listing);
        var notes := Chosen(found);
        && Backfilled(time, ts, hash, old(disk), disk, notes, notes.Keys, r.value)
        && (forall k :: k in r.value <==> Disagree(found, k) || (k in notes && Clashes(old(disk), k, notes[k])))
    {
      hide Answered, Run, Inv, Step, Does, Sifted, Disagree, Clashes, Listed, Chosen, Readable, Backfilled;
      var read := ReadNotes(listing);
      if read.Err? {
        return Err(read.error);
      }
      ghost var found := Listed(redact, project, disk.finals, listing);
      ChosenKeys(found);
      SiftedMeans(found, read.value.0, read.value.1);
      var conflicts := Settle(ts, read.value.0, read.value.1);
      return Ok(conflicts);
    }

    method Settle(ts: seq<Tombstone>, notes: map<string, Authored>, disagreeing: set<string>)
      returns (conflicts: set<string>)
      requires Valid() && forall k :: k in notes ==> notes[k].note.key == k
      modifies `disk, `log
      ensures Valid() && old(log) <= log
      ensures Backfilled(time, ts, hash, old(disk), disk, notes, notes.Keys, conflicts)
      ensures conflicts == disagreeing + set k | k in notes && Clashes(old(disk), k, notes[k])
    {
      hide Answered, Run, Inv, Step, Does, Backfilled, Clashes, ExcludesId, Injective, LeastBy, Precede;
      ghost var before := disk;
      conflicts := disagreeing;
      var todo := notes.Keys;
      BackfilledNone(time, ts, hash, disk, notes, conflicts);
      PrecedeNone(hash, todo);
      assert notes.Keys - todo == {};
      while todo != {}
        invariant todo <= notes.Keys && Valid() && old(log) <= log
        invariant Precede(hash, notes.Keys - todo, todo)
        invariant Backfilled(time, ts, hash, before, disk, notes, notes.Keys - todo, conflicts)
        invariant conflicts == disagreeing + set k | k in notes.Keys - todo && Clashes(before, k, notes[k])
        decreases todo
      {
        var key := TakeLeastBy(hash, todo);
        LeastIsThere(hash, key, todo);
        var a := notes[key];
        ghost var middle, was, done := disk, conflicts, notes.Keys - todo;
        ClashesEarly(time, ts, hash, before, disk, notes, done, conflicts, key);
        if Clashes(disk, key, a) {
          conflicts := conflicts + {key};
        }
        if key !in conflicts {
          AdoptOne(ts, key, a);
        }
        assert notes.Keys - done == todo;
        SettleOneMore(time, ts, hash, before, middle, disk, notes, done, was, conflicts, key);
        PrecedeMore(hash, done, todo, key);
        assert notes.Keys - (todo - {key}) == done + {key};
        todo := todo - {key};
      }
      assert notes.Keys - todo == notes.Keys;
    }

    method AdoptOne(ts: seq<Tombstone>, key: string, a: Authored)
      requires Valid() && a.note.key == key && !Clashes(disk, key, a)
      modifies `disk, `log
      ensures Valid() && old(log) <= log
      ensures AdoptedOne(time, ts, old(disk), disk, key, a)
    {
      hide Answered, Run, Inv, Step, ExcludesId;
      RetiredIsForgotten(disk, key);
      if Dead(time, ts, disk, a) || key in disk.retired {
        var _ := RememberForgotten(key, AuthoredBinding(a));
      } else if key in disk.ops {
        SetState(key, Durable);
      } else {
        Commit(SetOp(disk, key, Recovered(a)), Adopt(key, Recovered(a)));
      }
    }

    /**
     Puts the reserved note in place. Whatever an interrupted attempt left behind,
     the outcome is exact: it fails only when another file has the name.
     */
    method PublishFile(key: string) returns (r: Result<(), string>)
      requires Valid() && key in disk.ops && key !in disk.retired
      modifies `disk, `log
      ensures Valid() && old(log) <= log
      ensures r.Ok? <==>
        old(disk).ops[key].path !in old(disk).finals
        || IsNote(redact, old(disk).finals[old(disk).ops[key].path], key, old(disk).ops[key])
      ensures r.Ok? ==> disk == Published(old(disk), key)
      ensures r.Err? ==> disk == old(disk)
      ensures r.Err? ==>
        r.error == if disk.finals[disk.ops[key].path] == Torn then "invalid_note" else "idempotency_conflict"
    {
      hide Answered, Run, Inv, Step, Does, Accepted, IsNote;
      var op := disk.ops[key];
      var path := op.path;
      if path in disk.finals {
        AcceptedIsNote(redact, disk.finals[path], key, op);
        if !Accepted(redact, disk.finals[path], key, op) {
          return Err(if disk.finals[path].Torn? then "invalid_note" else "idempotency_conflict");
        }
        if path in disk.temps {
          RemoveTemp(path);
        }
      } else {
        FillTemp(key);
        LinkFinal(key);
        RemoveTemp(path);
      }
      SetState(key, Durable);
      PublishedShape(old(disk), disk, key);
      return Ok(());
    }

    // A temporary file is reused only if it holds the whole reserved note.
    method FillTemp(key: string)
      requires Valid() && key in disk.ops
      modifies `disk, `log
      ensures Valid() && old(log) <= log
      ensures key in disk.ops && SameButState(disk.ops[key], old(disk).ops[key])
      ensures disk == old(disk).(ops := old(disk).ops[key := disk.ops[key]],
                                 temps := old(disk).temps[old(disk).ops[key].path := Whole(old(disk).ops[key].note)])
      ensures disk.temps != old(disk).temps ==> disk.ops[key].state == Writing
    {
      hide Answered, Run, Inv, Step;
      var op := disk.ops[key];
      assert disk.ops[key := op] == disk.ops;
      if op.path in disk.temps && disk.temps[op.path] != Whole(op.note) {
        RemoveTemp(op.path);
      }
      if op.path !in disk.temps {
        SetState(key, Writing);
        Commit(disk.(temps := disk.temps[op.path := Torn]), Create(key));
        Commit(disk.(temps := disk.temps[op.path := Whole(op.note)]), Fill(key));
      }
      assert disk.temps == old(disk).temps[op.path := Whole(op.note)];
      assert disk.ops == old(disk).ops[key := disk.ops[key]];
    }

    method LinkFinal(key: string)
      requires Valid() && key in disk.ops && key !in disk.retired && disk.ops[key].path !in disk.finals
      requires disk.ops[key].path in disk.temps && disk.temps[disk.ops[key].path] == Whole(disk.ops[key].note)
      modifies `disk, `log
      ensures Valid() && log == old(log) + [disk]
      ensures var op := old(disk).ops[key];
              disk == old(disk).(finals := old(disk).finals[op.path := Whole(op.note)],
                                 links := old(disk).links + {(op.path, key)})
    {
      hide Answered, Run, Inv, Step;
      var path := disk.ops[key].path;
      Commit(disk.(finals := disk.finals[path := disk.temps[path]], links := disk.links + {(path, key)}), Link(key));
    }

    method ReserveOp(key: string, op: Op)
      requires Valid() && Bound(disk, key) == None && Faithful(key, op) && op.state == Reserved
      modifies `disk, `log
      ensures Valid() && log == old(log) + [disk] && disk == SetOp(old(disk), key, op)
    {
      hide Answered, Run, Inv, Step;
      Commit(SetOp(disk, key, op), Reserve(key, op));
    }

    method DropOps(keys: set<string>)
      requires Valid() && keys <= disk.retired.Keys
      requires forall k :: k in keys && k in disk.ops ==> disk.ops[k].path !in disk.temps
      modifies `disk, `log
      ensures Valid() && log == old(log) + [disk] && disk == old(disk).(ops := old(disk).ops - keys)
    {
      hide Answered, Run, Inv, Step;
      Commit(disk.(ops := disk.ops - keys), Drop(keys));
    }

    /** The attempt itself, once the authored notes are accounted for. */
    method Attempt(ts: seq<Tombstone>, req: Request, native: string, now: string) returns (r: Result<Reply, string>)
      requires Valid() && source.Some?
      modifies `disk, `log
      ensures Valid() && old(log) <= log
      ensures r.Ok? <==>
        Succeeds(redact, time, ts, old(disk), Target(old(disk), redact, project, source.value, req, native, now), req)
      ensures r.Ok? ==>
        Replied(redact, time, ts, old(disk), disk, Target(old(disk), redact, project, source.value, req, native, now),
                req, r.value)
      ensures r.Ok? ==> Bound(disk, req.key) == Some(Binding(r.value.id, redact(req.payload)))
      ensures Bound(old(disk), req.key).Some? ==> Bound(disk, req.key) == Bound(old(disk), req.key)
      ensures r.Err? && Bound(old(disk), req.key).Some? ==> disk == old(disk)
      ensures r.Err? ==>
        disk.finals == old(disk).finals && disk.temps == old(disk).temps && disk.links == old(disk).links
      ensures r.Err? ==>
        r.error == "idempotency_conflict" || (r.error == "invalid_note" && Torn in old(disk).finals.Values)
    {
      hide Answered, Run, Inv, Step, Does, ExcludesId, IsNote, ItemId;
      var key := req.key;
      var semantic := redact(req.payload);
      if key in disk.retired {
        if disk.retired[key].semantic != semantic {
          return Err("idempotency_conflict");
        }
        return Ok(Forgotten(disk.retired[key].id));
      }
      if key in disk.ops && disk.ops[key].semantic != semantic {
        return Err("idempotency_conflict");
      }
      var op := Target(disk, redact, project, source.value, req, native, now);
      if ExcludesId(time, ts, op.id, Some(op.note.recordedAt)) {
        var _ := RememberForgotten(key, Binding(op.id, semantic));
        return Ok(Forgotten(op.id));
      }
      if key !in disk.ops {
        ReserveOp(key, op);
      }
      assert disk.ops == old(disk).ops[key := op];
      var published := PublishFile(key);
      if published.Err? {
        return Err(published.error);
      }
      return Ok(Written(op.id, op.native, op.path));
    }

    ghost method Answers(key: string, id: string, semantic: Payload)
      requires Valid() && Bound(disk, key) == Some(Binding(id, semantic))
      modifies `replies
      ensures Valid() && |log| > 0 && replies == old(replies) + [Answer(|log| - 1, key, id, semantic)]
    {
      hide Inv, Step, Bound;
      replies := replies + [Answer(|log| - 1, key, id, semantic)];
    }

    /**
     Writing a note, which succeeds exactly when `Admits` says so. A reply names the
     identity the key is bound to for good; a different payload under a used key changes
     nothing; an existing file is never replaced, and a failed attempt publishes none.
     */
    method Write(ts: seq<Tombstone>, listing: seq<(string, string)>, req: Request, native: string, now: string)
      returns (r: Result<Reply, string>)
      requires Valid()
      modifies this
      ensures Valid() && old(log) <= log
      ensures replies == old(replies)
        + if r.Ok? then [Answer(|log| - 1, req.key, r.value.id, redact(req.payload))] else []
      ensures Bound(old(disk), req.key).Some? ==> Bound(disk, req.key) == Bound(old(disk), req.key)
      ensures Bound(old(disk), req.key).Some? && Bound(old(disk), req.key).value.semantic != redact(req.payload) ==>
        r.Err? && Untouched(old(disk), disk, req.key)
      ensures r.Ok? && r.value.Written? ==> InPlace(redact, old(disk), disk, req.key, r.value)
      ensures r.Ok? && r.value.Written? && source.Some? ==>
        NamesNote(Where(redact, time, ts, hash, project, source.value, old(disk), listing, req, native, now), disk,
                  r.value)
      ensures !(r.Ok? && r.value.Written?) ==> disk.finals == old(disk).finals && disk.links == old(disk).links
      ensures !(acceptable(req) && source.Some?) ==> r == Err("invalid_note")
      ensures r.Err? && acceptable(req) && source.Some? ==>
        if !Readable(old(disk).finals, listing) then r.error == "invalid_note"
        else r.error == "idempotency_conflict" || (r.error == "invalid_note" && Torn in old(disk).finals.Values)
      ensures acceptable(req) && source.Some? ==>
        var where := Where(redact, time, ts, hash, project, source.value, old(disk), listing, req, native, now);
        && (r.Ok? <==> Admits(where))
        && (r.Ok? && r.value.Forgotten? ==> Condemned(where, r.value.id))
    {
      hide Answered, Run, Inv, Step, Does, Target, Succeeds, Replied, Bound, Untouched, InPlace, Listed, Chosen,
           Backfilled;
      hide Disagree, Clashes, Admits, Condemned, Ready, After, NotesAt, ConflictsAt, Injective, NamesNote;
      if !acceptable(req) || source.None? {
        UntouchedSelf(disk, req.key);
        return Err("invalid_note");
      }
      ghost var where := Where(redact, time, ts, hash, project, source.value, disk, listing, req, native, now);
      var conflicts := Backfill(ts, listing);
      ReadyMeans(where);
      if conflicts.Err? {
        UntouchedSelf(disk, req.key);
        return Err(conflicts.error);
      }
      ghost var middle := disk;
      ghost var notes := NotesAt(where);
      ConflictsMean(where, conflicts.value);
      BackfilledKeepsBinding(time, ts, hash, old(disk), disk, notes, conflicts.value, req.key);
      BackfilledUntouched(time, ts, hash, old(disk), disk, notes, conflicts.value, req.key);
      if req.key in conflicts.value {
        return Err("idempotency_conflict");
      }
      BackfilledAfter(where, middle, conflicts.value);
      AdmitsMeans(where, middle);
      MismatchFails(where, middle);
      r := Attempt(ts, req, native, now);
      if r.Ok? {
        RepliedInPlace(where, middle, disk, r.value);
        CondemnedMeans(where, middle, disk, r.value);
        ReplyNamesNote(where, middle, disk, r.value);
        Answers(req.key, r.value.id, redact(req.payload));
      }
    }

    /**
     The purge of one index's operations: keys are bound and temporary files gone
     before the reservations are; the note files stay. No conflict can stop it,
     because a retired key and its operation agree in every reachable state.
     */
    method PurgeOperations(ts: seq<Tombstone>, forgotten: set<string>) returns (keys: set<string>)
      requires Valid()
      modifies `disk, `log
      ensures Valid() && old(log) <= log
      ensures disk.finals == old(disk).finals && disk.links == old(disk).links
      ensures keys == MatchingKeys(time, ts, forgotten, old(disk))
      ensures OperationsPurged(old(disk), disk, keys)
    {
      hide Answered, Run, Inv, Step, Does, MatchingKeys;
      ghost var before := disk;
      keys := MatchingKeys(time, ts, forgotten, disk);
      MatchingKeysAreOps(time, ts, forgotten, disk);
      var left := keys;
      PurgingNone(disk);
      assert keys - left == {};
      while left != {}
        invariant left <= keys && Valid() && old(log) <= log
        invariant Purging(before, disk, keys - left)
        decreases left
      {
        var key :| key in left;
        var op := disk.ops[key];
        ghost var middle := disk;
        RetiredAgrees(disk, key);
        var ok := RememberForgotten(key, BindingOf(op));
        assert ok;
        RemoveTemp(op.path);
        PurgingOneMore(before, middle, disk, keys - left, key);
        assert keys - (left - {key}) == keys - left + {key};
        left := left - {key};
      }
      assert keys - left == keys;
      DropOps(keys);
    }
  }

  lemma ListedSnoc(redact: Redaction, project: string, finals: map<string, Content>, listing: seq<(string, string)>,
                   f: (string, string))
    requires Readable(finals, listing) && f.1 in finals && finals[f.1].Whole?
    ensures Readable(finals, listing + [f])
    ensures finals[f.1].note.payload.project != project ==>
      Listed(redact, project, finals, listing + [f]) == Listed(redact, project, finals, listing)
    ensures finals[f.1].note.payload.project == project ==>
      Listed(redact, project, finals, listing + [f]) == Listed(redact, project, finals, listing)
        + [Authored(ItemId(project, f.0, finals[f.1].note.native), f.1, Redacted(redact, finals[f.1].note))]
  {
    assert (listing + [f])[..|listing|] == listing;
  }

  // Comparing with the first note of a key finds every disagreement.
  lemma DisagreeSnoc(notes: seq<Authored>, a: Authored)
    ensures forall k :: k != a.note.key ==> (Disagree(notes + [a], k) <==> Disagree(notes, k))
    ensures a.note.key !in Chosen(notes) ==> !Disagree(notes + [a], a.note.key) && !Disagree(notes, a.note.key)
    ensures a.note.key in Chosen(notes) ==>
      (Disagree(notes + [a], a.note.key) <==>
       Disagree(notes, a.note.key) || AuthoredBinding(Chosen(notes)[a.note.key]) != AuthoredBinding(a))
  {
    var key := a.note.key;
    ChosenIsListed(notes, key);
    forall k | Disagree(notes, k) ensures Disagree(notes + [a], k) {
      var x, y :| x in notes && y in notes && x.note.key == y.note.key == k && AuthoredBinding(x) != AuthoredBinding(y);
      assert x in notes + [a] && y in notes + [a];
    }
    if key in Chosen(notes) && AuthoredBinding(Chosen(notes)[key]) != AuthoredBinding(a) {
      assert Chosen(notes)[key] in notes + [a] && a in notes + [a];
    }
  }

  lemma ChosenKeys(notes: seq<Authored>)
    ensures forall k :: k in Chosen(notes) ==> Chosen(notes)[k].note.key == k
    ensures forall k :: Disagree(notes, k) ==> k in Chosen(notes)
  {
    forall k
      ensures (k in Chosen(notes) ==> Chosen(notes)[k].note.key == k) && (Disagree(notes, k) ==> k in Chosen(notes)) {
      ChosenIsListed(notes, k);
    }
  }

  // The notes by key and the keys in conflict, as one pass over the files leaves them.
  ghost predicate Sifted(found: seq<Authored>, notes: map<string, Authored>, conflicts: set<string>) {
    notes == Chosen(found) && forall k :: k in conflicts <==> Disagree(found, k)
  }

  lemma SiftedNone(redact: Redaction, project: string, finals: map<string, Content>)
    ensures Sifted(Listed(redact, project, finals, []), map[], {})
  {
  }

  lemma SiftedMeans(found: seq<Authored>, notes: map<string, Authored>, conflicts: set<string>)
    requires Sifted(found, notes, conflicts)
    ensures notes == Chosen(found) && forall k :: k in conflicts <==> Disagree(found, k)
  {
  }

  // Every key taken up comes before every key still to come.
  ghost predicate Precede(hash: Naming, done: set<string>, todo: set<string>) {
    forall j, k :: j in done && k in todo ==> Below(hash(j), hash(k))
  }

  lemma PrecedeNone(hash: Naming, todo: set<string>)
    ensures Precede(hash, {}, todo)
  {
  }

  lemma LeastIsThere(hash: Naming, key: string, todo: set<string>)
    requires LeastBy(hash, key, todo)
    ensures key in todo
  {
  }

  lemma PrecedeMore(hash: Naming, done: set<string>, todo: set<string>, key: string)
    requires Precede(hash, done, todo) && LeastBy(hash, key, todo)
    ensures Precede(hash, done + {key}, todo - {key})
  {
    hide Below;
  }

  // Of the keys there are, those taken up are the ones below.
  lemma DoneIsBelow(hash: Naming, done: set<string>, todo: set<string>, key: string, j: string)
    requires Precede(hash, done, todo) && LeastBy(hash, key, todo) && (j in done || j in todo)
    ensures j in done <==> j != key && Below(hash(j), hash(key))
  {
    hide Below;
    BelowIrreflexive(hash(key));
    if j != key && j in todo && Below(hash(j), hash(key)) {
      BelowTransitive(hash(key), hash(j), hash(key));
    }
  }

  // One key settled: nothing else moves, and the key is bound to what the file says.
  ghost predicate AdoptedOne(time: ParseTime, ts: seq<Tombstone>, d: Disk, d': Disk, key: string, a: Authored) {
    && Extends(d, d', {key}, {})
    && Kept(d, d', key, a)
    && (forall k :: k != key && k in d.ops ==> d'.ops[k] == d.ops[k])
    && (key in d'.retired <==> key in d.retired || Dead(time, ts, d, a))
    && d'.forgotten == d.forgotten + (if Dead(time, ts, d, a) then {a.id} else {})
  }

  lemma RetiredIsForgotten(d: Disk, key: string)
    requires Inv(d)
    ensures key in d.retired ==> d.retired[key].id in d.forgotten
  {
    hide Owned, Faithful;
  }

  lemma BackfilledNone(time: ParseTime, ts: seq<Tombstone>, hash: Naming, d: Disk, notes: map<string, Authored>,
                       conflicts: set<string>)
    ensures Backfilled(time, ts, hash, d, d, notes, notes.Keys - notes.Keys, conflicts)
  {
  }

  // A key not reached yet looks as it did at the start.
  lemma ClashesEarly(time: ParseTime, ts: seq<Tombstone>, hash: Naming, d: Disk, d': Disk, notes: map<string, Authored>,
                     done: set<string>, conflicts: set<string>, key: string)
    requires Backfilled(time, ts, hash, d, d', notes, done, conflicts) && key !in done && key in notes
    ensures Clashes(d', key, notes[key]) <==> Clashes(d, key, notes[key])
  {
    hide Dead, Doomed, KilledIn, Kept;
  }

  lemma SettleOneMore(time: ParseTime, ts: seq<Tombstone>, hash: Naming, d: Disk, d1: Disk, d2: Disk,
                      notes: map<string, Authored>, done: set<string>, was: set<string>, conflicts: set<string>,
                      key: string)
    requires key in notes && key !in done && done <= notes.Keys
    requires Precede(hash, done, notes.Keys - done) && LeastBy(hash, key, notes.Keys - done)
    requires Backfilled(time, ts, hash, d, d1, notes, done, was) && (conflicts == was || conflicts == was + {key})
    requires if key in conflicts then d2 == d1 else AdoptedOne(time, ts, d1, d2, key, notes[key])
    ensures Backfilled(time, ts, hash, d, d2, notes, done + {key}, conflicts)
  {
    hide Extends, Kept, Doomed, KilledIn, Dead, AdoptedOne, Precede, LeastBy;
    forall k | k in done + {key} && k !in conflicts
      ensures Kept(d, d2, k, notes[k])
      ensures k in d2.retired <==> k in d.retired || Doomed(time, ts, hash, d, notes, conflicts, k)
    {
      if k != key {
        if key !in conflicts {
          OthersKept(time, ts, d, d1, d2, k, notes[k], key, notes[key]);
        }
        DoneIsBelow(hash, done, notes.Keys - done, key, k);
        DoomedEarly(time, ts, hash, d, notes, was, conflicts, k, key);
      } else {
        AdoptedKept(time, ts, d, d1, d2, done, was, key, notes[key]);
        DeadIsDoomed(time, ts, hash, d, d1, notes, done, conflicts, key);
        AdoptedRetires(time, ts, d, d1, d2, done, was, key, notes[key]);
      }
    }
    forall i ensures i in d2.forgotten <==>
      i in d.forgotten || KilledIn(time, ts, d, notes, done + {key}, conflicts, i) {
      AdoptedKills(time, ts, d, d1, d2, notes, done, was, conflicts, key, i);
    }
    AdoptedExtends(time, ts, d, d1, d2, done, was, conflicts, key, notes[key]);
  }

  // A key that comes later dooms no key before it, in conflict or not.
  lemma DoomedEarly(time: ParseTime, ts: seq<Tombstone>, hash: Naming, d: Disk, notes: map<string, Authored>,
                    was: set<string>, conflicts: set<string>, k: string, key: string)
    requires k in notes && key in notes && k != key && (conflicts == was || conflicts == was + {key})
    requires Below(hash(k), hash(key))
    ensures Doomed(time, ts, hash, d, notes, conflicts, k) <==> Doomed(time, ts, hash, d, notes, was, k)
  {
    hide Below, Dead;
    if Below(hash(key), hash(k)) {
      BelowTransitive(hash(k), hash(key), hash(k));
      BelowIrreflexive(hash(k));
    }
    forall j | j in notes
      ensures Dooms(time, ts, hash, d, notes, conflicts, j, k) <==> Dooms(time, ts, hash, d, notes, was, j, k)
    {
    }
  }

  // At its turn a note is dead exactly if the key is doomed.
  lemma DeadIsDoomed(time: ParseTime, ts: seq<Tombstone>, hash: Naming, d: Disk, d1: Disk, notes: map<string, Authored>,
                     done: set<string>, conflicts: set<string>, key: string)
    requires key in notes && key !in done && key !in conflicts && done <= notes.Keys
    requires Precede(hash, done, notes.Keys - done) && LeastBy(hash, key, notes.Keys - done)
    requires forall i :: i in d1.forgotten <==> i in d.forgotten || KilledIn(time, ts, d, notes, done, conflicts, i)
    ensures Dead(time, ts, d1, notes[key]) <==> Doomed(time, ts, hash, d, notes, conflicts, key)
  {
    hide Below, ExcludesId, Precede, LeastBy;
    forall j | j in notes ensures j in done <==> j != key && Below(hash(j), hash(key)) {
      DoneIsBelow(hash, done, notes.Keys - done, key, j);
    }
    var id := notes[key].id;
    if KilledIn(time, ts, d, notes, done, conflicts, id) {
      var j :| j in done && j in notes && j !in conflicts && notes[j].id == id && Dead(time, ts, d, notes[j]);
      assert Dooms(time, ts, hash, d, notes, conflicts, j, key);
    }
    if Dead(time, ts, d, notes[key]) {
      assert Dooms(time, ts, hash, d, notes, conflicts, key, key);
    }
  }

  lemma AdoptedRetires(time: ParseTime, ts: seq<Tombstone>, d: Disk, d1: Disk, d2: Disk, done: set<string>,
                       was: set<string>, key: string, a: Authored)
    requires Extends(d, d1, done, was) && key !in done && AdoptedOne(time, ts, d1, d2, key, a)
    ensures key in d2.retired <==> key in d.retired || Dead(time, ts, d1, a)
  {
    hide Kept, Dead;
  }

  lemma AdoptedExtends(time: ParseTime, ts: seq<Tombstone>, d: Disk, d1: Disk, d2: Disk, done: set<string>,
                       was: set<string>, conflicts: set<string>, key: string, a: Authored)
    requires Extends(d, d1, done, was) && key !in done && (conflicts == was || conflicts == was + {key})
    requires if key in conflicts then d2 == d1 else AdoptedOne(time, ts, d1, d2, key, a)
    ensures Extends(d, d2, done + {key}, conflicts)
  {
    hide Kept, Dead;
  }

  lemma OthersKept(time: ParseTime, ts: seq<Tombstone>, d: Disk, d1: Disk, d2: Disk, k: string, b: Authored,
                   key: string, a: Authored)
    requires Kept(d, d1, k, b) && AdoptedOne(time, ts, d1, d2, key, a) && k != key
    ensures Kept(d, d2, k, b) && (k in d2.retired <==> k in d1.retired)
  {
    hide Dead;
  }

  lemma AdoptedKept(time: ParseTime, ts: seq<Tombstone>, d: Disk, d1: Disk, d2: Disk, done: set<string>,
                    was: set<string>, key: string, a: Authored)
    requires Extends(d, d1, done, was) && key !in done && AdoptedOne(time, ts, d1, d2, key, a)
    ensures Kept(d, d2, key, a)
  {
    hide Dead;
  }

  lemma AdoptedKills(time: ParseTime, ts: seq<Tombstone>, d: Disk, d1: Disk, d2: Disk, notes: map<string, Authored>,
                     done: set<string>, was: set<string>, conflicts: set<string>, key: string, i: string)
    requires key in notes && key !in done && (conflicts == was || conflicts == was + {key})
    requires if key in conflicts then d2 == d1 else AdoptedOne(time, ts, d1, d2, key, notes[key])
    requires d.forgotten <= d1.forgotten
    requires i in d1.forgotten <==> i in d.forgotten || KilledIn(time, ts, d, notes, done, was, i)
    requires notes[key].id in d1.forgotten <==>
      notes[key].id in d.forgotten || KilledIn(time, ts, d, notes, done, was, notes[key].id)
    ensures i in d2.forgotten <==> i in d.forgotten || KilledIn(time, ts, d, notes, done + {key}, conflicts, i)
  {
    hide ExcludesId, Extends, Kept;
  }

  // The operation an attempt works on: the recorded one, or a new reservation.
  function Target(d: Disk, redact: Redaction, project: string, source: Source, req: Request, native: string,
                  now: string): Op {
    if req.key in d.ops then d.ops[req.key]
    else
      var payload := redact(req.payload);
      Op(native, payload, Reserved, source.directory + "/" + native + ".json",
         Note(native, req.key, payload, now, req.origin), ItemId(project, source.id, native))
  }

  // The file and the reservation after a publication, and nothing else.
  function Published(d: Disk, key: string): Disk
    requires key in d.ops
  {
    var op := d.ops[key];
    var d' := SetOp(d, key, op.(state := Durable)).(temps := d.temps - {op.path});
    if op.path in d.finals then d'
    else d'.(finals := d.finals[op.path := Whole(op.note)], links := d.links + {(op.path, key)})
  }

  lemma PublishedShape(d: Disk, d': Disk, key: string)
    requires key in d.ops && var op := d.ops[key];
      && d' == d.(ops := d'.ops, temps := d'.temps, finals := d'.finals, links := d'.links)
      && d'.ops == d.ops[key := op.(state := Durable)]
      && d'.temps == d.temps - {op.path}
      && (op.path in d.finals ==> d'.finals == d.finals && d'.links == d.links)
      && (op.path !in d.finals ==>
          d'.finals == d.finals[op.path := Whole(op.note)] && d'.links == d.links + {(op.path, key)})
    ensures d' == Published(d, key)
  {
  }

  // Nothing stands where the note goes, or the note itself, or it goes nowhere.
  predicate Free(redact: Redaction, time: ParseTime, ts: seq<Tombstone>, d: Disk, op: Op, key: string) {
    || ExcludesId(time, ts, op.id, Some(op.note.recordedAt))
    || op.path !in d.finals || IsNote(redact, d.finals[op.path], key, op)
  }

  // When an attempt succeeds.
  predicate Succeeds(redact: Redaction, time: ParseTime, ts: seq<Tombstone>, d: Disk, op: Op, req: Request) {
    if req.key in d.retired then d.retired[req.key].semantic == redact(req.payload)
    else op.semantic == redact(req.payload) && Free(redact, time, ts, d, op, req.key)
  }

  // What a successful attempt leaves and answers.
  predicate Replied(redact: Redaction, time: ParseTime, ts: seq<Tombstone>, d: Disk, d': Disk, op: Op, req: Request,
                    reply: Reply) {
    match reply
    case Written(id, native, path) =>
      && req.key !in d.retired && !ExcludesId(time, ts, op.id, Some(op.note.recordedAt))
      && id == op.id && native == op.native && path == op.path
      && d' == Published(SetOp(d, req.key, op), req.key)
    case Forgotten(id) =>
      if req.key in d.retired then id == d.retired[req.key].id && d' == d
      else
        && ExcludesId(time, ts, op.id, Some(op.note.recordedAt)) && id == op.id
        && d' == d.(retired := d.retired[req.key := Binding(id, redact(req.payload))], forgotten := d.forgotten + {id})
  }

  // Files and the key's own rows as they were, up to the row's progress.
  predicate Untouched(d: Disk, d': Disk, key: string) {
    && d'.finals == d.finals && d'.temps == d.temps && d'.links == d.links
    && (key in d.ops ==> key in d'.ops && SameButState(d'.ops[key], d.ops[key]))
    && (key in d.retired ==> key in d'.retired && d'.retired[key] == d.retired[key])
  }

  // The note is in place under its name, durable, with no temporary file left; no other file moved.
  predicate InPlace(redact: Redaction, d: Disk, d': Disk, key: string, reply: Reply)
    requires reply.Written?
  {
    && key in d'.ops && key !in d'.retired
    && var op := d'.ops[key];
    && reply == Written(op.id, op.native, op.path) && op.state == Durable
    && op.path in d'.finals && op.path !in d'.temps
    && d'.finals == d.finals[op.path := d'.finals[op.path]]
    && (if op.path in d.finals
        then d'.finals[op.path] == d.finals[op.path] && IsNote(redact, d.finals[op.path], key, op)
            && d'.links == d.links
        else d'.finals[op.path] == Whole(op.note) && d'.links == d.links + {(op.path, key)})
    && (key in d.ops ==> SameButState(op, d.ops[key]))
  }

  // ----- when a write succeeds, by the state it starts in

  datatype Where = Where(
    redact: Redaction, time: ParseTime, ts: seq<Tombstone>, hash: Naming, project: string, source: Source,
    d: Disk, listing: seq<(string, string)>, req: Request, native: string, now: string)

  function NotesAt(w: Where): map<string, Authored>
    requires Readable(w.d.finals, w.listing)
  {
    Chosen(Listed(w.redact, w.project, w.d.finals, w.listing))
  }

  // The keys that backfilling leaves alone.
  function ConflictsAt(w: Where): set<string>
    requires Readable(w.d.finals, w.listing)
  {
    var found := Listed(w.redact, w.project, w.d.finals, w.listing);
    set k | k in NotesAt(w) && (Disagree(found, k) || Clashes(w.d, k, NotesAt(w)[k]))
  }

  // The identity of a note's key dies before the key's turn is over.
  predicate DoomedAt(w: Where)
    requires Readable(w.d.finals, w.listing) && w.req.key in NotesAt(w)
  {
    Doomed(w.time, w.ts, w.hash, w.d, NotesAt(w), ConflictsAt(w), w.req.key)
  }

  function TargetAt(w: Where, d: Disk): Op {
    Target(d, w.redact, w.project, w.source, w.req, w.native, w.now)
  }

  // The files can be read and none of them contradicts another, or the rows, under this key.
  predicate Ready(w: Where) {
    && Readable(w.d.finals, w.listing)
    && !Disagree(Listed(w.redact, w.project, w.d.finals, w.listing), w.req.key)
    && (w.req.key in NotesAt(w) ==> !Clashes(w.d, w.req.key, NotesAt(w)[w.req.key]))
  }

  // The key is bound for good before its operation is looked at.
  predicate Lost(w: Where)
    requires Ready(w)
  {
    w.req.key in w.d.retired || (w.req.key in NotesAt(w) && DoomedAt(w))
  }

  // What the key stands for: by its own row, else by the first note written under it.
  function Known(w: Where): Option<Binding>
    requires Ready(w)
  {
    if Bound(w.d, w.req.key).Some? then Bound(w.d, w.req.key)
    else if w.req.key in NotesAt(w) then Some(AuthoredBinding(NotesAt(w)[w.req.key]))
    else None
  }

  // An unused key needs its new name; a used one the same payload, and its own name if the row has one.
  predicate Admits(w: Where) {
    && Ready(w)
    && match Known(w)
       case None => Free(w.redact, w.time, w.ts, w.d, TargetAt(w, w.d), w.req.key)
       case Some(b) =>
         && b.semantic == w.redact(w.req.payload)
         && (Lost(w) || w.req.key !in w.d.ops || Free(w.redact, w.time, w.ts, w.d, w.d.ops[w.req.key], w.req.key))
  }

  // Why an identity is answered as forgotten.
  predicate Condemned(w: Where, id: string) {
    && Readable(w.d.finals, w.listing)
    && (|| (w.req.key in w.d.retired && w.d.retired[w.req.key].id == id)
        || (w.req.key in NotesAt(w) && id == NotesAt(w)[w.req.key].id && DoomedAt(w))
        || (id == TargetAt(w, w.d).id && ExcludesId(w.time, w.ts, id, Some(TargetAt(w, w.d).note.recordedAt))))
  }

  lemma UntouchedSelf(d: Disk, key: string)
    ensures Untouched(d, d, key)
  {
  }

  lemma BackfilledUntouched(time: ParseTime, ts: seq<Tombstone>, hash: Naming, d: Disk, d': Disk,
                            notes: map<string, Authored>, conflicts: set<string>, key: string)
    requires Backfilled(time, ts, hash, d, d', notes, notes.Keys, conflicts)
    ensures Untouched(d, d', key) && d'.finals == d.finals && d'.links == d.links && d'.temps == d.temps
  {
    hide Doomed, KilledIn, Kept;
  }

  lemma ReadyMeans(w: Where)
    ensures Readable(w.d.finals, w.listing) ==>
      var found := Listed(w.redact, w.project, w.d.finals, w.listing);
      && NotesAt(w) == Chosen(found)
      && (Ready(w) <==>
          !Disagree(found, w.req.key)
          && !(w.req.key in Chosen(found) && Clashes(w.d, w.req.key, Chosen(found)[w.req.key])))
    ensures !Readable(w.d.finals, w.listing) ==> !Ready(w)
    ensures Admits(w) ==> Ready(w)
  {
    hide Readable, Disagree, Clashes, Listed, Chosen, Bound, IsNote, Free, Lost, Known;
  }

  // A listed note is what its file says, redacted.
  lemma {:induction false} ListedIsFile(redact: Redaction, project: string, finals: map<string, Content>,
                                        listing: seq<(string, string)>, a: Authored) returns (f: (string, string))
    requires Readable(finals, listing) && a in Listed(redact, project, finals, listing)
    ensures f in listing && finals[f.1].note.payload.project == project
    ensures a == Authored(ItemId(project, f.0, finals[f.1].note.native), f.1, Redacted(redact, finals[f.1].note))
  {
    hide ItemId;
    var most := listing[..|listing| - 1];
    f := listing[|listing| - 1];
    assert listing == most + [f];
    if a in Listed(redact, project, finals, most) {
      f := ListedIsFile(redact, project, finals, most, a);
    }
  }

  lemma RecoveredIsFree(w: Where, key: string)
    requires Readable(w.d.finals, w.listing) && key in NotesAt(w)
    ensures Free(w.redact, w.time, w.ts, w.d, Recovered(NotesAt(w)[key]), key)
  {
    hide ExcludesId, Listed;
    var found := Listed(w.redact, w.project, w.d.finals, w.listing);
    ChosenIsListed(found, key);
    var _ := ListedIsFile(w.redact, w.project, w.d.finals, w.listing, NotesAt(w)[key]);
  }

  // The rows of one key after backfilling.
  predicate After(w: Where, d: Disk)
    requires Readable(w.d.finals, w.listing)
  {
    var key := w.req.key;
    && d.finals == w.d.finals
    && (key in w.d.retired ==> key in d.retired && d.retired[key] == w.d.retired[key])
    && (key in w.d.ops ==> key in d.ops && SameButState(d.ops[key], w.d.ops[key]))
    && (key in NotesAt(w) ==> Kept(w.d, d, key, NotesAt(w)[key]))
    && (key in NotesAt(w) ==> (key in d.retired <==> key in w.d.retired || DoomedAt(w)))
    && (key !in NotesAt(w) ==> (key in d.ops <==> key in w.d.ops) && (key in d.retired <==> key in w.d.retired))
  }

  lemma BackfilledAfter(w: Where, d: Disk, conflicts: set<string>)
    requires Readable(w.d.finals, w.listing) && w.req.key !in conflicts && conflicts == ConflictsAt(w)
    requires Backfilled(w.time, w.ts, w.hash, w.d, d, NotesAt(w), NotesAt(w).Keys, conflicts)
    ensures After(w, d)
  {
    hide Doomed, KilledIn, Kept, Chosen, Listed, ConflictsAt;
  }

  lemma ConflictsMean(w: Where, conflicts: set<string>)
    requires Readable(w.d.finals, w.listing)
    requires var found := Listed(w.redact, w.project, w.d.finals, w.listing);
      forall k :: k in conflicts <==> Disagree(found, k) || (k in Chosen(found) && Clashes(w.d, k, Chosen(found)[k]))
    ensures conflicts == ConflictsAt(w)
  {
    hide Disagree, Clashes, Listed, Chosen;
    ChosenKeys(Listed(w.redact, w.project, w.d.finals, w.listing));
  }

  // After backfilling, the attempt succeeds as `Admits` told beforehand.
  lemma AdmitsMeans(w: Where, d: Disk)
    requires Inv(w.d) && Readable(w.d.finals, w.listing) && After(w, d) && Ready(w)
    ensures Admits(w) <==> Succeeds(w.redact, w.time, w.ts, d, TargetAt(w, d), w.req)
  {
    hide Inv, Ready, After, Succeeds, Admits, TargetAt;
    if Known(w) == None {
      AdmitsNew(w, d);
    } else if w.req.key in d.retired {
      AdmitsRetired(w, d);
    } else {
      AdmitsUsed(w, d);
    }
  }

  lemma AdmitsNew(w: Where, d: Disk)
    requires Readable(w.d.finals, w.listing) && After(w, d) && Ready(w) && Known(w) == None
    ensures Admits(w) <==> Succeeds(w.redact, w.time, w.ts, d, TargetAt(w, d), w.req)
  {
    hide Listed, Chosen, Disagree, Readable, DoomedAt, ExcludesId, IsNote, NotesAt, Lost;
  }

  lemma AdmitsRetired(w: Where, d: Disk)
    requires Inv(w.d) && Readable(w.d.finals, w.listing) && After(w, d) && Ready(w) && Known(w).Some?
    requires w.req.key in d.retired
    ensures Admits(w) <==> Succeeds(w.redact, w.time, w.ts, d, TargetAt(w, d), w.req)
  {
    hide Listed, Chosen, Disagree, Readable, DoomedAt, Owned, Faithful, ExcludesId, Free, NotesAt, TargetAt;
  }

  lemma AdmitsUsed(w: Where, d: Disk)
    requires Readable(w.d.finals, w.listing) && After(w, d) && Ready(w) && Known(w).Some?
    requires w.req.key !in d.retired
    ensures Admits(w) <==> Succeeds(w.redact, w.time, w.ts, d, TargetAt(w, d), w.req)
  {
    hide Listed, Chosen, Disagree, Readable, DoomedAt, ExcludesId, NotesAt;
    if w.req.key in NotesAt(w) {
      RecoveredIsFree(w, w.req.key);
    }
  }

  lemma MismatchFails(w: Where, d: Disk)
    ensures Bound(d, w.req.key).Some? && Bound(d, w.req.key).value.semantic != w.redact(w.req.payload) ==>
      !Succeeds(w.redact, w.time, w.ts, d, TargetAt(w, d), w.req)
  {
    hide Free, ItemId;
  }

  lemma RepliedInPlace(w: Where, d1: Disk, d2: Disk, reply: Reply)
    requires Untouched(w.d, d1, w.req.key)
    requires Succeeds(w.redact, w.time, w.ts, d1, TargetAt(w, d1), w.req)
    requires Replied(w.redact, w.time, w.ts, d1, d2, TargetAt(w, d1), w.req, reply)
    ensures reply.Written? ==> InPlace(w.redact, w.d, d2, w.req.key, reply)
    ensures reply.Forgotten? ==> d2.finals == w.d.finals && d2.links == w.d.links
  {
    hide ExcludesId, ItemId;
  }

  /**
   The note that a reply names: the one recorded under the key, else the first one found written under it,
   else a new one with the given name and time, the redacted payload, and the origin of the request.
   */
  ghost predicate NamesNote(w: Where, d': Disk, reply: Reply)
    requires reply.Written?
  {
    var key := w.req.key;
    && Readable(w.d.finals, w.listing) && key in d'.ops
    && var note := d'.ops[key].note;
    && (if key in w.d.ops then
          reply == Written(w.d.ops[key].id, w.d.ops[key].native, w.d.ops[key].path) && note == w.d.ops[key].note
        else if key in NotesAt(w) then
          && reply == Written(NotesAt(w)[key].id, NotesAt(w)[key].note.native, NotesAt(w)[key].path)
          && note == NotesAt(w)[key].note
        else
          && reply == Written(ItemId(w.project, w.source.id, w.native), w.native,
                              w.source.directory + "/" + w.native + ".json")
          && note == Note(w.native, key, w.redact(w.req.payload), w.now, w.req.origin))
    && reply.path in d'.finals
    && (reply.path !in w.d.finals ==> d'.finals[reply.path] == Whole(note))
  }

  lemma ReplyNamesNote(w: Where, d1: Disk, d2: Disk, reply: Reply)
    requires Ready(w) && After(w, d1)
    requires Replied(w.redact, w.time, w.ts, d1, d2, TargetAt(w, d1), w.req, reply)
    ensures reply.Written? ==> NamesNote(w, d2, reply)
  {
    hide Ready, Listed, Chosen, Readable, DoomedAt, ExcludesId, ItemId, NotesAt;
    ReadyIsReadable(w);
  }

  lemma ReadyIsReadable(w: Where)
    requires Ready(w)
    ensures Readable(w.d.finals, w.listing)
  {
  }

  lemma OwnDeathDooms(w: Where)
    requires Ready(w) && w.req.key in NotesAt(w)
    ensures Dead(w.time, w.ts, w.d, NotesAt(w)[w.req.key]) ==> DoomedAt(w)
  {
    hide Dead, Disagree, Clashes, Listed, Chosen, NotesAt;
    if Dead(w.time, w.ts, w.d, NotesAt(w)[w.req.key]) {
      assert Dooms(w.time, w.ts, w.hash, w.d, NotesAt(w), ConflictsAt(w), w.req.key, w.req.key);
    }
  }

  lemma CondemnedMeans(w: Where, d1: Disk, d2: Disk, reply: Reply)
    requires Ready(w) && After(w, d1)
    requires Replied(w.redact, w.time, w.ts, d1, d2, TargetAt(w, d1), w.req, reply)
    ensures reply.Forgotten? ==> Condemned(w, reply.id)
  {
    if w.req.key in NotesAt(w) {
      OwnDeathDooms(w);
    }
    hide Ready, Listed, Chosen, Readable, DoomedAt, ExcludesId, ItemId, NotesAt;
  }

  // ----- a retry after a success

  // No other listed file speaks of the key.
  predicate Alone(w: Where, reply: Reply)
    requires reply.Written?
  {
    && Readable(w.d.finals, w.listing)
    && forall f :: f in w.listing ==>
         var n := w.d.finals[f.1].note;
         n.payload.project == w.project && n.key == w.req.key ==>
           f.1 == reply.path && ItemId(w.project, f.0, n.native) == reply.id
  }

  // No tombstone matches the identity, and it is not remembered as forgotten.
  ghost predicate Spared(w: Where, id: string) {
    id !in w.d.forgotten && forall at :: !ExcludesId(w.time, w.ts, id, at)
  }

  /**
   A first write has put its file in place, and since then, whatever the program did,
   nobody else has edited the files. Then a retry with the same request succeeds if and
   only if redacting the payload a second time changes nothing, because the file is
   redacted again before it is compared.
   */
  lemma RetryAfterSuccess(log: seq<Disk>, i: nat, j: nat, before: Disk, w: Where, reply: Reply)
    requires Run(log) && Inv(log[0]) && i <= j < |log| && log[j] == w.d
    requires reply.Written? && reply.path !in before.finals && InPlace(w.redact, before, log[i], w.req.key, reply)
    requires Bound(log[i], w.req.key) == Some(Binding(reply.id, w.redact(w.req.payload)))
    requires forall k :: i <= k < j ==> OwnStep(log[k], log[k + 1])
    requires w.req.key !in w.d.retired && Spared(w, reply.id) && Alone(w, reply)
    ensures Admits(w) <==> w.redact(w.redact(w.req.payload)) == w.redact(w.req.payload)
  {
    hide OwnStep, Step, Inv, Admits, Alone, Spared, ExcludesId;
    FilesStay(log, i, j);
    OpStays(log, i, j, w.req.key);
    RunKeepsInv(log, j);
    OpIsFaithful(w.d, w.req.key);
    RetryAt(w, reply);
  }

  // The file of a key, as its operation has it.
  predicate OwnFile(w: Where, reply: Reply)
    requires reply.Written?
  {
    && w.req.key in w.d.ops && w.req.key !in w.d.retired
    && var op := w.d.ops[w.req.key];
    && Faithful(w.req.key, op) && reply == Written(op.id, op.native, op.path)
    && reply.path in w.d.finals && w.d.finals[reply.path] == Whole(op.note)
    && op.semantic == w.redact(w.req.payload)
  }

  lemma RetryAt(w: Where, reply: Reply)
    requires reply.Written? && OwnFile(w, reply) && Spared(w, reply.id) && Alone(w, reply)
    ensures Admits(w) <==> w.redact(w.redact(w.req.payload)) == w.redact(w.req.payload)
  {
    ReadyAt(w, reply);
    if Ready(w) {
      NotLost(w, reply);
    }
    hide Ready, Alone, Spared, Lost, ExcludesId, NotesAt;
    assert Spared(w, reply.id) ==> !ExcludesId(w.time, w.ts, reply.id, Some(w.d.ops[w.req.key].note.recordedAt)) by {
      SparedAt(w, reply.id, Some(w.d.ops[w.req.key].note.recordedAt));
    }
  }

  lemma SparedAt(w: Where, id: string, at: Option<string>)
    ensures Spared(w, id) ==> !ExcludesId(w.time, w.ts, id, at) && id !in w.d.forgotten
  {
  }

  // What is listed under the key is the file, redacted once more.
  lemma ListedIsOwn(w: Where, reply: Reply, a: Authored)
    requires reply.Written? && OwnFile(w, reply) && Alone(w, reply)
    requires a in Listed(w.redact, w.project, w.d.finals, w.listing) && a.note.key == w.req.key
    ensures AuthoredBinding(a) == Binding(reply.id, w.redact(w.redact(w.req.payload))) && a.note.native == reply.native
  {
    hide ItemId, Listed;
    var f := ListedIsFile(w.redact, w.project, w.d.finals, w.listing, a);
  }

  lemma ReadyAt(w: Where, reply: Reply)
    requires reply.Written? && OwnFile(w, reply) && Alone(w, reply)
    ensures Ready(w) <==> w.req.key !in NotesAt(w) || w.redact(w.redact(w.req.payload)) == w.redact(w.req.payload)
  {
    hide Listed, Chosen;
    var found := Listed(w.redact, w.project, w.d.finals, w.listing);
    ChosenIsListed(found, w.req.key);
    if w.req.key in NotesAt(w) {
      ListedIsOwn(w, reply, NotesAt(w)[w.req.key]);
    }
    if Disagree(found, w.req.key) {
      var a, b :| a in found && b in found && a.note.key == b.note.key == w.req.key
        && AuthoredBinding(a) != AuthoredBinding(b);
      ListedIsOwn(w, reply, a);
      ListedIsOwn(w, reply, b);
    }
  }

  lemma NotLost(w: Where, reply: Reply)
    requires reply.Written? && OwnFile(w, reply) && Alone(w, reply) && Spared(w, reply.id) && Ready(w)
    ensures !Lost(w)
  {
    hide Listed, Chosen, Disagree, Clashes, ExcludesId, ConflictsAt, Below;
    if w.req.key in NotesAt(w) {
      ChosenIsListed(Listed(w.redact, w.project, w.d.finals, w.listing), w.req.key);
      ListedIsOwn(w, reply, NotesAt(w)[w.req.key]);
    }
  }

  // ----- purging operations

  predicate KeyMatches(time: ParseTime, ts: seq<Tombstone>, forgotten: set<string>, op: Op) {
    ExcludesRecord(time, ts, forgotten, op.id, ThirdField(op.id), Some(op.note.recordedAt))
  }

  function MatchingKeys(time: ParseTime, ts: seq<Tombstone>, forgotten: set<string>, d: Disk): set<string> {
    set k | k in d.ops && KeyMatches(time, ts, forgotten, d.ops[k])
  }

  lemma MatchingKeysAreOps(time: ParseTime, ts: seq<Tombstone>, forgotten: set<string>, d: Disk)
    ensures MatchingKeys(time, ts, forgotten, d) <= d.ops.Keys
  {
  }

  // Some keys are bound for good and their temporary files gone; the reservations still stand.
  ghost predicate Purging(d: Disk, d': Disk, keys: set<string>) {
    && keys <= d.ops.Keys
    && d' == d.(retired := d'.retired, forgotten := d'.forgotten, temps := d'.temps)
    && (forall k :: k in d.retired ==> k in d'.retired && d'.retired[k] == d.retired[k])
    && (forall k :: k in d'.retired ==> k in d.retired || k in keys)
    && (forall k :: k in keys ==> k in d'.retired && d'.retired[k] == BindingOf(d.ops[k]) && d.ops[k].path !in d'.temps)
    && d'.forgotten == d.forgotten + (set k | k in keys :: d.ops[k].id)
    && (forall p :: p in d'.temps <==> p in d.temps && forall k :: k in keys ==> d.ops[k].path != p)
    && (forall p :: p in d'.temps ==> d'.temps[p] == d.temps[p])
  }

  ghost predicate OperationsPurged(d: Disk, d': Disk, keys: set<string>) {
    && keys <= d.ops.Keys && d'.ops == d.ops - keys
    && Purging(d, d'.(ops := d.ops), keys)
  }

  lemma PurgingNone(d: Disk)
    ensures Purging(d, d, {})
  {
  }

  lemma PurgingOneMore(d: Disk, d1: Disk, d2: Disk, keys: set<string>, key: string)
    requires Purging(d, d1, keys) && key in d.ops && key !in keys
    requires key in d1.retired ==> d1.retired[key] == BindingOf(d.ops[key])
    requires d2 == d1.(retired := d1.retired[key := BindingOf(d.ops[key])],
                       forgotten := d1.forgotten + {d.ops[key].id}, temps := d1.temps - {d.ops[key].path})
    ensures Purging(d, d2, keys + {key})
  {
  }
}
