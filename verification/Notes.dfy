/**
 Authored notes and their retry keys (src/notes.rs): what is durable, and every
 single change of it. A crash may follow any step, and people may edit the note
 files between any two.
 */
module Notes {
  import opened Wrappers

  // What makes two requests the same: compared by hash, so compared by value.
  datatype Payload = Payload(
    kind: string, text: string, project: string, branch: Option<string>, task: Option<string>,
    evidence: seq<string>, verification: Option<string>)

  datatype Note = Note(native: string, key: string, payload: Payload, recordedAt: string, origin: string)

  // A file holds a valid note or, after an interrupted write, something else.
  datatype Content = Torn | Whole(note: Note)

  datatype State = Reserved | Writing | Durable

  // A row of `note_ops`.
  datatype Op = Op(native: string, semantic: Payload, state: State, path: string, note: Note, id: string)

  // A row of `forgotten_note_ops`, and what a key is bound to in general.
  datatype Binding = Binding(id: string, semantic: Payload)

  // `links` only records which names were ever published, and for which key.
  datatype Disk = Disk(
    ops: map<string, Op>,
    retired: map<string, Binding>,
    forgotten: set<string>,
    finals: map<string, Content>,
    temps: map<string, Content>,
    links: set<(string, string)>)

  function BindingOf(op: Op): Binding {
    Binding(op.id, op.semantic)
  }

  // What a retry key stands for, once it has been used.
  function Bound(d: Disk, key: string): Option<Binding> {
    if key in d.retired then Some(d.retired[key])
    else if key in d.ops then Some(BindingOf(d.ops[key]))
    else None
  }

  // The columns repeat what the stored note says.
  predicate Faithful(key: string, op: Op) {
    op.native == op.note.native && op.semantic == op.note.payload && key == op.note.key
  }

  // ----- one durable change

  datatype Event =
    | Reserve(key: string, op: Op)
    | Adopt(key: string, op: Op)
    | Mark(key: string, state: State)
    | Create(key: string)
    | Fill(key: string)
    | Unlink(path: string)
    | Link(key: string)
    | Retire(key: string, binding: Binding)
    | Drop(keys: set<string>)
    | Outside(finals: map<string, Content>)

  function SetOp(d: Disk, key: string, op: Op): Disk {
    d.(ops := d.ops[key := op])
  }

  predicate Does(d: Disk, d': Disk, e: Event) {
    match e
    // a new reservation, and a note found already written
    case Reserve(key, op) => Bound(d, key) == None && Faithful(key, op) && op.state == Reserved
        && d' == SetOp(d, key, op)
    case Adopt(key, op) => Bound(d, key) == None && Faithful(key, op) && op.state == Durable && d' == SetOp(d, key, op)
    case Mark(key, state) => key in d.ops && d' == SetOp(d, key, d.ops[key].(state := state))
    // the temporary file is created empty and then filled
    case Create(key) => key in d.ops && d.ops[key].path !in d.temps
        && d' == d.(temps := d.temps[d.ops[key].path := Torn])
    case Fill(key) =>
      && key in d.ops && d.ops[key].path in d.temps && d.temps[d.ops[key].path] == Torn
      && d' == d.(temps := d.temps[d.ops[key].path := Whole(d.ops[key].note)])
    case Unlink(path) => d' == d.(temps := d.temps - {path})
    // a hard link never replaces a file
    case Link(key) =>
      && key in d.ops && key !in d.retired
      && var path := d.ops[key].path;
      && path !in d.finals && path in d.temps && d.temps[path] == Whole(d.ops[key].note)
      && d' == d.(finals := d.finals[path := d.temps[path]], links := d.links + {(path, key)})
    case Retire(key, b) =>
      && (Bound(d, key) == None || Bound(d, key) == Some(b))
      && d' == d.(retired := d.retired[key := b], forgotten := d.forgotten + {b.id})
    case Drop(keys) =>
      && keys <= d.retired.Keys && (forall k :: k in keys && k in d.ops ==> d.ops[k].path !in d.temps)
      && d' == d.(ops := d.ops - keys)
    case Outside(finals) => d' == d.(finals := finals)
  }

  ghost predicate Step(d: Disk, d': Disk) {
    exists e :: Does(d, d', e)
  }

  ghost predicate Run(log: seq<Disk>) {
    log != [] && forall i :: 0 <= i < |log| - 1 ==> Step(log[i], log[i + 1])
  }

  // ----- what every reachable state satisfies

  predicate Owned(d: Disk, path: string) {
    exists k :: k in d.ops && d.ops[k].path == path
  }

  ghost predicate Inv(d: Disk) {
    && (forall k :: k in d.ops ==> Faithful(k, d.ops[k]))
    // a retired key and its operation agree
    && (forall k :: k in d.ops && k in d.retired ==> d.retired[k] == BindingOf(d.ops[k]))
    // a published name belongs to a used key, and is the one its operation records
    && (forall l :: l in d.links ==> (l.1 in d.ops || l.1 in d.retired) && (l.1 in d.ops ==> d.ops[l.1].path == l.0))
    // binding a key for good and forgetting its identity are one transaction
    && (forall k :: k in d.retired ==> d.retired[k].id in d.forgotten)
    // one name for each key
    && (forall l, m :: l in d.links && m in d.links && l.1 == m.1 ==> l.0 == m.0)
    // note bytes in a temporary file never outlive their reservation
    && (forall p :: p in d.temps ==> Owned(d, p))
  }

  lemma SetOpKeepsInv(d: Disk, key: string, op: Op)
    requires Inv(d)
    requires Faithful(key, op)
    requires Bound(d, key) == None
      || (key in d.ops && BindingOf(op) == BindingOf(d.ops[key]) && op.path == d.ops[key].path)
    ensures Inv(SetOp(d, key, op))
  {
    var d' := SetOp(d, key, op);
    forall p | p in d'.temps ensures Owned(d', p) {
      assert Owned(d, p);
      var k :| k in d.ops && d.ops[k].path == p;
      assert k in d'.ops && d'.ops[k].path == p;
    }
  }

  // Changes to temporary files alone.
  lemma TempKeepsInv(d: Disk, d': Disk)
    requires Inv(d) && d' == d.(temps := d'.temps)
    requires forall p :: p in d'.temps && p !in d.temps ==> Owned(d, p)
    ensures Inv(d')
  {
    forall p | p in d'.temps ensures Owned(d', p) {
      assert Owned(d, p);
    }
  }

  lemma LinkKeepsInv(d: Disk, d': Disk, key: string)
    requires Inv(d) && Does(d, d', Link(key))
    ensures Inv(d')
  {
    hide BindingOf, Faithful;
    forall p | p in d'.temps ensures Owned(d', p) {
      assert Owned(d, p);
    }
    forall l, m | l in d'.links && m in d'.links && l.1 == m.1 ensures l.0 == m.0 {
    }
  }

  lemma RetireKeepsInv(d: Disk, d': Disk, key: string, b: Binding)
    requires Inv(d) && Does(d, d', Retire(key, b))
    ensures Inv(d')
  {
    forall p | p in d'.temps ensures Owned(d', p) {
      assert Owned(d, p);
    }
  }

  lemma DropKeepsInv(d: Disk, d': Disk, e: Event)
    requires Inv(d) && Does(d, d', e) && e.Drop?
    ensures Inv(d')
  {
    forall p | p in d'.temps ensures Owned(d', p) {
      assert Owned(d, p);
      var k :| k in d.ops && d.ops[k].path == p;
      assert k in d'.ops;
    }
  }

  lemma DoesKeepsInv(d: Disk, d': Disk, e: Event)
    requires Inv(d) && Does(d, d', e)
    ensures Inv(d')
  {
    hide Inv, Owned;
    match e
    case Reserve(key, op) => SetOpKeepsInv(d, key, op);
    case Adopt(key, op) => SetOpKeepsInv(d, key, op);
    case Mark(key, state) =>
      OpIsFaithful(d, key);
      SetOpKeepsInv(d, key, d.ops[key].(state := state));
    case Create(key) =>
      OpIsOwned(d, key);
      TempKeepsInv(d, d');
    case Fill(key) => TempKeepsInv(d, d');
    case Unlink(_) => TempKeepsInv(d, d');
    case Link(key) => LinkKeepsInv(d, d', key);
    case Retire(key, b) => RetireKeepsInv(d, d', key, b);
    case Drop(_) => DropKeepsInv(d, d', e);
    case Outside(_) => FinalsDoNotMatter(d, d');
  }

  lemma OpIsFaithful(d: Disk, key: string)
    requires Inv(d) && key in d.ops
    ensures Faithful(key, d.ops[key])
  {
  }

  lemma OpIsOwned(d: Disk, key: string)
    requires key in d.ops
    ensures Owned(d, d.ops[key].path)
  {
  }

  lemma FinalsDoNotMatter(d: Disk, d': Disk)
    requires Inv(d) && d' == d.(finals := d'.finals)
    ensures Inv(d')
  {
    forall p | p in d'.temps ensures Owned(d', p) {
      assert Owned(d, p);
    }
  }

  lemma {:induction false} RunKeepsInv(log: seq<Disk>, k: nat)
    requires Run(log) && Inv(log[0]) && k < |log|
    ensures Inv(log[k])
  {
    hide Inv, Does;
    if k > 0 {
      RunKeepsInv(log, k - 1);
      assert Step(log[k - 1], log[(k - 1) + 1]);
      var e :| Does(log[k - 1], log[k], e);
      DoesKeepsInv(log[k - 1], log[k], e);
    }
  }

  /**
   However many attempts and crashes, and whatever else happens to the note files:
   no two names are ever published for one retry key.
   */
  lemma AtMostOneFile(log: seq<Disk>, i: nat, j: nat, key: string, p: string, q: string)
    requires Run(log) && Inv(log[0]) && i < |log| && j < |log|
    requires (p, key) in log[i].links && (q, key) in log[j].links
    ensures p == q
  {
    hide Step;
    var last := if i < j then j else i;
    RunKeepsInv(log, last);
    LinksGrow(log, i, last);
    LinksGrow(log, j, last);
  }

  lemma {:induction false} LinksGrow(log: seq<Disk>, i: nat, j: nat)
    requires Run(log) && i <= j < |log|
    ensures log[i].links <= log[j].links
  {
    hide Does;
    if i < j {
      LinksGrow(log, i, j - 1);
      assert Step(log[j - 1], log[(j - 1) + 1]);
      var e :| Does(log[j - 1], log[j], e);
      DoesKeepsLinks(log[j - 1], log[j], e);
    }
  }

  lemma DoesKeepsLinks(d: Disk, d': Disk, e: Event)
    requires Does(d, d', e)
    ensures d.links <= d'.links
  {
    hide Bound, Faithful;
  }

  lemma DoesKeepsBinding(d: Disk, d': Disk, e: Event, key: string)
    requires Inv(d) && Does(d, d', e) && Bound(d, key).Some?
    ensures Bound(d', key) == Bound(d, key)
  {
    hide Inv, Faithful;
    RetiredAgrees(d, key);
    match e
    case Reserve(_, _) =>
    case Adopt(_, _) =>
    case Retire(_, _) =>
    case Drop(_) =>
    case _ =>
  }

  lemma RetiredAgrees(d: Disk, key: string)
    requires Inv(d)
    ensures key in d.ops && key in d.retired ==> d.retired[key] == BindingOf(d.ops[key])
  {
    hide Owned, Faithful;
  }

  /** A used key stays bound to its identity and payload, through every crash of a write or a purge. */
  lemma {:induction false} BoundForGood(log: seq<Disk>, i: nat, j: nat, key: string)
    requires Run(log) && Inv(log[0]) && i <= j < |log| && Bound(log[i], key).Some?
    ensures Bound(log[j], key) == Bound(log[i], key)
  {
    hide Inv, Does, Bound;
    if i < j {
      BoundForGood(log, i, j - 1, key);
      RunKeepsInv(log, j - 1);
      assert Step(log[j - 1], log[(j - 1) + 1]);
      var e :| Does(log[j - 1], log[j], e);
      DoesKeepsBinding(log[j - 1], log[j], e, key);
    }
  }

  // A reply an attempt gave: the state it answered in, and what it named.
  datatype Answer = Answer(at: nat, key: string, id: string, semantic: Payload)

  ghost predicate Answered(log: seq<Disk>, replies: seq<Answer>) {
    forall a :: a in replies ==> a.at < |log| && Bound(log[a.at], a.key) == Some(Binding(a.id, a.semantic))
  }

  /**
   Any two replies ever given under one retry key, by attempts before or after any
   crash, purge or edit of the files, name one identity for one payload.
   */
  lemma RepliesAgree(log: seq<Disk>, replies: seq<Answer>, a: Answer, b: Answer)
    requires Run(log) && Inv(log[0]) && Answered(log, replies)
    requires a in replies && b in replies && a.key == b.key
    ensures a.id == b.id && a.semantic == b.semantic
  {
    hide Inv, Step, Bound;
    if a.at <= b.at {
      BoundForGood(log, a.at, b.at, a.key);
    } else {
      BoundForGood(log, b.at, a.at, a.key);
    }
  }

  // No step of the program replaces or removes a note file; only a link adds one, and it is the reserved note.
  lemma FilesOnlyAppear(d: Disk, d': Disk, e: Event)
    requires Does(d, d', e) && !e.Outside?
    ensures forall p :: p in d.finals ==> p in d'.finals && d'.finals[p] == d.finals[p]
    ensures forall p :: p in d'.finals && p !in d.finals ==>
      e.Link? && e.key in d.ops && p == d.ops[e.key].path && d'.finals[p] == Whole(d.ops[e.key].note)
      && (p, e.key) in d'.links
  {
  }

  predicate SameButState(a: Op, b: Op) {
    a == b.(state := a.state)
  }

  lemma DoesKeepsOp(d: Disk, d': Disk, e: Event, key: string)
    requires Does(d, d', e)
    ensures d.retired.Keys <= d'.retired.Keys
    ensures key in d.ops && key !in d'.retired ==> key in d'.ops && SameButState(d'.ops[key], d.ops[key])
  {
    hide Faithful, BindingOf;
  }

  // Until its key is bound for good, an operation stays, and only its progress changes.
  lemma {:induction false} OpStays(log: seq<Disk>, i: nat, j: nat, key: string)
    requires Run(log) && i <= j < |log| && key in log[i].ops && key !in log[j].retired
    ensures key in log[j].ops && SameButState(log[j].ops[key], log[i].ops[key])
  {
    hide Does;
    if i < j {
      assert Step(log[j - 1], log[(j - 1) + 1]);
      var e :| Does(log[j - 1], log[j], e);
      DoesKeepsOp(log[j - 1], log[j], e, key);
      OpStays(log, i, j - 1, key);
    }
  }

  ghost predicate OwnStep(d: Disk, d': Disk) {
    exists e: Event :: !e.Outside? && Does(d, d', e)
  }

  /**
   While nobody else edits the files, every note file stays as it is, and each new one
   holds a whole note under the only name ever published for that note's key.
   */
  lemma {:induction false} FilesStay(log: seq<Disk>, i: nat, j: nat)
    requires Run(log) && Inv(log[0]) && i <= j < |log|
    requires forall k :: i <= k < j ==> OwnStep(log[k], log[k + 1])
    ensures forall p :: p in log[i].finals ==> p in log[j].finals && log[j].finals[p] == log[i].finals[p]
    ensures forall p :: p in log[j].finals && p !in log[i].finals ==>
      log[j].finals[p].Whole? && (p, log[j].finals[p].note.key) in log[j].links
  {
    hide Inv, Does;
    if i < j {
      FilesStay(log, i, j - 1);
      RunKeepsInv(log, j - 1);
      assert OwnStep(log[j - 1], log[(j - 1) + 1]);
      var e: Event :| !e.Outside? && Does(log[j - 1], log[j], e);
      FilesOnlyAppear(log[j - 1], log[j], e);
      DoesKeepsLinks(log[j - 1], log[j], e);
      if e.Link? && e.key in log[j - 1].ops {
        OpIsFaithful(log[j - 1], e.key);
      }
    }
  }
}
