/**
 Licence expressions and the packages they are asked of
 (scripts/collect_licenses.py). The parser is compared with the grammar, given by
 its derivations; AND binds tighter than OR because the grammar says so.
 */
module Licences {
  import opened Wrappers

  const AND := "AND"
  const OR := "OR"
  const OPENING := "("
  const CLOSING := ")"

  predicate IsName(token: string) {
    token !in {AND, OR, "WITH", OPENING, CLOSING}
  }

  // ----- the grammar

  datatype Atom = Name(id: string) | Group(inner: Either)

  datatype Both = One(atom: Atom) | More(first: Both, last: Atom)

  datatype Either = Alone(both: Both) | Choice(one: Either, other: Both)

  function AtomTokens(a: Atom): (ts: seq<string>)
    ensures ts != [] && (ts[0] == OPENING <==> a.Group? || a.id == OPENING)
  {
    match a
    case Name(id) => [id]
    case Group(e) => [OPENING] + EitherTokens(e) + [CLOSING]
  }

  function BothTokens(b: Both): (ts: seq<string>)
    ensures ts != []
  {
    match b
    case One(a) => AtomTokens(a)
    case More(b', a) => BothTokens(b') + [AND] + AtomTokens(a)
  }

  function EitherTokens(e: Either): (ts: seq<string>)
    ensures ts != []
  {
    match e
    case Alone(b) => BothTokens(b)
    case Choice(e', b) => EitherTokens(e') + [OR] + BothTokens(b)
  }

  predicate AtomNamed(a: Atom) {
    match a
    case Name(id) => IsName(id)
    case Group(e) => EitherNamed(e)
  }

  predicate BothNamed(b: Both) {
    match b
    case One(a) => AtomNamed(a)
    case More(b', a) => BothNamed(b') && AtomNamed(a)
  }

  predicate EitherNamed(e: Either) {
    match e
    case Alone(b) => BothNamed(b)
    case Choice(e', b) => EitherNamed(e') && BothNamed(b)
  }

  // ----- what an expression says of the licences at hand

  predicate AtomHolds(a: Atom, available: set<string>) {
    match a
    case Name(id) => id in available
    case Group(e) => EitherHolds(e, available)
  }

  predicate BothHolds(b: Both, available: set<string>) {
    match b
    case One(a) => AtomHolds(a, available)
    case More(b', a) => BothHolds(b', available) && AtomHolds(a, available)
  }

  predicate EitherHolds(e: Either, available: set<string>) {
    match e
    case Alone(b) => BothHolds(b, available)
    case Choice(e', b) => EitherHolds(e', available) || BothHolds(b, available)
  }

  // ----- derivations at the head of some tokens

  predicate AtomAt(a: Atom, ts: seq<string>) {
    AtomNamed(a) && AtomTokens(a) <= ts
  }

  // A conjunction ends where no AND follows.
  predicate BothAt(b: Both, ts: seq<string>) {
    BothNamed(b) && BothTokens(b) <= ts && !Begins(ts[|BothTokens(b)|..], AND)
  }

  predicate EitherAt(e: Either, ts: seq<string>) {
    && EitherNamed(e) && EitherTokens(e) <= ts
    && !Begins(ts[|EitherTokens(e)|..], AND) && !Begins(ts[|EitherTokens(e)|..], OR)
  }

  predicate Begins(ts: seq<string>, token: string) {
    ts != [] && ts[0] == token
  }

  // `b'` is `b` with more conjuncts, or `b` itself.
  predicate BothExtends(b': Both, b: Both) {
    b' == b || (b'.More? && BothExtends(b'.first, b))
  }

  predicate EitherExtends(e': Either, e: Either) {
    e' == e || (e'.Choice? && EitherExtends(e'.one, e))
  }

  // The next conjunct of a longer conjunction.
  lemma {:induction false} NextConjunct(b': Both, b: Both, ts: seq<string>) returns (a: Atom)
    requires BothExtends(b', b) && b' != b && BothNamed(b') && BothTokens(b') <= ts
    ensures BothExtends(b', More(b, a)) && AtomNamed(a) && BothTokens(More(b, a)) <= ts
    ensures Begins(ts[|BothTokens(b)|..], AND)
    decreases b'
  {
    if b'.first == b {
      a := b'.last;
      assert ts[|BothTokens(b)|] == BothTokens(b')[|BothTokens(b)|];
    } else {
      a := NextConjunct(b'.first, b, ts);
    }
  }

  lemma {:induction false} NextChoice(e': Either, e: Either, ts: seq<string>) returns (b: Both)
    requires EitherExtends(e', e) && e' != e && EitherNamed(e') && EitherTokens(e') <= ts
      && !Begins(ts[|EitherTokens(e')|..], AND)
    ensures EitherExtends(e', Choice(e, b)) && BothNamed(b) && EitherTokens(Choice(e, b)) <= ts
    ensures !Begins(ts[|EitherTokens(Choice(e, b))|..], AND)
    ensures Begins(ts[|EitherTokens(e)|..], OR)
    decreases e'
  {
    if e'.one == e {
      b := e'.other;
      assert ts[|EitherTokens(e)|] == EitherTokens(e')[|EitherTokens(e)|];
    } else {
      var after := ts[|EitherTokens(e'.one)|..];
      assert after[0] == OR by {
        assert ts[|EitherTokens(e'.one)|] == EitherTokens(e')[|EitherTokens(e'.one)|];
      }
      b := NextChoice(e'.one, e, ts);
    }
  }

  // Every conjunction starts with some atom, every choice with some conjunction.
  lemma {:induction false} FirstAtom(b: Both, ts: seq<string>) returns (a: Atom)
    requires BothNamed(b) && BothTokens(b) <= ts
    ensures BothExtends(b, One(a)) && AtomAt(a, ts)
  {
    match b
    case One(x) => a := x;
    case More(b', _) => a := FirstAtom(b', ts);
  }

  lemma {:induction false} FirstBoth(e: Either, ts: seq<string>) returns (b: Both)
    requires EitherNamed(e) && EitherTokens(e) <= ts && !Begins(ts[|EitherTokens(e)|..], AND)
    ensures EitherExtends(e, Alone(b)) && BothAt(b, ts)
  {
    match e
    case Alone(x) => b := x;
    case Choice(e', _) =>
      assert ts[|EitherTokens(e')|..][0] == OR by {
        assert ts[|EitherTokens(e')|] == EitherTokens(e)[|EitherTokens(e')|];
      }
      b := FirstBoth(e', ts);
  }

  lemma GroupStarts(ts: seq<string>, x: Atom)
    requires Begins(ts, OPENING) && AtomAt(x, ts)
    ensures x.Group? && EitherAt(x.inner, ts[1..]) && Begins(ts[1..][|EitherTokens(x.inner)|..], CLOSING)
  {
    var e := x.inner;
    var inner := EitherTokens(e);
    assert ts[|inner| + 1] == AtomTokens(x)[|inner| + 1] == CLOSING;
    assert ts[1..][..|inner|] == AtomTokens(x)[1..|inner| + 1] == inner;
  }

  lemma NoGroup(ts: seq<string>, ok: bool, e: Either)
    requires Begins(ts, OPENING) && forall x :: EitherAt(x, ts[1..]) ==> ok && x == e
    requires ok ==> EitherAt(e, ts[1..]) && !Begins(ts[1..][|EitherTokens(e)|..], CLOSING)
    ensures forall x :: !AtomAt(x, ts)
  {
    hide EitherAt, AtomAt, Begins;
    forall x ensures !AtomAt(x, ts) {
      if AtomAt(x, ts) {
        GroupStarts(ts, x);
      }
    }
  }

  lemma GroupAt(ts: seq<string>, e: Either)
    requires Begins(ts, OPENING) && EitherAt(e, ts[1..]) && Begins(ts[1..][|EitherTokens(e)|..], CLOSING)
    requires forall x :: EitherAt(x, ts[1..]) ==> x == e
    ensures AtomAt(Group(e), ts) && forall x :: AtomAt(x, ts) ==> x == Group(e)
  {
    var inner := EitherTokens(e);
    assert ts[|inner| + 1] == CLOSING;
    assert AtomTokens(Group(e)) == ts[..|inner| + 2];
    forall x | AtomAt(x, ts) ensures x == Group(e) {
      GroupStarts(ts, x);
    }
  }

  lemma BothStarts(ts: seq<string>, ok: bool, a: Atom)
    requires forall x :: AtomAt(x, ts) ==> ok && x == a
    ensures forall x :: BothAt(x, ts) ==> ok && BothExtends(x, One(a))
  {
    hide AtomAt;
    forall x | BothAt(x, ts) ensures ok && BothExtends(x, One(a)) {
      var first := FirstAtom(x, ts);
    }
  }

  lemma EitherStarts(ts: seq<string>, ok: bool, b: Both)
    requires forall x :: BothAt(x, ts) ==> ok && x == b
    ensures forall x :: EitherAt(x, ts) ==> ok && EitherExtends(x, Alone(b))
  {
    hide BothAt;
    forall x | EitherAt(x, ts) ensures ok && EitherExtends(x, Alone(b)) {
      var first := FirstBoth(x, ts);
    }
  }

  lemma BothGrows(ts: seq<string>, b: Both, tail: seq<string>, ok: bool, a: Atom)
    requires BothNamed(b) && BothTokens(b) <= ts && Begins(ts[|BothTokens(b)|..], AND)
      && tail == ts[|BothTokens(b)| + 1..]
    requires forall x :: AtomAt(x, tail) ==> ok && x == a
    requires ok ==> AtomAt(a, tail)
    requires forall x :: BothAt(x, ts) ==> BothExtends(x, b)
    ensures ok ==>
      BothNamed(More(b, a)) && BothTokens(More(b, a)) <= ts
      && |BothTokens(More(b, a))| == |BothTokens(b)| + 1 + |AtomTokens(a)|
    ensures forall x :: BothAt(x, ts) ==> ok && BothExtends(x, More(b, a))
  {
    hide BothAt, AtomAt, BothTokens, BothNamed, BothExtends;
    if ok {
      MoreAt(ts, b, tail, a);
    }
    forall x | BothAt(x, ts) ensures ok && BothExtends(x, More(b, a)) {
      var next := GrowsBy(ts, x, b, tail);
    }
  }

  lemma MoreAt(ts: seq<string>, b: Both, tail: seq<string>, a: Atom)
    requires BothNamed(b) && BothTokens(b) <= ts && Begins(ts[|BothTokens(b)|..], AND)
      && tail == ts[|BothTokens(b)| + 1..]
    requires AtomAt(a, tail)
    ensures BothNamed(More(b, a)) && BothTokens(More(b, a)) <= ts
      && |BothTokens(More(b, a))| == |BothTokens(b)| + 1 + |AtomTokens(a)|
  {
    hide AtomTokens, AtomNamed;
    assert BothTokens(More(b, a)) == ts[..|BothTokens(b)| + 1 + |AtomTokens(a)|];
  }

  lemma GrowsBy(ts: seq<string>, x: Both, b: Both, tail: seq<string>) returns (a: Atom)
    requires BothTokens(b) <= ts && Begins(ts[|BothTokens(b)|..], AND) && tail == ts[|BothTokens(b)| + 1..]
    requires BothAt(x, ts) && BothExtends(x, b)
    ensures BothExtends(x, More(b, a)) && AtomAt(a, tail)
  {
    hide AtomTokens, AtomNamed, BothExtends;
    a := NextConjunct(x, b, ts);
    var longer := BothTokens(More(b, a));
    assert tail[..|AtomTokens(a)|] == longer[|BothTokens(b)| + 1..] == AtomTokens(a);
  }

  lemma EitherGrows(ts: seq<string>, e: Either, tail: seq<string>, ok: bool, b: Both)
    requires EitherNamed(e) && EitherTokens(e) <= ts && Begins(ts[|EitherTokens(e)|..], OR)
      && tail == ts[|EitherTokens(e)| + 1..]
    requires forall x :: BothAt(x, tail) ==> ok && x == b
    requires ok ==> BothAt(b, tail)
    requires forall x :: EitherAt(x, ts) ==> EitherExtends(x, e)
    ensures ok ==>
      EitherNamed(Choice(e, b)) && EitherTokens(Choice(e, b)) <= ts
      && |EitherTokens(Choice(e, b))| == |EitherTokens(e)| + 1 + |BothTokens(b)|
    ensures ok ==> !Begins(ts[|EitherTokens(Choice(e, b))|..], AND)
    ensures forall x :: EitherAt(x, ts) ==> ok && EitherExtends(x, Choice(e, b))
  {
    hide EitherAt, BothAt, EitherTokens, EitherNamed, EitherExtends;
    if ok {
      ChoiceAt(ts, e, tail, b);
    }
    forall x | EitherAt(x, ts) ensures ok && EitherExtends(x, Choice(e, b)) {
      var next := WidensBy(ts, x, e, tail);
    }
  }

  lemma ChoiceAt(ts: seq<string>, e: Either, tail: seq<string>, b: Both)
    requires EitherNamed(e) && EitherTokens(e) <= ts && Begins(ts[|EitherTokens(e)|..], OR)
      && tail == ts[|EitherTokens(e)| + 1..]
    requires BothAt(b, tail)
    ensures EitherNamed(Choice(e, b)) && EitherTokens(Choice(e, b)) <= ts
      && |EitherTokens(Choice(e, b))| == |EitherTokens(e)| + 1 + |BothTokens(b)|
    ensures !Begins(ts[|EitherTokens(Choice(e, b))|..], AND)
  {
    hide BothTokens, BothNamed;
    var at := |EitherTokens(e)| + 1;
    assert EitherTokens(Choice(e, b)) == ts[..at + |BothTokens(b)|];
    assert tail[|BothTokens(b)|..] == ts[at + |BothTokens(b)|..];
  }

  lemma WidensBy(ts: seq<string>, x: Either, e: Either, tail: seq<string>) returns (b: Both)
    requires EitherTokens(e) <= ts && Begins(ts[|EitherTokens(e)|..], OR) && tail == ts[|EitherTokens(e)| + 1..]
    requires EitherAt(x, ts) && EitherExtends(x, e)
    ensures EitherExtends(x, Choice(e, b)) && BothAt(b, tail)
  {
    hide BothTokens, BothNamed, EitherExtends;
    b := NextChoice(x, e, ts);
    var longer := EitherTokens(Choice(e, b));
    assert tail[..|BothTokens(b)|] == longer[|EitherTokens(e)| + 1..] == BothTokens(b);
    assert tail[|BothTokens(b)|..] == ts[|longer|..];
  }

  lemma BothEnds(ts: seq<string>, b: Both)
    requires BothNamed(b) && BothTokens(b) <= ts && !Begins(ts[|BothTokens(b)|..], AND)
    requires forall x :: BothAt(x, ts) ==> BothExtends(x, b)
    ensures BothAt(b, ts) && forall x :: BothAt(x, ts) ==> x == b
  {
    forall x | BothAt(x, ts) ensures x == b {
      if x != b {
        var next := NextConjunct(x, b, ts);
      }
    }
  }

  lemma EitherEnds(ts: seq<string>, e: Either)
    requires EitherNamed(e) && EitherTokens(e) <= ts
    requires !Begins(ts[|EitherTokens(e)|..], AND) && !Begins(ts[|EitherTokens(e)|..], OR)
    requires forall x :: EitherAt(x, ts) ==> EitherExtends(x, e)
    ensures EitherAt(e, ts) && forall x :: EitherAt(x, ts) ==> x == e
  {
    forall x | EitherAt(x, ts) ensures x == e {
      if x != e {
        var next := NextChoice(x, e, ts);
      }
    }
  }

  // ----- the parser

  class Parser {
    const tokens: seq<string>
    const available: set<string>
    var position: nat

    constructor (tokens: seq<string>, available: set<string>)
      ensures this.tokens == tokens && this.available == available && position == 0
    {
      this.tokens, this.available, position := tokens, available, 0;
    }

    ghost predicate Valid()
      reads this
    {
      position <= |tokens|
    }

    method ParseAtom() returns (r: Result<bool, string>, ghost a: Atom)
      requires Valid()
      modifies this`position
      ensures Valid() && old(position) <= position
      ensures r.Ok? ==>
        old(position) < position && AtomAt(a, tokens[old(position)..]) && position == old(position) + |AtomTokens(a)|
      ensures r.Ok? ==> (r.value <==> AtomHolds(a, available))
      ensures forall x :: AtomAt(x, tokens[old(position)..]) ==> r.Ok? && x == a
      decreases |tokens| - position, 0
    {
      ghost var ts := tokens[position..];
      a := Name("");
      if position >= |tokens| {
        return Err("incomplete license expression"), a;
      }
      var token := tokens[position];
      position := position + 1;
      assert tokens[position..] == ts[1..];
      if token == OPENING {
        ghost var e;
        r, e := ParseEither();
        if r.Err? || position >= |tokens| || tokens[position] != CLOSING {
          NoGroup(ts, r.Ok?, e);
          return Err("unbalanced license expression"), a;
        }
        a := Group(e);
        GroupAt(ts, e);
        position := position + 1;
        return r, a;
      }
      if !IsName(token) {
        return Err("unsupported license expression or exception"), a;
      }
      a := Name(token);
      return Ok(token in available), a;
    }

    method ParseBoth() returns (r: Result<bool, string>, ghost b: Both)
      requires Valid()
      modifies this`position
      ensures Valid() && old(position) <= position
      ensures r.Ok? ==>
        old(position) < position && BothAt(b, tokens[old(position)..]) && position == old(position) + |BothTokens(b)|
      ensures r.Ok? ==> (r.value <==> BothHolds(b, available))
      ensures forall x :: BothAt(x, tokens[old(position)..]) ==> r.Ok? && x == b
      decreases |tokens| - position, 1
    {
      ghost var ts, start := tokens[position..], position;
      ghost var a;
      r, a := ParseAtom();
      b := One(a);
      BothStarts(ts, r.Ok?, a);
      while r.Ok? && position < |tokens| && tokens[position] == AND
        invariant start <= position <= |tokens| && ts == tokens[start..]
        invariant r.Ok? ==> start < position == start + |BothTokens(b)| && BothNamed(b) && BothTokens(b) <= ts
        invariant r.Ok? ==> (r.value <==> BothHolds(b, available))
        invariant forall x :: BothAt(x, ts) ==> r.Ok? && BothExtends(x, b)
        decreases |tokens| - position, r.Ok?
      {
        ghost var so := b;
        assert ts[|BothTokens(so)|] == AND;
        position := position + 1;
        var following: Result<bool, string>;
        assert tokens[position..] == ts[|BothTokens(so)| + 1..];
        following, a := ParseAtom();
        BothGrows(ts, so, ts[|BothTokens(so)| + 1..], following.Ok?, a);
        b := More(so, a);
        r := if following.Ok? then Ok(r.value && following.value) else following;
      }
      if r.Ok? {
        assert tokens[position..] == ts[|BothTokens(b)|..];
        BothEnds(ts, b);
      }
    }

    method ParseEither() returns (r: Result<bool, string>, ghost e: Either)
      requires Valid()
      modifies this`position
      ensures Valid() && old(position) <= position
      ensures r.Ok? ==>
        old(position) < position && EitherAt(e, tokens[old(position)..])
        && position == old(position) + |EitherTokens(e)|
      ensures r.Ok? ==> (r.value <==> EitherHolds(e, available))
      ensures forall x :: EitherAt(x, tokens[old(position)..]) ==> r.Ok? && x == e
      decreases |tokens| - position, 2
    {
      ghost var ts, start := tokens[position..], position;
      ghost var b;
      r, b := ParseBoth();
      e := Alone(b);
      EitherStarts(ts, r.Ok?, b);
      while r.Ok? && position < |tokens| && tokens[position] == OR
        invariant start <= position <= |tokens| && ts == tokens[start..]
        invariant r.Ok? ==> start < position == start + |EitherTokens(e)| && EitherNamed(e) && EitherTokens(e) <= ts
        invariant r.Ok? ==> !Begins(ts[|EitherTokens(e)|..], AND)
        invariant r.Ok? ==> (r.value <==> EitherHolds(e, available))
        invariant forall x :: EitherAt(x, ts) ==> r.Ok? && EitherExtends(x, e)
        decreases |tokens| - position, r.Ok?
      {
        ghost var so := e;
        assert ts[|EitherTokens(so)|] == OR;
        position := position + 1;
        var following: Result<bool, string>;
        assert tokens[position..] == ts[|EitherTokens(so)| + 1..];
        following, b := ParseBoth();
        EitherGrows(ts, so, ts[|EitherTokens(so)| + 1..], following.Ok?, b);
        e := Choice(so, b);
        r := if following.Ok? then Ok(r.value || following.value) else following;
      }
      if r.Ok? {
        assert tokens[position..] == ts[|EitherTokens(e)|..];
        EitherEnds(ts, e);
      }
    }
  }

  /**
   An expression is accepted exactly when some derivation has its tokens, all of
   them; there is only one, and the answer is what it says of the licences at hand.
   */
  method Satisfies(tokens: seq<string>, available: set<string>) returns (r: Result<bool, string>, ghost e: Either)
    ensures r.Ok? <==> exists x :: EitherNamed(x) && EitherTokens(x) == tokens
    ensures "WITH" in tokens ==> r.Err?
    ensures r.Ok? ==> EitherNamed(e) && EitherTokens(e) == tokens && (r.value <==> EitherHolds(e, available))
    ensures forall x :: EitherNamed(x) && EitherTokens(x) == tokens ==> x == e
  {
    var parser := new Parser(tokens, available);
    assert tokens[0..] == tokens;
    forall x | EitherNamed(x) && EitherTokens(x) == tokens ensures EitherAt(x, tokens) {
      assert tokens[|EitherTokens(x)|..] == [];
    }
    r, e := parser.ParseEither();
    if r.Ok? && parser.position != |tokens| {
      r := Err("unsupported license expression or exception");
    }
    if r.Ok? {
      NoException(e);
    }
  }

  // A derivation has no exceptions.
  lemma {:induction false} NoException(e: Either)
    requires EitherNamed(e)
    ensures "WITH" !in EitherTokens(e)
  {
    match e
    case Alone(b) => NoExceptionIn(b);
    case Choice(e', b) =>
      NoException(e');
      NoExceptionIn(b);
  }

  lemma {:induction false} NoExceptionIn(b: Both)
    requires BothNamed(b)
    ensures "WITH" !in BothTokens(b)
  {
    var a := match b case One(a) => a case More(_, a) => a;
    if b.More? {
      NoExceptionIn(b.first);
    }
    if a.Group? {
      NoException(a.inner);
    }
  }

  // ----- text into tokens

  predicate IsAlphanumeric(c: char) {
    'A' <= c <= 'Z' || 'a' <= c <= 'z' || '0' <= c <= '9'
  }

  predicate IsTail(c: char) {
    IsAlphanumeric(c) || c in ".+-"
  }

  predicate IsBracket(c: char) {
    c == '(' || c == ')'
  }

  // What Python's `\s` matches.
  predicate IsSpace(c: char) {
    var n := c as int;
    || 9 <= n <= 13 || 0x1C <= n <= 0x20 || 0x2000 <= n <= 0x200A
    || n in {0x85, 0xA0, 0x1680, 0x2028, 0x2029, 0x202F, 0x205F, 0x3000}
  }

  predicate IsLexeme(t: string) {
    (t != "" && IsAlphanumeric(t[0]) && forall c :: c in t ==> IsTail(c)) || (|t| == 1 && IsBracket(t[0]))
  }

  // How far a word goes.
  function Extent(s: string): (n: nat)
    ensures n <= |s| && forall i :: 0 <= i < n ==> IsTail(s[i])
  {
    if s == "" || !IsTail(s[0]) then 0 else 1 + Extent(s[1..])
  }

  // The tokens found from the left, and the characters passed over between them.
  function Scan(s: string): seq<string>
    decreases |s|
  {
    if s == "" then []
    else if IsAlphanumeric(s[0]) then [s[..Extent(s)]] + Scan(s[Extent(s)..])
    else if IsBracket(s[0]) then [s[..1]] + Scan(s[1..])
    else Scan(s[1..])
  }

  function Skipped(s: string): string
    decreases |s|
  {
    if s == "" then ""
    else if IsAlphanumeric(s[0]) then Skipped(s[Extent(s)..])
    else if IsBracket(s[0]) then Skipped(s[1..])
    else [s[0]] + Skipped(s[1..])
  }

  function Joined(ts: seq<string>): string {
    if ts == [] then "" else ts[0] + Joined(ts[1..])
  }

  function Unspaced(s: string): string {
    if s == "" then "" else if IsSpace(s[0]) then Unspaced(s[1..]) else [s[0]] + Unspaced(s[1..])
  }

  // A slash is the older spelling of OR.
  function WithOr(s: string): string {
    if s == "" then "" else (if s[0] == '/' then " OR " else [s[0]]) + WithOr(s[1..])
  }

  lemma {:induction false} UnspacedConcat(a: string, b: string)
    ensures Unspaced(a + b) == Unspaced(a) + Unspaced(b)
  {
    if a == "" {
      assert a + b == b;
    } else {
      assert (a + b)[1..] == a[1..] + b;
      UnspacedConcat(a[1..], b);
    }
  }

  lemma {:induction false} UnspacedWord(a: string)
    requires forall i :: 0 <= i < |a| ==> !IsSpace(a[i])
    ensures Unspaced(a) == a
  {
    if a != "" {
      UnspacedWord(a[1..]);
    }
  }

  /**
   The tokens put together are the text without its spaces exactly when nothing but
   spaces was passed over.
   */
  lemma {:induction false} JoinedIsUnspaced(s: string)
    ensures |Joined(Scan(s))| + |Unspaced(Skipped(s))| == |Unspaced(s)|
    ensures Unspaced(Skipped(s)) == "" ==> Joined(Scan(s)) == Unspaced(s)
    decreases |s|
  {
    if s != "" {
      if IsAlphanumeric(s[0]) {
        var n := Extent(s);
        JoinedIsUnspaced(s[n..]);
        assert s == s[..n] + s[n..];
        UnspacedConcat(s[..n], s[n..]);
        UnspacedWord(s[..n]);
        assert Scan(s)[1..] == Scan(s[n..]);
      } else if IsBracket(s[0]) {
        JoinedIsUnspaced(s[1..]);
        assert Scan(s)[1..] == Scan(s[1..]);
        assert s[..1] == [s[0]];
      } else {
        JoinedIsUnspaced(s[1..]);
        assert Skipped(s)[1..] == Skipped(s[1..]);
      }
    }
  }

  method Tokenize(expression: string) returns (r: Result<seq<string>, string>)
    ensures r.Ok? <==> Unspaced(Skipped(WithOr(expression))) == ""
    ensures r.Ok? ==> r.value == Scan(WithOr(expression))
  {
    var spelled := WithOr(expression);
    var tokens: seq<string>, rest := [], spelled;
    while rest != ""
      invariant tokens + Scan(rest) == Scan(spelled)
      decreases |rest|
    {
      if IsAlphanumeric(rest[0]) {
        tokens, rest := tokens + [rest[..Extent(rest)]], rest[Extent(rest)..];
      } else if IsBracket(rest[0]) {
        tokens, rest := tokens + [rest[..1]], rest[1..];
      } else {
        rest := rest[1..];
      }
    }
    assert Scan(rest) == [] && tokens + [] == tokens;
    JoinedIsUnspaced(spelled);
    if Joined(tokens) != Unspaced(spelled) {
      return Err("unsupported license expression");
    }
    return Ok(tokens);
  }

  function Spaced(ts: seq<string>): string {
    if ts == [] then "" else ts[0] + " " + Spaced(ts[1..])
  }

  lemma {:induction false} ExtentOfWord(t: string, rest: string)
    requires forall c :: c in t ==> IsTail(c)
    ensures Extent(t + " " + rest) == |t|
  {
    var s := t + " " + rest;
    if t != "" {
      assert t[0] in t && forall c :: c in t[1..] ==> c in t;
      assert s[1..] == t[1..] + " " + rest;
      ExtentOfWord(t[1..], rest);
    }
  }

  /** Tokens written apart are found again, and nothing else is. */
  lemma {:induction false} SpacedScans(ts: seq<string>)
    requires forall t :: t in ts ==> IsLexeme(t)
    ensures Scan(Spaced(ts)) == ts && Unspaced(Skipped(Spaced(ts))) == ""
  {
    hide Scan, Skipped, IsLexeme;
    if ts == [] {
      NothingScanned();
    } else {
      var t, rest := ts[0], Spaced(ts[1..]);
      assert t in ts && ts == [t] + ts[1..];
      SpacedScans(ts[1..]);
      FirstToken(t, rest);
      SpaceSkipped(rest);
      assert t + " " + rest == t + (" " + rest);
    }
  }

  lemma NothingScanned()
    ensures Scan("") == [] && Skipped("") == ""
  {
  }

  lemma FirstToken(t: string, rest: string)
    requires IsLexeme(t)
    ensures Scan(t + " " + rest) == [t] + Scan(" " + rest) && Skipped(t + " " + rest) == Skipped(" " + rest)
  {
    hide Skipped, Scan;
    var s := t + " " + rest;
    ScanStep(s);
    if !IsBracket(t[0]) {
      ExtentOfWord(t, rest);
    }
    assert s[..|t|] == t && s[|t|..] == " " + rest;
  }

  // One step of the scan, once.
  lemma ScanStep(s: string)
    requires s != "" && (IsAlphanumeric(s[0]) || IsBracket(s[0]))
    ensures var n := if IsAlphanumeric(s[0]) then Extent(s) else 1;
      Scan(s) == [s[..n]] + Scan(s[n..]) && Skipped(s) == Skipped(s[n..])
  {
  }

  lemma SpaceSkipped(rest: string)
    ensures Scan(" " + rest) == Scan(rest) && Unspaced(Skipped(" " + rest)) == Unspaced(Skipped(rest))
  {
    assert (" " + rest)[1..] == rest;
    assert (" " + Skipped(rest))[1..] == Skipped(rest);
  }

  predicate Spelled(e: Either) {
    forall t :: t in EitherTokens(e) ==> IsLexeme(t) && '/' !in t
  }

  lemma {:induction false} WithOrKeeps(s: string)
    requires '/' !in s
    ensures WithOr(s) == s
  {
    if s != "" {
      assert s[0] in s && forall c :: c in s[1..] ==> c in s;
      WithOrKeeps(s[1..]);
    }
  }

  lemma {:induction false} SpacedHasNoSlash(ts: seq<string>)
    requires forall t :: t in ts ==> '/' !in t
    ensures '/' !in Spaced(ts)
  {
    if ts != [] {
      assert ts[0] in ts && forall t :: t in ts[1..] ==> t in ts;
      SpacedHasNoSlash(ts[1..]);
    }
  }

  // A slash between two texts stands for OR between them.
  lemma {:induction false} SlashIsOr(a: string, b: string)
    ensures WithOr(a + "/" + b) == WithOr(a) + " OR " + WithOr(b)
  {
    var s := a + "/" + b;
    if a == "" {
      assert s[1..] == b;
    } else {
      assert s[1..] == a[1..] + "/" + b;
      SlashIsOr(a[1..], b);
    }
  }

  // A licence identifier as it may stand in a text.
  predicate IsWord(t: string) {
    t != "" && IsAlphanumeric(t[0]) && (forall c :: c in t ==> IsTail(c)) && IsName(t)
  }

  lemma {:induction false} ExtentOfAll(t: string)
    requires forall c :: c in t ==> IsTail(c)
    ensures Extent(t) == |t|
  {
    if t != "" {
      assert t[0] in t && forall c :: c in t[1..] ==> c in t;
      ExtentOfAll(t[1..]);
    }
  }

  lemma WordHasNoSlash(t: string)
    requires IsWord(t)
    ensures IsLexeme(t) && '/' !in t && WithOr(t) == t
  {
    WithOrKeeps(t);
  }

  lemma LastWord(t: string)
    requires IsWord(t)
    ensures Scan(t) == [t] && Skipped(t) == ""
  {
    ExtentOfAll(t);
    ScanStep(t);
    NothingScanned();
    assert t[..|t|] == t && t[|t|..] == "";
  }

  lemma SlashScans(a: string, b: string)
    requires IsWord(a) && IsWord(b)
    ensures Scan(WithOr(a + "/" + b)) == [a, OR, b] && Unspaced(Skipped(WithOr(a + "/" + b))) == ""
  {
    hide Scan, Skipped, Unspaced, WithOr, IsWord;
    SlashIsOr(a, b);
    WordHasNoSlash(a);
    WordHasNoSlash(b);
    assert a + " OR " + b == a + " " + (OR + " " + b);
    assert IsLexeme(OR);
    FirstToken(a, OR + " " + b);
    SpaceSkipped(OR + " " + b);
    FirstToken(OR, b);
    SpaceSkipped(b);
    LastWord(b);
    NothingUnspaced();
  }

  lemma NothingUnspaced()
    ensures Unspaced("") == ""
  {
  }

  // What two words with a slash between them mean.
  lemma SlashDerives(a: string, b: string, available: set<string>) returns (x: Either)
    requires IsWord(a) && IsWord(b)
    ensures EitherNamed(x) && EitherTokens(x) == [a, OR, b]
    ensures EitherHolds(x, available) <==> a in available || b in available
  {
    var one, other := Alone(One(Name(a))), One(Name(b));
    x := Choice(one, other);
    assert BothTokens(One(Name(a))) == [a] && BothTokens(other) == [b];
    assert BothNamed(One(Name(a))) && BothNamed(other);
    assert BothHolds(One(Name(a)), available) <==> a in available;
    assert BothHolds(other, available) <==> b in available;
    assert EitherTokens(one) == [a] && EitherNamed(one) && (EitherHolds(one, available) <==> a in available);
  }

  /** From text to answer: every expression, printed, is accepted and means what it says. */
  method SatisfiesText(expression: string, available: set<string>) returns (r: Result<bool, string>)
    ensures r.Ok? <==>
      && Unspaced(Skipped(WithOr(expression))) == ""
      && exists x :: EitherNamed(x) && EitherTokens(x) == Scan(WithOr(expression))
    ensures forall x :: EitherNamed(x) && EitherTokens(x) == Scan(WithOr(expression)) && r.Ok? ==>
      (r.value <==> EitherHolds(x, available))
    ensures forall x :: EitherNamed(x) && Spelled(x) && expression == Spaced(EitherTokens(x)) ==>
      r == Ok(EitherHolds(x, available))
    ensures forall a, b :: IsWord(a) && IsWord(b) && expression == a + "/" + b ==>
      r == Ok(a in available || b in available)
  {
    hide IsWord, Scan, Skipped, WithOr, EitherNamed, EitherTokens, EitherHolds;
    var tokens := Tokenize(expression);
    forall a, b | IsWord(a) && IsWord(b) && expression == a + "/" + b
      ensures Scan(WithOr(expression)) == [a, OR, b] && Unspaced(Skipped(WithOr(expression))) == ""
    {
      SlashScans(a, b);
    }
    forall x | EitherNamed(x) && Spelled(x) && expression == Spaced(EitherTokens(x))
      ensures Scan(WithOr(expression)) == EitherTokens(x) && Unspaced(Skipped(WithOr(expression))) == ""
    {
      SpacedHasNoSlash(EitherTokens(x));
      WithOrKeeps(expression);
      SpacedScans(EitherTokens(x));
    }
    if tokens.Err? {
      return Err(tokens.error);
    }
    ghost var e;
    r, e := Satisfies(tokens.value, available);
    forall a, b | IsWord(a) && IsWord(b) && expression == a + "/" + b
      ensures r == Ok(a in available || b in available)
    {
      var x := SlashDerives(a, b, available);
      assert EitherNamed(x) && EitherTokens(x) == tokens.value;
      assert x == e;
    }
  }

  // ----- the licence expressions of the SPDX Specification 2.3, Annex D

  // A compound expression; `WITH` aside, whose exceptions the parser refuses.
  datatype Compound =
    | Simple(word: string)
    | AndOf(left: Compound, right: Compound)
    | OrOf(left: Compound, right: Compound)
    | Parens(inner: Compound)

  function CompoundTokens(c: Compound): seq<string> {
    match c
    case Simple(word) => [word]
    case AndOf(l, r) => CompoundTokens(l) + [AND] + CompoundTokens(r)
    case OrOf(l, r) => CompoundTokens(l) + [OR] + CompoundTokens(r)
    case Parens(inner) => [OPENING] + CompoundTokens(inner) + [CLOSING]
  }

  predicate CompoundHolds(c: Compound, available: set<string>) {
    match c
    case Simple(word) => word in available
    case AndOf(l, r) => CompoundHolds(l, available) && CompoundHolds(r, available)
    case OrOf(l, r) => CompoundHolds(l, available) || CompoundHolds(r, available)
    case Parens(inner) => CompoundHolds(inner, available)
  }

  predicate IsIdChar(c: char) {
    IsAlphanumeric(c) || c == '-' || c == '.'
  }

  // `idstring`, or one with the plus sign for later versions.
  predicate IsSimple(word: string) {
    || (word != "" && forall c :: c in word ==> IsIdChar(c))
    || (|word| > 1 && word[|word| - 1] == '+' && forall c :: c in word[..|word| - 1] ==> IsIdChar(c))
  }

  predicate InAnnexD(c: Compound) {
    match c
    case Simple(word) => IsSimple(word) && IsName(word)
    case AndOf(l, r) => InAnnexD(l) && InAnnexD(r)
    case OrOf(l, r) => InAnnexD(l) && InAnnexD(r)
    case Parens(inner) => InAnnexD(inner)
  }

  // AND before OR: a conjunct that is a choice stands in parentheses.
  predicate InOrder(c: Compound) {
    match c
    case Simple(_) => true
    case AndOf(l, r) => !l.OrOf? && !r.OrOf? && InOrder(l) && InOrder(r)
    case OrOf(l, r) => InOrder(l) && InOrder(r)
    case Parens(inner) => InOrder(inner)
  }

  function ReadAtom(a: Atom): (c: Compound)
    ensures !c.OrOf?
  {
    match a
    case Name(id) => Simple(id)
    case Group(e) => Parens(ReadEither(e))
  }

  function ReadBoth(b: Both): (c: Compound)
    ensures !c.OrOf?
  {
    match b
    case One(a) => ReadAtom(a)
    case More(b', a) => AndOf(ReadBoth(b'), ReadAtom(a))
  }

  function ReadEither(e: Either): Compound {
    match e
    case Alone(b) => ReadBoth(b)
    case Choice(e', b) => OrOf(ReadEither(e'), ReadBoth(b))
  }

  // Every derivation is a reading in the order of precedence that the annex gives its operators.
  ghost predicate Reads(c: Compound, tokens: seq<string>) {
    && CompoundTokens(c) == tokens && InOrder(c)
    && (InAnnexD(c) <==> forall t :: t in tokens && IsName(t) ==> IsSimple(t))
  }

  lemma {:induction false} AtomReads(a: Atom)
    requires AtomNamed(a)
    ensures Reads(ReadAtom(a), AtomTokens(a))
    ensures forall available :: CompoundHolds(ReadAtom(a), available) <==> AtomHolds(a, available)
  {
    if a.Group? {
      EitherReads(a.inner);
      ParensRead(ReadEither(a.inner), EitherTokens(a.inner));
    }
  }

  lemma {:induction false} BothReads(b: Both)
    requires BothNamed(b)
    ensures Reads(ReadBoth(b), BothTokens(b))
    ensures forall available :: CompoundHolds(ReadBoth(b), available) <==> BothHolds(b, available)
  {
    match b
    case One(a) => AtomReads(a);
    case More(b', a) =>
      BothReads(b');
      AtomReads(a);
      OperatorReads(ReadBoth(b'), BothTokens(b'), AND, ReadAtom(a), AtomTokens(a));
  }

  lemma {:induction false} EitherReads(e: Either)
    requires EitherNamed(e)
    ensures Reads(ReadEither(e), EitherTokens(e))
    ensures forall available :: CompoundHolds(ReadEither(e), available) <==> EitherHolds(e, available)
  {
    match e
    case Alone(b) => BothReads(b);
    case Choice(e', b) =>
      EitherReads(e');
      BothReads(b);
      OperatorReads(ReadEither(e'), EitherTokens(e'), OR, ReadBoth(b), BothTokens(b));
  }

  lemma ParensRead(c: Compound, ts: seq<string>)
    requires Reads(c, ts)
    ensures Reads(Parens(c), [OPENING] + ts + [CLOSING])
  {
    hide IsSimple;
    forall t | t in ts ensures t in [OPENING] + ts + [CLOSING] {
    }
  }

  lemma OperatorReads(c: Compound, ts: seq<string>, operator: string, d: Compound, us: seq<string>)
    requires Reads(c, ts) && Reads(d, us) && operator in {AND, OR} && (operator == AND ==> !c.OrOf? && !d.OrOf?)
    ensures Reads(if operator == AND then AndOf(c, d) else OrOf(c, d), ts + [operator] + us)
  {
    hide IsSimple;
    forall t | t in ts || t in us ensures t in ts + [operator] + us {
    }
  }

  // A word of an expression in the annex is simple.
  lemma {:induction false} WordsAreSimple(c: Compound, t: string)
    requires InAnnexD(c) && t in CompoundTokens(c) && IsName(t)
    ensures IsSimple(t)
  {
    match c
    case Simple(_) =>
    case AndOf(l, r) => WordsAreSimple(if t in CompoundTokens(l) then l else r, t);
    case OrOf(l, r) => WordsAreSimple(if t in CompoundTokens(l) then l else r, t);
    case Parens(inner) => WordsAreSimple(inner, t);
  }

  // No plus sign but at the end.
  predicate PlusAtEnd(word: string) {
    word != "" && '+' !in word[..|word| - 1]
  }

  // The tokenizer passes on words with more plus signs than the annex allows.
  lemma SimpleIff(word: string)
    requires IsLexeme(word) && IsName(word)
    ensures IsSimple(word) <==> PlusAtEnd(word)
  {
    LexemeIsWord(word);
    var most, last := word[..|word| - 1], word[|word| - 1];
    assert word == most + [last];
    forall c | c in most && c != '+' ensures IsIdChar(c) {
      assert c in word && IsTail(c);
    }
    assert last in word && IsTail(last);
    assert !IsIdChar('+');
    if PlusAtEnd(word) && last != '+' {
      forall c | c in word ensures IsIdChar(c) {
        assert c in most || c == last;
      }
    }
  }

  /**
   What the parser accepts is an expression of the annex, read with the annex's own
   order of precedence, if and only if no word has a plus sign before its end.
   */
  lemma AcceptedIsAnnexD(e: Either)
    requires EitherNamed(e) && forall t :: t in EitherTokens(e) ==> IsLexeme(t)
    ensures CompoundTokens(ReadEither(e)) == EitherTokens(e) && InOrder(ReadEither(e))
    ensures forall available :: CompoundHolds(ReadEither(e), available) <==> EitherHolds(e, available)
    ensures (exists c :: InAnnexD(c) && CompoundTokens(c) == EitherTokens(e))
      <==> forall t :: t in EitherTokens(e) && IsName(t) ==> PlusAtEnd(t)
  {
    hide IsSimple, IsLexeme, PlusAtEnd, CompoundHolds, EitherHolds;
    EitherReads(e);
    var tokens := EitherTokens(e);
    forall t | t in tokens && IsName(t) ensures IsSimple(t) <==> PlusAtEnd(t) {
      SimpleIff(t);
    }
    if c :| InAnnexD(c) && CompoundTokens(c) == tokens {
      forall t | t in tokens && IsName(t) ensures IsSimple(t) {
        WordsAreSimple(c, t);
      }
    }
  }

  lemma LexemeIsWord(t: string)
    requires IsLexeme(t) && IsName(t)
    ensures t != "" && IsAlphanumeric(t[0]) && forall c :: c in t ==> IsTail(c)
  {
    assert |t| == 1 && t[0] == '(' ==> t == OPENING;
    assert |t| == 1 && t[0] == ')' ==> t == CLOSING;
  }

  /** One word that the parser takes for a licence and the annex does not have. */
  lemma PlusInside()
    ensures var e := Alone(One(Name("a+b")));
      && EitherNamed(e) && EitherTokens(e) == Scan("a+b")
      && !exists c :: InAnnexD(c) && CompoundTokens(c) == EitherTokens(e)
  {
    var e, t := Alone(One(Name("a+b"))), "a+b";
    assert t[..|t| - 1][1] == '+';
    assert t[1..] == "+b" && "+b"[1..] == "b" && "b"[1..] == "";
    assert Extent("") == 0 && Extent("b") == 1 && Extent("+b") == 2 && Extent(t) == 3;
    assert t[..3] == t && t[3..] == "" && Scan("") == [];
    assert IsLexeme(t);
    AcceptedIsAnnexD(e);
    assert t in EitherTokens(e) && IsName(t) && !PlusAtEnd(t);
  }

  // ----- the packages a release depends on

  datatype Dependency = Dependency(package: string, normalOrBuild: bool)

  type Graph = map<string, seq<Dependency>>

  predicate DependsOn(nodes: Graph, p: string, q: string) {
    p in nodes && exists d :: d in nodes[p] && d.normalOrBuild && d.package == q
  }

  // A path of normal and build dependencies.
  predicate Path(nodes: Graph, path: seq<string>) {
    path != [] && forall i :: 0 <= i < |path| - 1 ==> DependsOn(nodes, path[i], path[i + 1])
  }

  ghost predicate Reaches(nodes: Graph, p: string, q: string) {
    exists path :: Path(nodes, path) && path[0] == p && path[|path| - 1] == q
  }

  predicate Closed(nodes: Graph) {
    forall p, d :: p in nodes && d in nodes[p] ==> d.package in nodes
  }

  lemma ReachesNext(nodes: Graph, root: string, p: string, q: string)
    requires Reaches(nodes, root, p) && DependsOn(nodes, p, q)
    ensures Reaches(nodes, root, q)
  {
    hide DependsOn;
    var path :| Path(nodes, path) && path[0] == root && path[|path| - 1] == p;
    var longer := path + [q];
    assert Path(nodes, longer) && longer[0] == root && longer[|longer| - 1] == q;
  }

  lemma {:induction false} PathStaysIn(nodes: Graph, seen: set<string>, path: seq<string>)
    requires Path(nodes, path) && path[0] in seen
    requires forall p, q :: p in seen && DependsOn(nodes, p, q) ==> q in seen
    ensures path[|path| - 1] in seen
  {
    hide DependsOn;
    if |path| > 1 {
      PathStaysIn(nodes, seen, path[..|path| - 1]);
    }
  }

  /** The packages found are exactly those that the root reaches, without itself. */
  method Dependencies(nodes: Graph, root: string) returns (found: set<string>)
    requires Closed(nodes) && root in nodes
    ensures forall p :: p in found <==> p != root && Reaches(nodes, root, p)
  {
    hide DependsOn, Reaches;
    var seen: set<string>, pending := {}, [root];
    RootReached(nodes, root);
    while pending != []
      invariant seen <= nodes.Keys && (forall p :: p in pending ==> p in nodes)
      invariant root in seen || root in pending
      invariant forall p :: p in seen || p in pending ==> Reaches(nodes, root, p)
      invariant forall p, q :: p in seen && DependsOn(nodes, p, q) ==> q in seen || q in pending
      decreases nodes.Keys - seen, |pending|
    {
      var p := pending[|pending| - 1];
      pending := pending[..|pending| - 1];
      if p !in seen {
        ghost var before := seen;
        var next := Followed(nodes, p);
        forall q | q in next ensures Reaches(nodes, root, q) {
          ReachesNext(nodes, root, p, q);
        }
        seen := seen + {p};
        pending := pending + next;
        assert nodes.Keys - seen < nodes.Keys - before by {
          assert p in nodes.Keys - before;
        }
      }
    }
    found := seen - {root};
    forall p | Reaches(nodes, root, p) ensures p in seen {
      ReachedIsSeen(nodes, root, seen, p);
    }
  }

  lemma RootReached(nodes: Graph, root: string)
    ensures Reaches(nodes, root, root)
  {
    assert Path(nodes, [root]);
  }

  lemma ReachedIsSeen(nodes: Graph, root: string, seen: set<string>, p: string)
    requires root in seen && Reaches(nodes, root, p)
    requires forall p, q :: p in seen && DependsOn(nodes, p, q) ==> q in seen
    ensures p in seen
  {
    hide DependsOn;
    var path :| Path(nodes, path) && path[0] == root && path[|path| - 1] == p;
    PathStaysIn(nodes, seen, path);
  }

  method Followed(nodes: Graph, p: string) returns (next: seq<string>)
    requires Closed(nodes) && p in nodes
    ensures forall q :: q in next <==> DependsOn(nodes, p, q)
    ensures forall q :: q in next ==> q in nodes
  {
    next := [];
    for i := 0 to |nodes[p]|
      invariant forall q :: q in next <==> exists d :: d in nodes[p][..i] && d.normalOrBuild && d.package == q
      invariant forall q :: q in next ==> q in nodes
    {
      var d := nodes[p][i];
      assert nodes[p][..i + 1] == nodes[p][..i] + [d];
      assert d in nodes[p];
      if d.normalOrBuild {
        next := next + [d.package];
      }
    }
    assert nodes[p][..|nodes[p]|] == nodes[p];
  }
}
