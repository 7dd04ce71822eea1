/**
 What it means for decisions to replace and to contradict one another, said of
 pairs of members (src/policy.rs). No index is needed to say it.
 */
module Decisions {
  import opened Wrappers
  import opened Order

  // A reference from a member to whatever its text names.
  datatype Relation = Relation(field: string, to: string, toVersion: Option<string>, status: string)

  datatype Member = Member(
    id: string, version: string, source: string, native: string, branch: string, origin: string,
    acceptance: string, flags: seq<string>, conflictWith: seq<string>, supersession: Option<string>,
    section: string, required: bool, relations: seq<Relation>, replacements: seq<string>, replacedBy: seq<string>)

  type Scope = (string, string)

  function ScopeOf(m: Member): Scope {
    (m.branch, m.origin)
  }

  // ----- names

  // Unicode `White_Space`.
  predicate IsWhite(c: char) {
    var n := c as int;
    9 <= n <= 13 || n in {0x20, 0x85, 0xA0, 0x1680, 0x2028, 0x2029, 0x202F, 0x205F, 0x3000} || 0x2000 <= n <= 0x200A
  }

  function TrimLeft(s: string): string {
    if s != [] && IsWhite(s[0]) then TrimLeft(s[1..]) else s
  }

  function TrimRight(s: string): string {
    if s != [] && IsWhite(s[|s| - 1]) then TrimRight(s[..|s| - 1]) else s
  }

  function Trim(s: string): string {
    TrimRight(TrimLeft(s))
  }

  // The parts between commas and semicolons.
  function Parts(s: string): (parts: seq<string>)
    ensures parts != []
  {
    if s == [] then [[]]
    else if s[0] == ',' || s[0] == ';' then [[]] + Parts(s[1..])
    else var rest := Parts(s[1..]); [[s[0]] + rest[0]] + rest[1..]
  }

  predicate NamesPart(part: string, native: string) {
    var t := Trim(part);
    t == native || (native <= t && " (" <= t[|native|..])
  }

  predicate Names(target: string, m: Member) {
    || target == m.id
    || target == m.native
    || exists part :: part in Parts(target) && NamesPart(part, m.native)
  }

  // A separator cuts a list of names in two.
  lemma {:induction false} PartsCut(a: string, separator: char, b: string)
    requires ',' !in a && ';' !in a && (separator == ',' || separator == ';')
    ensures Parts(a + [separator] + b) == [a] + Parts(b)
  {
    var s := a + [separator] + b;
    if a == "" {
      assert s[1..] == b;
    } else {
      assert s[1..] == a[1..] + [separator] + b;
      PartsCut(a[1..], separator, b);
      assert a == [a[0]] + a[1..];
    }
  }

  lemma {:induction false} PartsWhole(s: string)
    requires ',' !in s && ';' !in s
    ensures Parts(s) == [s]
  {
    if s != "" {
      PartsWhole(s[1..]);
      assert s == [s[0]] + s[1..];
    }
  }

  predicate AllWhite(s: string) {
    forall c :: c in s ==> IsWhite(c)
  }

  lemma {:induction false} LeftTrimmed(s: string) returns (white: string)
    ensures s == white + TrimLeft(s) && AllWhite(white)
    ensures TrimLeft(s) != "" ==> !IsWhite(TrimLeft(s)[0])
  {
    white := "";
    if s != "" && IsWhite(s[0]) {
      var rest := LeftTrimmed(s[1..]);
      white := [s[0]] + rest;
      assert s == [s[0]] + s[1..];
    }
  }

  lemma {:induction false} RightTrimmed(s: string) returns (white: string)
    ensures s == TrimRight(s) + white && AllWhite(white)
    ensures TrimRight(s) != "" ==> TrimRight(s)[0] == s[0] && !IsWhite(TrimRight(s)[|TrimRight(s)| - 1])
  {
    white := "";
    if s != "" && IsWhite(s[|s| - 1]) {
      var rest := RightTrimmed(s[..|s| - 1]);
      white := rest + [s[|s| - 1]];
      assert s == s[..|s| - 1] + [s[|s| - 1]];
    }
  }

  // What stands in a part once the white around it is gone.
  ghost predicate Holds(part: string, name: string) {
    exists before, after :: AllWhite(before) && AllWhite(after) && part == before + name + after
  }

  lemma TrimMeans(part: string)
    ensures Holds(part, Trim(part))
    ensures Trim(part) != "" ==> !IsWhite(Trim(part)[0]) && !IsWhite(Trim(part)[|Trim(part)| - 1])
  {
    var before := LeftTrimmed(part);
    var after := RightTrimmed(TrimLeft(part));
    assert part == before + Trim(part) + after;
  }

  /** A part names a member by its native name alone, or with a remark in parentheses behind it. */
  lemma NamesPartMeans(part: string, native: string)
    ensures NamesPart(part, native) <==> Trim(part) == native || exists remark :: Trim(part) == native + " (" + remark
  {
    var t := Trim(part);
    if native <= t && " (" <= t[|native|..] {
      var remark := t[|native| + 2..];
      assert t == native + " (" + remark;
    }
    if remark :| t == native + " (" + remark {
      assert t[|native|..] == " (" + remark;
    }
  }

  /** What names a member: its identity, its native name, or a part of a list that holds the latter. */
  lemma NamesMean(target: string, m: Member)
    ensures Names(target, m) <==>
            || target == m.id || target == m.native
            || exists part :: part in Parts(target)
                              && (Trim(part) == m.native || exists remark :: Trim(part) == m.native + " (" + remark)
  {
    hide Trim, Parts;
    forall part ensures NamesPart(part, m.native) <==>
                        Trim(part) == m.native || exists remark :: Trim(part) == m.native + " (" + remark {
      NamesPartMeans(part, m.native);
    }
  }

  // ----- who replaces whom

  predicate NamedIn(ms: seq<Member>, scope: Scope, reference: string, t: nat)
    requires t < |ms|
  {
    ScopeOf(ms[t]) == scope && Names(reference, ms[t])
  }

  // The reference names one member of the scope and no other.
  ghost predicate Resolves(ms: seq<Member>, scope: Scope, reference: string, t: nat)
    requires t < |ms|
  {
    NamedIn(ms, scope, reference, t) && forall u | 0 <= u < |ms| && NamedIn(ms, scope, reference, u) :: u == t
  }

  ghost predicate AnyResolves(ms: seq<Member>, scope: Scope, references: seq<string>, t: nat)
    requires t < |ms|
  {
    exists ref :: ref in references && Resolves(ms, scope, ref, t)
  }

  predicate MayReplaceIn(m: Member, scope: Scope) {
    scope == ScopeOf(m) || (m.origin == "incoming" && scope.1 == "local")
  }

  predicate MayBeReplacedFrom(m: Member, scope: Scope) {
    scope == ScopeOf(m) || (m.origin == "local" && scope.1 == "incoming")
  }

  ghost predicate Claims(ms: seq<Member>, r: nat, t: nat)
    requires r < |ms| && t < |ms|
  {
    MayReplaceIn(ms[r], ScopeOf(ms[t])) && AnyResolves(ms, ScopeOf(ms[t]), ms[r].replacements, t)
  }

  ghost predicate Yields(ms: seq<Member>, t: nat, r: nat)
    requires r < |ms| && t < |ms|
  {
    MayBeReplacedFrom(ms[t], ScopeOf(ms[r])) && AnyResolves(ms, ScopeOf(ms[r]), ms[t].replacedBy, r)
  }

  predicate Arrived(ms: seq<Member>, t: nat, r: nat)
    requires r < |ms| && t < |ms|
  {
    ms[t].origin == "local" && ms[r].origin == "incoming" && ms[t].id == ms[r].id
  }

  /** A replacement of one member by another: claimed, yielded to, or arrived from upstream. */
  ghost predicate Replaces(ms: seq<Member>, t: nat, r: nat)
    requires r < |ms| && t < |ms|
  {
    Claims(ms, r, t) || Yields(ms, t, r) || Arrived(ms, t, r)
  }

  // The identities a member names as replaced within its own scope.
  ghost predicate Targets(ms: seq<Member>, i: nat, id: string)
    requires i < |ms|
  {
    exists t | 0 <= t < |ms| :: AnyResolves(ms, ScopeOf(ms[i]), ms[i].replacements, t) && ms[t].id == id
  }

  // ----- which replacements count

  predicate Upstream(target: Member, r: Member) {
    r.origin == "incoming" && target.origin == "local"
  }

  predicate Itself(target: Member, r: Member) {
    target.id == r.id && target.version == r.version
  }

  // An accepted replacement; a copy of the same decision counts only while it is undecided here.
  predicate Decides(target: Member, r: Member) {
    && !Itself(target, r)
    && r.acceptance == "accepted"
    && (Upstream(target, r) && target.id == r.id ==> target.acceptance in {"proposed", "unverified"})
  }

  ghost predicate Winner(ms: seq<Member>, t: nat, r: nat)
    requires r < |ms| && t < |ms|
  {
    Replaces(ms, t, r) && Decides(ms[t], ms[r])
  }

  // The identities of the accepted replacements, among the first members.
  ghost function WinnersBelow(ms: seq<Member>, t: nat, n: nat): set<string>
    requires t < |ms| && n <= |ms|
  {
    if n == 0 then {} else WinnersBelow(ms, t, n - 1) + if Winner(ms, t, n - 1) then {ms[n - 1].id} else {}
  }

  ghost function Winners(ms: seq<Member>, t: nat): set<string>
    requires t < |ms|
  {
    WinnersBelow(ms, t, |ms|)
  }

  lemma {:induction false} WinnersAreWinners(ms: seq<Member>, t: nat, n: nat, id: string)
    requires t < |ms| && n <= |ms|
    ensures id in WinnersBelow(ms, t, n) <==> exists r :: 0 <= r < n && Winner(ms, t, r) && ms[r].id == id
  {
    hide Winner;
    if n > 0 {
      WinnersAreWinners(ms, t, n - 1, id);
    }
  }

  // ----- contradictions

  /** Two accepted decisions that cannot both stand, neither of which replaces the other. */
  ghost predicate Contradict(ms: seq<Member>, i: nat, j: nat)
    requires i < |ms| && j < |ms|
  {
    var a, b := ms[i], ms[j];
    && i != j && a.acceptance == "accepted" && b.acceptance == "accepted" && a.origin == b.origin
    && (SameNative(a, b) || Compete(ms, i, j))
    && !Targets(ms, i, b.id) && !Targets(ms, j, a.id)
  }

  predicate SameNative(a: Member, b: Member) {
    a.native == b.native && a.source == b.source && a.branch != b.branch && a.version != b.version
  }

  ghost predicate Compete(ms: seq<Member>, i: nat, j: nat)
    requires i < |ms| && j < |ms|
  {
    ms[i].id != ms[j].id && exists id :: Targets(ms, i, id) && Targets(ms, j, id)
  }

  lemma ContradictSymmetric(ms: seq<Member>, i: nat, j: nat)
    requires i < |ms| && j < |ms|
    ensures Contradict(ms, i, j) <==> Contradict(ms, j, i)
  {
    hide Targets;
  }

  // ----- the outcome for one member

  // Replacements taken in index order, as far as one index.
  ghost function After(ms: seq<Member>, t: nat, n: nat): Member
    requires t < |ms| && n <= |ms|
  {
    if n == 0 then ms[t]
    else
      var m := After(ms, t, n - 1);
      if Replaces(ms, t, n - 1) then Weighed(m, ms[t], ms[n - 1]) else m
  }

  // What one replacement does to its target.
  function Weighed(m: Member, target: Member, r: Member): Member {
    if Itself(target, r) then m
    else if Upstream(target, r) && target.id == r.id then
      if Decides(target, r) then m.(supersession := None, section := "resolved_upstream_not_local", required := true)
      else m
    else if r.acceptance == "accepted" then
      m.(supersession := Some(r.id),
         section := if Upstream(target, r) then "resolved_upstream_not_local" else "superseded",
         required := Upstream(target, r))
    else if ScopeOf(target) == ScopeOf(r) then m.(flags := m.flags + ["proposed_replacement: " + r.id])
    else m
  }

  // Two winners are none.
  function Undecided(m: Member, target: Member, winners: seq<string>): Member {
    m.(supersession := None, section := target.section, required := true,
       flags := m.flags + ["supersession_conflict"], conflictWith := m.conflictWith + winners)
  }

  function Conflicting(m: Member, other: Member): Member {
    m.(flags := m.flags + ["conflict"], conflictWith := m.conflictWith + [other.id], required := true)
  }

  ghost function Contradicted(ms: seq<Member>, k: nat, m: Member, n: nat): Member
    requires k < |ms| && n <= |ms|
  {
    if n == 0 then m
    else
      var most := Contradicted(ms, k, m, n - 1);
      if Contradict(ms, k, n - 1) then Conflicting(most, ms[n - 1]) else most
  }

  // A reference to the one member of the scope that it names leads there; one that
  // names several is marked; any other stays as it was.
  ghost predicate Linked(ms: seq<Member>, scope: Scope, was: Relation, now: Relation) {
    && (forall t | 0 <= t < |ms| :: Resolves(ms, scope, was.to, t) ==>
          now == was.(to := ms[t].id, toVersion := Some(ms[t].version), status := "resolved"))
    && ((forall t | 0 <= t < |ms| :: !Resolves(ms, scope, was.to, t)) ==>
          now == if Named(ms, scope, was.to) then was.(status := "ambiguous_endpoint") else was)
  }

  predicate Named(ms: seq<Member>, scope: Scope, reference: string) {
    exists t | 0 <= t < |ms| :: NamedIn(ms, scope, reference, t)
  }

  ghost predicate AllLinked(ms: seq<Member>, scope: Scope, was: seq<Relation>, now: seq<Relation>) {
    |now| == |was| && forall i :: 0 <= i < |was| ==> Linked(ms, scope, was[i], now[i])
  }

  // After all replacements are weighed.
  ghost function Judged(ms: seq<Member>, t: nat, winners: seq<string>): Member
    requires t < |ms|
  {
    var m := After(ms, t, |ms|);
    if |winners| > 1 then Undecided(m, ms[t], winners) else m
  }

  // Everything that reconciling does to one member, except for contradictions.
  ghost predicate Settled(ms: seq<Member>, t: nat, m: Member)
    requires t < |ms|
  {
    exists winners :: Lists(winners, Winners(ms, t)) && |winners| == |Winners(ms, t)|
      && m == Judged(ms, t, winners).(relations := m.relations)
      && AllLinked(ms, ScopeOf(ms[t]), ms[t].relations, m.relations)
  }

  /** The pairwise meaning of reconciling, for one member. */
  ghost predicate Outcome(ms: seq<Member>, t: nat, m: Member)
    requires t < |ms|
  {
    exists s :: Settled(ms, t, s) && m == Contradicted(ms, t, s, |ms|)
  }

  // An identity is one member in each scope, and nothing is superseded yet.
  predicate Proper(ms: seq<Member>) {
    && (forall i, j :: 0 <= i < j < |ms| ==> !(ms[i].id == ms[j].id && ScopeOf(ms[i]) == ScopeOf(ms[j])))
    && (forall m :: m in ms ==> m.supersession == None)
  }

  // A replacement of the same identity is the member itself or its incoming copy.
  lemma SameIdIsUpstream(ms: seq<Member>, t: nat, r: nat)
    requires t < |ms| && r < |ms| && Proper(ms) && Replaces(ms, t, r) && ms[t].id == ms[r].id
    ensures t == r || Upstream(ms[t], ms[r])
  {
    hide Resolves;
    if t < r {
      assert !(ms[t].id == ms[r].id && ScopeOf(ms[t]) == ScopeOf(ms[r]));
    } else if r < t {
      assert !(ms[r].id == ms[t].id && ScopeOf(ms[r]) == ScopeOf(ms[t]));
    }
  }

  lemma {:induction false} AfterSupersession(ms: seq<Member>, t: nat, n: nat)
    requires t < |ms| && n <= |ms| && Proper(ms)
    ensures WinnersBelow(ms, t, n) == {} ==> After(ms, t, n) == ms[t].(flags := After(ms, t, n).flags)
    ensures forall x :: WinnersBelow(ms, t, n) == {x} ==>
      After(ms, t, n).supersession == if x == ms[t].id then None else Some(x)
  {
    hide Replaces;
    if n == 0 {
      assert ms[t] in ms;
    } else {
      AfterSupersession(ms, t, n - 1);
      var was, now := WinnersBelow(ms, t, n - 1), WinnersBelow(ms, t, n);
      if Replaces(ms, t, n - 1) {
        if ms[t].id == ms[n - 1].id {
          SameIdIsUpstream(ms, t, n - 1);
        }
        assert Winner(ms, t, n - 1) <==> Decides(ms[t], ms[n - 1]);
        forall x | now == {x} ensures After(ms, t, n).supersession == if x == ms[t].id then None else Some(x) {
          assert was <= {x};
          assert was == {} || was == {x};
        }
      }
    }
  }

  lemma {:induction false} AfterKeeps(ms: seq<Member>, t: nat, n: nat)
    requires t < |ms| && n <= |ms|
    ensures var m := After(ms, t, n);
      m == ms[t].(supersession := m.supersession, section := m.section, required := m.required, flags := m.flags)
    ensures ms[t].flags <= After(ms, t, n).flags
  {
    hide Replaces;
    if n > 0 {
      AfterKeeps(ms, t, n - 1);
    }
  }

  lemma {:induction false} ContradictedKeeps(ms: seq<Member>, k: nat, m: Member, n: nat)
    requires k < |ms| && n <= |ms|
    ensures var c := Contradicted(ms, k, m, n);
      c == m.(flags := c.flags, conflictWith := c.conflictWith, required := c.required)
    ensures var c := Contradicted(ms, k, m, n);
      m.flags <= c.flags && m.conflictWith <= c.conflictWith && (m.required ==> c.required)
    ensures forall o :: 0 <= o < n && Contradict(ms, k, o) ==> ms[o].id in Contradicted(ms, k, m, n).conflictWith
    ensures (forall o :: 0 <= o < n ==> !Contradict(ms, k, o)) ==> Contradicted(ms, k, m, n) == m
  {
    hide Contradict;
    if n > 0 {
      ContradictedKeeps(ms, k, m, n - 1);
    }
  }

  // ----- what it comes to

  lemma SettledMeans(ms: seq<Member>, t: nat, m: Member)
    requires t < |ms| && Settled(ms, t, m)
    ensures m == ms[t].(supersession := m.supersession, section := m.section, required := m.required, flags := m.flags,
                        conflictWith := m.conflictWith, relations := m.relations)
    ensures ms[t].conflictWith <= m.conflictWith && ms[t].flags <= m.flags
    ensures |Winners(ms, t)| > 1 ==>
      && m.supersession == None && m.section == ms[t].section && m.required && "supersession_conflict" in m.flags
      && forall x :: x in Winners(ms, t) ==> x in m.conflictWith
    ensures |Winners(ms, t)| <= 1 ==>
      && m.conflictWith == ms[t].conflictWith
      && m == After(ms, t, |ms|).(relations := m.relations)
  {
    hide AllLinked, After, Winners;
    AfterKeeps(ms, t, |ms|);
    var winners :| Lists(winners, Winners(ms, t)) && |winners| == |Winners(ms, t)|
      && m == Judged(ms, t, winners).(relations := m.relations)
      && AllLinked(ms, ScopeOf(ms[t]), ms[t].relations, m.relations);
    assert |winners| > 1 ==> "supersession_conflict" in m.flags by {
      if |winners| > 1 {
        assert m.flags[|m.flags| - 1] == "supersession_conflict";
      }
    }
  }

  /** Reconciling never alters what a member is or whether it is accepted. */
  lemma AcceptanceKept(ms: seq<Member>, t: nat, m: Member)
    requires t < |ms| && Outcome(ms, t, m)
    ensures m == ms[t].(supersession := m.supersession, section := m.section, required := m.required, flags := m.flags,
                        conflictWith := m.conflictWith, relations := m.relations)
    ensures m.acceptance == ms[t].acceptance && m.id == ms[t].id && m.version == ms[t].version
  {
    hide Settled, Contradicted;
    var s :| Settled(ms, t, s) && m == Contradicted(ms, t, s, |ms|);
    SettledMeans(ms, t, s);
    ContradictedKeeps(ms, t, s, |ms|);
  }

  lemma OneWinner(ms: seq<Member>, t: nat)
    requires t < |ms|
    ensures |Winners(ms, t)| == 0 ==> Winners(ms, t) == {}
    ensures |Winners(ms, t)| == 1 ==> exists x :: Winners(ms, t) == {x}
    ensures forall x :: Winners(ms, t) == {x} ==> |Winners(ms, t)| == 1
  {
    hide WinnersBelow;
    var w := Winners(ms, t);
    if |w| == 1 {
      var x :| x in w;
      assert |w - {x}| == 0;
      assert w == {x};
    }
  }

  /**
   A member ends superseded by an identity exactly when that is its only accepted
   replacement and not its own.
   */
  lemma SupersededIff(ms: seq<Member>, t: nat, m: Member, x: string)
    requires t < |ms| && Outcome(ms, t, m) && Proper(ms)
    ensures m.supersession == Some(x) <==> Winners(ms, t) == {x} && x != ms[t].id
  {
    hide Settled, Contradicted, After, Winners;
    var s :| Settled(ms, t, s) && m == Contradicted(ms, t, s, |ms|);
    SettledMeans(ms, t, s);
    ContradictedKeeps(ms, t, s, |ms|);
    WinnersAll(ms, t);
    AfterSupersession(ms, t, |ms|);
    OneWinner(ms, t);
    assert ms[t] in ms;
  }

  lemma WinnersAll(ms: seq<Member>, t: nat)
    requires t < |ms|
    ensures Winners(ms, t) == WinnersBelow(ms, t, |ms|)
  {
  }

  /** Several accepted replacements are no decision: no winner, and a flag that names them all. */
  lemma SeveralWinners(ms: seq<Member>, t: nat, m: Member)
    requires t < |ms| && Outcome(ms, t, m) && |Winners(ms, t)| > 1
    ensures m.supersession == None && m.section == ms[t].section && m.required && "supersession_conflict" in m.flags
    ensures forall x :: x in Winners(ms, t) ==> x in m.conflictWith
  {
    hide Settled, Contradicted, Winners;
    var s :| Settled(ms, t, s) && m == Contradicted(ms, t, s, |ms|);
    SettledMeans(ms, t, s);
    ContradictedKeeps(ms, t, s, |ms|);
  }

  /** Of two members that contradict each other, each names the other and is required. */
  lemma ContradictionsMutual(ms: seq<Member>, i: nat, j: nat, a: Member, b: Member)
    requires i < |ms| && j < |ms| && Outcome(ms, i, a) && Outcome(ms, j, b) && Contradict(ms, i, j)
    ensures ms[j].id in a.conflictWith && ms[i].id in b.conflictWith && a.required && b.required
  {
    hide Settled, Contradict;
    ContradictSymmetric(ms, i, j);
    ContradictionNamed(ms, i, j, a);
    ContradictionNamed(ms, j, i, b);
  }

  lemma ContradictionNamed(ms: seq<Member>, i: nat, j: nat, a: Member)
    requires i < |ms| && j < |ms| && Outcome(ms, i, a) && Contradict(ms, i, j)
    ensures ms[j].id in a.conflictWith && a.required
  {
    hide Settled, Contradict;
    var s :| Settled(ms, i, s) && a == Contradicted(ms, i, s, |ms|);
    ContradictedKeeps(ms, i, s, |ms|);
    ContradictedRequired(ms, i, s, |ms|, j);
  }

  lemma {:induction false} ContradictedRequired(ms: seq<Member>, k: nat, m: Member, n: nat, o: nat)
    requires k < |ms| && o < n <= |ms| && Contradict(ms, k, o)
    ensures Contradicted(ms, k, m, n).required
  {
    hide Contradict;
    if o < n - 1 {
      ContradictedRequired(ms, k, m, n - 1, o);
    }
  }

  /** A member that nothing replaces or contradicts keeps its place; only its references may have been resolved. */
  lemma LeftAlone(ms: seq<Member>, t: nat, m: Member)
    requires t < |ms| && Outcome(ms, t, m) && Proper(ms)
    requires Winners(ms, t) == {} && forall o :: 0 <= o < |ms| ==> !Contradict(ms, t, o)
    ensures m.supersession == ms[t].supersession && m.section == ms[t].section && m.required == ms[t].required
    ensures m.conflictWith == ms[t].conflictWith
  {
    hide Settled, Contradicted, Contradict, After, Winners;
    var s :| Settled(ms, t, s) && m == Contradicted(ms, t, s, |ms|);
    SettledMeans(ms, t, s);
    ContradictedKeeps(ms, t, s, |ms|);
    WinnersAll(ms, t);
    AfterSupersession(ms, t, |ms|);
    OneWinner(ms, t);
  }

  // ----- where a replaced member ends

  // A decision from upstream about a local one.
  predicate FromUpstream(ms: seq<Member>, t: nat, r: nat)
    requires t < |ms| && r < |ms|
  {
    ms[r].origin == "incoming" && ms[t].origin == "local"
  }

  // The accepted replacement with the greatest index below some index.
  ghost predicate LastWinnerBelow(ms: seq<Member>, t: nat, r: nat, n: nat)
    requires t < |ms| && n <= |ms|
  {
    r < n && Winner(ms, t, r) && forall q :: r < q < n ==> !Winner(ms, t, q)
  }

  lemma {:induction false} AfterSection(ms: seq<Member>, t: nat, n: nat)
    requires t < |ms| && n <= |ms|
    ensures forall r: nat :: LastWinnerBelow(ms, t, r, n) ==>
      && After(ms, t, n).section == (if FromUpstream(ms, t, r) then "resolved_upstream_not_local" else "superseded")
      && (After(ms, t, n).required <==> FromUpstream(ms, t, r))
  {
    hide Replaces;
    if n > 0 {
      AfterSection(ms, t, n - 1);
      forall r: nat | LastWinnerBelow(ms, t, r, n) && r < n - 1 ensures LastWinnerBelow(ms, t, r, n - 1) {
      }
      assert Winner(ms, t, n - 1) ==> forall r: nat :: LastWinnerBelow(ms, t, r, n) ==> r == n - 1;
    }
  }

  lemma {:induction false} FindLastWinner(ms: seq<Member>, t: nat, n: nat) returns (r: nat)
    requires t < |ms| && n <= |ms| && WinnersBelow(ms, t, n) != {}
    ensures LastWinnerBelow(ms, t, r, n)
  {
    hide Winner;
    if Winner(ms, t, n - 1) {
      r := n - 1;
    } else {
      r := FindLastWinner(ms, t, n - 1);
    }
  }

  lemma {:induction false} ContradictedRequires(ms: seq<Member>, k: nat, m: Member, n: nat)
    requires k < |ms| && n <= |ms|
    ensures Contradicted(ms, k, m, n).required <==> m.required || exists o :: 0 <= o < n && Contradict(ms, k, o)
  {
    hide Contradict;
    if n > 0 {
      ContradictedRequires(ms, k, m, n - 1);
    }
  }

  /** Where all accepted replacements are one decision, the last of its copies says where the member ends. */
  lemma LastWinnerDecides(ms: seq<Member>, t: nat, m: Member, r: nat)
    requires t < |ms| && Outcome(ms, t, m) && |Winners(ms, t)| == 1 && LastWinnerBelow(ms, t, r, |ms|)
    ensures FromUpstream(ms, t, r) ==> m.section == "resolved_upstream_not_local" && m.required
    ensures !FromUpstream(ms, t, r) ==>
      m.section == "superseded" && (m.required <==> exists o :: 0 <= o < |ms| && Contradict(ms, t, o))
  {
    hide Settled, Contradicted, Contradict, After, Winners, LastWinnerBelow;
    var s :| Settled(ms, t, s) && m == Contradicted(ms, t, s, |ms|);
    SettledMeans(ms, t, s);
    ContradictedKeeps(ms, t, s, |ms|);
    ContradictedRequires(ms, t, s, |ms|);
    AfterSection(ms, t, |ms|);
  }

  /**
   A decision replaced from within ends superseded, and is required only if it contradicts
   another; one replaced from upstream stays required, as resolved there and not here.
   */
  lemma ReplacedEnds(ms: seq<Member>, t: nat, m: Member, x: string)
    requires t < |ms| && Outcome(ms, t, m) && Proper(ms) && Winners(ms, t) == {x} && x != ms[t].id
    ensures m.supersession == Some(x)
    ensures (forall r: nat :: r < |ms| && Winner(ms, t, r) ==> !FromUpstream(ms, t, r)) ==>
      m.section == "superseded" && (m.required <==> exists o :: 0 <= o < |ms| && Contradict(ms, t, o))
    ensures (forall r: nat :: r < |ms| && Winner(ms, t, r) ==> FromUpstream(ms, t, r)) ==>
      m.section == "resolved_upstream_not_local" && m.required
  {
    hide Outcome, Winner, Contradict;
    OneWinner(ms, t);
    SupersededIff(ms, t, m, x);
    var r := FindLastWinner(ms, t, |ms|);
    LastWinnerDecides(ms, t, m, r);
  }

  /** A pending decision whose own accepted copy came from upstream is resolved there, and supersedes nothing. */
  lemma ResolvedByItself(ms: seq<Member>, t: nat, m: Member)
    requires t < |ms| && Outcome(ms, t, m) && Proper(ms) && Winners(ms, t) == {ms[t].id}
    ensures m.section == "resolved_upstream_not_local" && m.required && m.supersession == None
  {
    hide Outcome, Contradict, Replaces;
    OneWinner(ms, t);
    var r := FindLastWinner(ms, t, |ms|);
    WinnersAreWinners(ms, t, |ms|, ms[r].id);
    SameIdIsUpstream(ms, t, r);
    LastWinnerDecides(ms, t, m, r);
    if m.supersession.Some? {
      SupersededIff(ms, t, m, m.supersession.value);
    }
  }

  // ----- flags and conflicts

  // A replacement within the scope that is not accepted yet.
  ghost predicate Proposes(ms: seq<Member>, t: nat, r: nat)
    requires t < |ms| && r < |ms|
  {
    && Replaces(ms, t, r) && ScopeOf(ms[r]) == ScopeOf(ms[t]) && ms[r].acceptance != "accepted"
    && !(ms[r].id == ms[t].id && ms[r].version == ms[t].version)
  }

  ghost predicate ProposalFlag(ms: seq<Member>, t: nat, n: nat, flag: string)
    requires t < |ms| && n <= |ms|
  {
    exists r :: 0 <= r < n && Proposes(ms, t, r) && flag == "proposed_replacement: " + ms[r].id
  }

  lemma {:induction false} AfterFlags(ms: seq<Member>, t: nat, n: nat, flag: string)
    requires t < |ms| && n <= |ms|
    ensures flag in After(ms, t, n).flags <==> flag in ms[t].flags || ProposalFlag(ms, t, n, flag)
  {
    hide Replaces;
    if n > 0 {
      AfterFlags(ms, t, n - 1, flag);
      var was, now := After(ms, t, n - 1), After(ms, t, n);
      assert now.flags == if Proposes(ms, t, n - 1) then was.flags + ["proposed_replacement: " + ms[n - 1].id]
                          else was.flags;
    }
  }

  lemma {:induction false} ContradictedFlags(ms: seq<Member>, k: nat, m: Member, n: nat, flag: string, id: string)
    requires k < |ms| && n <= |ms|
    ensures flag in Contradicted(ms, k, m, n).flags <==>
            flag in m.flags || (flag == "conflict" && exists o :: 0 <= o < n && Contradict(ms, k, o))
    ensures id in Contradicted(ms, k, m, n).conflictWith <==>
            id in m.conflictWith || exists o :: 0 <= o < n && Contradict(ms, k, o) && ms[o].id == id
  {
    hide Contradict;
    if n > 0 {
      ContradictedFlags(ms, k, m, n - 1, flag, id);
    }
  }

  lemma SettledFlags(ms: seq<Member>, t: nat, m: Member, flag: string, id: string)
    requires t < |ms| && Settled(ms, t, m)
    ensures flag in m.flags <==>
            flag in After(ms, t, |ms|).flags || (flag == "supersession_conflict" && |Winners(ms, t)| > 1)
    ensures id in m.conflictWith <==> id in ms[t].conflictWith || (id in Winners(ms, t) && |Winners(ms, t)| > 1)
  {
    hide AllLinked, After, Winners;
    AfterKeeps(ms, t, |ms|);
    var winners :| Lists(winners, Winners(ms, t)) && |winners| == |Winners(ms, t)|
      && m == Judged(ms, t, winners).(relations := m.relations)
      && AllLinked(ms, ScopeOf(ms[t]), ms[t].relations, m.relations);
  }

  /** Exactly what a member is flagged with, and exactly what it is said to conflict with. */
  lemma FlagsMean(ms: seq<Member>, t: nat, m: Member, flag: string, id: string)
    requires t < |ms| && Outcome(ms, t, m)
    ensures flag in m.flags <==>
            || flag in ms[t].flags || ProposalFlag(ms, t, |ms|, flag)
            || (flag == "supersession_conflict" && |Winners(ms, t)| > 1)
            || (flag == "conflict" && exists o :: 0 <= o < |ms| && Contradict(ms, t, o))
    ensures id in m.conflictWith <==>
            || id in ms[t].conflictWith || (id in Winners(ms, t) && |Winners(ms, t)| > 1)
            || exists o :: 0 <= o < |ms| && Contradict(ms, t, o) && ms[o].id == id
  {
    hide Settled, Contradicted, Contradict, Winners, ProposalFlag, After;
    var s :| Settled(ms, t, s) && m == Contradicted(ms, t, s, |ms|);
    SettledFlags(ms, t, s, flag, id);
    ContradictedFlags(ms, t, s, |ms|, flag, id);
    AfterFlags(ms, t, |ms|, flag);
  }
}
