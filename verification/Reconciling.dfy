/**
 Reconciling members with indexes (src/policy.rs `reconcile`): every reference is
 resolved once for each scope. The outcome for each member is the pairwise one.
 */
module Reconciling {
  import opened Wrappers
  import opened Order
  import opened Decisions

  type Resolutions = map<(Scope, string), seq<nat>>

  // The members of a scope that a reference names, in index order.
  function Matching(ms: seq<Member>, scope: Scope, reference: string, n: nat): seq<nat>
    requires n <= |ms|
  {
    if n == 0 then []
    else Matching(ms, scope, reference, n - 1) + if NamedIn(ms, scope, reference, n - 1) then [n - 1] else []
  }

  lemma {:induction false} MatchingIsNamed(ms: seq<Member>, scope: Scope, reference: string, n: nat, t: nat)
    requires n <= |ms|
    ensures t in Matching(ms, scope, reference, n) <==> t < n && NamedIn(ms, scope, reference, t)
    ensures forall i :: 0 <= i < |Matching(ms, scope, reference, n)| ==> Matching(ms, scope, reference, n)[i] < n
    ensures forall i, j :: 0 <= i < j < |Matching(ms, scope, reference, n)| ==>
      Matching(ms, scope, reference, n)[i] != Matching(ms, scope, reference, n)[j]
  {
    hide NamedIn;
    if n > 0 {
      MatchingIsNamed(ms, scope, reference, n - 1, t);
    }
  }

  lemma Alone(found: seq<nat>, t: nat)
    requires t in found && forall u :: u in found ==> u == t
    requires forall i, j :: 0 <= i < j < |found| ==> found[i] != found[j]
    ensures found == [t]
  {
    var last := |found| - 1;
    assert found[0] in found && found[last] in found;
  }

  // One match is a resolution; none and several are not.
  lemma MatchingResolves(ms: seq<Member>, scope: Scope, reference: string, t: nat)
    requires t < |ms|
    ensures Resolves(ms, scope, reference, t) <==> Matching(ms, scope, reference, |ms|) == [t]
  {
    hide NamedIn;
    var found := Matching(ms, scope, reference, |ms|);
    forall u | 0 <= u < |ms| ensures u in found <==> NamedIn(ms, scope, reference, u) {
      MatchingIsNamed(ms, scope, reference, |ms|, u);
    }
    MatchingIsNamed(ms, scope, reference, |ms|, t);
    if Resolves(ms, scope, reference, t) {
      assert t in found;
      Alone(found, t);
    }
    if found == [t] {
      assert forall u :: u in found ==> u == t;
    }
  }

  lemma MatchingNamed(ms: seq<Member>, scope: Scope, reference: string)
    ensures Named(ms, scope, reference) <==> Matching(ms, scope, reference, |ms|) != []
  {
    hide NamedIn;
    var found := Matching(ms, scope, reference, |ms|);
    forall u | 0 <= u < |ms| ensures u in found <==> NamedIn(ms, scope, reference, u) {
      MatchingIsNamed(ms, scope, reference, |ms|, u);
    }
    if found != [] {
      MatchingIsNamed(ms, scope, reference, |ms|, found[0]);
      assert found[0] in found;
    }
  }

  // Positions by scope, and the incoming ones by identity.
  function InScope(ms: seq<Member>, scope: Scope, n: nat): seq<nat>
    requires n <= |ms|
  {
    if n == 0 then [] else InScope(ms, scope, n - 1) + if ScopeOf(ms[n - 1]) == scope then [n - 1] else []
  }

  predicate Scoped(ms: seq<Member>, scopes: map<Scope, seq<nat>>, n: nat)
    requires n <= |ms|
  {
    && (forall i :: 0 <= i < n ==> ScopeOf(ms[i]) in scopes)
    && (forall s :: s in scopes ==> scopes[s] == InScope(ms, s, n))
  }

  ghost predicate IncomingBelow(ms: seq<Member>, incoming: map<string, seq<nat>>, n: nat)
    requires n <= |ms|
  {
    && (forall id :: id in incoming ==> forall r :: r in incoming[id] ==>
        r < n && ms[r].origin == "incoming" && ms[r].id == id)
    && (forall r :: 0 <= r < n && ms[r].origin == "incoming" ==> ms[r].id in incoming && r in incoming[ms[r].id])
  }

  predicate Referenced(m: Member, references: set<string>) {
    && (forall x :: x in m.replacements ==> x in references)
    && (forall x :: x in m.replacedBy ==> x in references)
    && (forall l :: l in m.relations ==> l.to in references)
  }

  // Every reference of every member can be looked up in every scope, and says what it names there.
  ghost predicate Resolved(ms: seq<Member>, scopes: set<Scope>, references: set<string>, resolutions: Resolutions) {
    && (forall i :: 0 <= i < |ms| ==> ScopeOf(ms[i]) in scopes && Referenced(ms[i], references))
    && (forall s, x :: s in scopes && x in references ==>
          (s, x) in resolutions && resolutions[(s, x)] == Matching(ms, s, x, |ms|))
  }

  method Index(ms: seq<Member>)
    returns (scopes: map<Scope, seq<nat>>, incoming: map<string, seq<nat>>, references: set<string>)
    ensures Scoped(ms, scopes, |ms|) && IncomingBelow(ms, incoming, |ms|)
    ensures forall i :: 0 <= i < |ms| ==> Referenced(ms[i], references)
  {
    hide Scoped, IncomingBelow, Referenced;
    scopes, incoming, references := map[], map[], {};
    IndexNone(ms);
    for i := 0 to |ms|
      invariant Scoped(ms, scopes, i) && IncomingBelow(ms, incoming, i)
      invariant forall j :: 0 <= j < i ==> Referenced(ms[j], references)
    {
      var m := ms[i];
      var scope := ScopeOf(m);
      ScopedNext(ms, scopes, i);
      IncomingNext(ms, incoming, i);
      scopes := scopes[scope := (if scope in scopes then scopes[scope] else []) + [i]];
      if m.origin == "incoming" {
        incoming := incoming[m.id := (if m.id in incoming then incoming[m.id] else []) + [i]];
      }
      OwnReferences(m);
      ReferencedMore(ms, i, references,
                     (set x | x in m.replacements) + (set x | x in m.replacedBy) + (set l | l in m.relations :: l.to));
      references := references
          + ((set x | x in m.replacements) + (set x | x in m.replacedBy) + (set l | l in m.relations :: l.to));
    }
  }

  lemma IndexNone(ms: seq<Member>)
    ensures Scoped(ms, map[], 0) && IncomingBelow(ms, map[], 0)
  {
  }

  lemma ScopedNext(ms: seq<Member>, scopes: map<Scope, seq<nat>>, i: nat)
    requires i < |ms| && Scoped(ms, scopes, i)
    ensures var scope := ScopeOf(ms[i]);
      Scoped(ms, scopes[scope := (if scope in scopes then scopes[scope] else []) + [i]], i + 1)
  {
    if ScopeOf(ms[i]) !in scopes {
      NotInScope(ms, ScopeOf(ms[i]), i);
    }
  }

  lemma IncomingNext(ms: seq<Member>, incoming: map<string, seq<nat>>, i: nat)
    requires i < |ms| && IncomingBelow(ms, incoming, i)
    ensures var m := ms[i];
      IncomingBelow(ms,
                    if m.origin == "incoming"
                    then incoming[m.id := (if m.id in incoming then incoming[m.id] else []) + [i]] else incoming,
                    i + 1)
  {
  }

  lemma OwnReferences(m: Member)
    ensures Referenced(m,
                       (set x | x in m.replacements) + (set x | x in m.replacedBy) + (set l | l in m.relations :: l.to))
  {
  }

  lemma ReferencedMore(ms: seq<Member>, i: nat, references: set<string>, more: set<string>)
    requires i < |ms| && forall j :: 0 <= j < i ==> Referenced(ms[j], references)
    requires Referenced(ms[i], more)
    ensures forall j :: 0 <= j < i + 1 ==> Referenced(ms[j], references + more)
  {
  }

  lemma {:induction false} NotInScope(ms: seq<Member>, scope: Scope, n: nat)
    requires n <= |ms| && forall i :: 0 <= i < n ==> ScopeOf(ms[i]) != scope
    ensures InScope(ms, scope, n) == []
  {
    if n > 0 {
      NotInScope(ms, scope, n - 1);
    }
  }

  // The members of one scope that one reference names.
  method Match(ms: seq<Member>, scope: Scope, indices: seq<nat>, reference: string) returns (matches: seq<nat>)
    requires indices == InScope(ms, scope, |ms|)
    ensures matches == Matching(ms, scope, reference, |ms|)
  {
    hide Names;
    matches := [];
    FilteredMatches(ms, scope, reference, |ms|);
    for i := 0 to |indices|
      invariant forall j :: 0 <= j < |indices| ==> indices[j] < |ms|
      invariant matches == Filtered(ms, indices[..i], reference)
    {
      assert indices[..i + 1] == indices[..i] + [indices[i]];
      if Names(reference, ms[indices[i]]) {
        matches := matches + [indices[i]];
      }
    }
    assert indices[..|indices|] == indices;
  }

  function Filtered(ms: seq<Member>, indices: seq<nat>, reference: string): seq<nat>
    requires forall j :: 0 <= j < |indices| ==> indices[j] < |ms|
  {
    if indices == [] then []
    else
      Filtered(ms, indices[..|indices| - 1], reference)
      + if Names(reference, ms[indices[|indices| - 1]]) then [indices[|indices| - 1]] else []
  }

  lemma {:induction false} FilteredMatches(ms: seq<Member>, scope: Scope, reference: string, n: nat)
    requires n <= |ms|
    ensures forall j :: 0 <= j < |InScope(ms, scope, n)| ==> InScope(ms, scope, n)[j] < n
    ensures Filtered(ms, InScope(ms, scope, n), reference) == Matching(ms, scope, reference, n)
  {
    hide Names;
    if n > 0 {
      FilteredMatches(ms, scope, reference, n - 1);
      var most, all := InScope(ms, scope, n - 1), InScope(ms, scope, n);
      if ScopeOf(ms[n - 1]) == scope {
        assert all == most + [n - 1] && all[..|all| - 1] == most && all[|all| - 1] == n - 1;
        assert NamedIn(ms, scope, reference, n - 1) <==> Names(reference, ms[n - 1]);
      } else {
        assert all == most;
      }
    }
  }

  method Resolve(ms: seq<Member>, scopes: map<Scope, seq<nat>>, references: set<string>)
    returns (resolutions: Resolutions)
    requires Scoped(ms, scopes, |ms|) && forall i :: 0 <= i < |ms| ==> Referenced(ms[i], references)
    ensures Resolved(ms, scopes.Keys, references, resolutions)
  {
    hide Referenced, Matching, InScope;
    resolutions := map[];
    var todo := scopes.Keys;
    while todo != {}
      invariant todo <= scopes.Keys
      invariant forall s, x :: s in scopes && s !in todo && x in references ==>
        (s, x) in resolutions && resolutions[(s, x)] == Matching(ms, s, x, |ms|)
      decreases todo
    {
      var scope :| scope in todo;
      var left := references;
      while left != {}
        invariant left <= references
        invariant forall s, x :: s in scopes && x in references && (s !in todo || (s == scope && x !in left)) ==>
          (s, x) in resolutions && resolutions[(s, x)] == Matching(ms, s, x, |ms|)
        decreases left
      {
        var reference :| reference in left;
        var matches := Match(ms, scope, scopes[scope], reference);
        resolutions := resolutions[(scope, reference) := matches];
        left := left - {reference};
      }
      todo := todo - {scope};
    }
  }

  // ----- candidates

  // The members that some references resolve to, in the scopes allowed.
  method Gather(ms: seq<Member>, names: seq<string>, allowed: set<Scope>, ghost scopes: set<Scope>,
                ghost references: set<string>,
                resolutions: Resolutions) returns (found: set<nat>)
    requires Resolved(ms, scopes, references, resolutions) && allowed <= scopes
    requires forall x :: x in names ==> x in references
    ensures forall t: nat :: t in found <==>
      t < |ms| && ScopeOf(ms[t]) in allowed && AnyResolves(ms, ScopeOf(ms[t]), names, t)
  {
    hide Referenced, Matching, Resolves, AnyResolves;
    found := {};
    var todo := allowed;
    while todo != {}
      invariant todo <= allowed
      invariant forall t: nat :: t in found <==>
        t < |ms| && ScopeOf(ms[t]) in allowed - todo && AnyResolves(ms, ScopeOf(ms[t]), names, t)
      decreases todo
    {
      var scope :| scope in todo;
      ghost var before := found;
      assert names[..0] == [];
      NothingResolves(ms, scope);
      for i := 0 to |names|
        invariant forall t: nat :: t in found <==>
          t in before || (t < |ms| && ScopeOf(ms[t]) == scope && AnyResolves(ms, scope, names[..i], t))
      {
        var matches := resolutions[(scope, names[i])];
        ghost var was := found;
        AnyResolvesNext(ms, scope, names, i);
        OnlyMatch(ms, scope, names[i]);
        if |matches| == 1 {
          found := found + {matches[0]};
        }
      }
      assert names[..|names|] == names;
      todo := todo - {scope};
    }
    assert allowed - todo == allowed;
  }

  lemma OnlyMatch(ms: seq<Member>, scope: Scope, reference: string)
    ensures forall t: nat :: t < |ms| && Resolves(ms, scope, reference, t) ==>
      Matching(ms, scope, reference, |ms|) == [t]
    ensures forall i :: 0 <= i < |Matching(ms, scope, reference, |ms|)| ==>
      Matching(ms, scope, reference, |ms|)[i] < |ms|
    ensures |Matching(ms, scope, reference, |ms|)| == 1 ==>
      var t := Matching(ms, scope, reference, |ms|)[0];
      t < |ms| && Resolves(ms, scope, reference, t) && ScopeOf(ms[t]) == scope
  {
    hide Resolves, Names;
    MatchingIsNamed(ms, scope, reference, |ms|, 0);
    forall t: nat | t < |ms| ensures Resolves(ms, scope, reference, t) <==>
      Matching(ms, scope, reference, |ms|) == [t] {
      MatchingResolves(ms, scope, reference, t);
    }
    var found := Matching(ms, scope, reference, |ms|);
    if |found| == 1 {
      assert found == [found[0]];
      MatchingIsNamed(ms, scope, reference, |ms|, found[0]);
    }
  }

  lemma NothingResolves(ms: seq<Member>, scope: Scope)
    ensures forall t: nat :: t < |ms| ==> !AnyResolves(ms, scope, [], t)
  {
  }

  lemma AnyResolvesNext(ms: seq<Member>, scope: Scope, names: seq<string>, i: nat)
    requires i < |names|
    ensures forall t: nat :: t < |ms| ==>
      (AnyResolves(ms, scope, names[..i + 1], t) <==>
       AnyResolves(ms, scope, names[..i], t) || Resolves(ms, scope, names[i], t))
  {
    hide Resolves;
    assert names[..i + 1] == names[..i] + [names[i]];
  }

  // The candidates that the members below an index have brought in.
  ghost predicate Gathered(ms: seq<Member>, candidates: seq<set<nat>>, n: nat) {
    && |candidates| == |ms|
    && forall t: nat, r: nat :: t < |ms| ==>
         (r in candidates[t] <==>
          r < |ms| && ((r < n && Claims(ms, r, t)) || (t < n && (Yields(ms, t, r) || Arrived(ms, t, r)))))
  }

  ghost predicate TargetsOf(ms: seq<Member>, i: nat, ids: set<string>)
    requires i < |ms|
  {
    forall id :: id in ids <==> Targets(ms, i, id)
  }

  lemma GatheredNext(ms: seq<Member>, before: seq<set<nat>>, after: seq<set<nat>>, i: nat, downs: set<nat>,
                     ups: set<nat>, arrived: set<nat>)
    requires i < |ms| && Gathered(ms, before, i) && |after| == |ms|
    requires forall t: nat :: t in downs <==> t < |ms| && Claims(ms, i, t)
    requires forall r: nat :: r in ups <==> r < |ms| && Yields(ms, i, r)
    requires forall r: nat :: r in arrived <==> r < |ms| && Arrived(ms, i, r)
    requires forall t: nat :: t < |ms| ==>
      after[t] == before[t] + (if t in downs then {i} else {}) + (if t == i then ups + arrived else {})
    ensures Gathered(ms, after, i + 1)
  {
    hide Claims, Yields, Arrived;
  }

  lemma OwnTargets(ms: seq<Member>, i: nat, downs: set<nat>)
    requires i < |ms| && forall t: nat :: t in downs <==> t < |ms| && Claims(ms, i, t)
    ensures TargetsOf(ms, i, set t | t in downs && ScopeOf(ms[t]) == ScopeOf(ms[i]) :: ms[t].id)
  {
    hide AnyResolves;
    var ids := set t | t in downs && ScopeOf(ms[t]) == ScopeOf(ms[i]) :: ms[t].id;
    forall id | Targets(ms, i, id) ensures id in ids {
      var t: nat :| t < |ms| && AnyResolves(ms, ScopeOf(ms[i]), ms[i].replacements, t) && ms[t].id == id;
      AnyInScope(ms, ScopeOf(ms[i]), ms[i].replacements, t);
      assert t in downs;
    }
  }

  lemma AnyInScope(ms: seq<Member>, scope: Scope, references: seq<string>, t: nat)
    requires t < |ms| && AnyResolves(ms, scope, references, t)
    ensures ScopeOf(ms[t]) == scope && references != []
  {
  }

  method Candidates(ms: seq<Member>, scopes: map<Scope, seq<nat>>, incoming: map<string, seq<nat>>,
                    ghost references: set<string>,
                    resolutions: Resolutions) returns (candidates: seq<set<nat>>, targets: seq<set<string>>)
    requires Resolved(ms, scopes.Keys, references, resolutions) && IncomingBelow(ms, incoming, |ms|)
    ensures Gathered(ms, candidates, |ms|)
    ensures |targets| == |ms| && forall i :: 0 <= i < |ms| ==> TargetsOf(ms, i, targets[i])
  {
    hide Resolved, IncomingBelow, TargetsOf, Gathered;
    candidates, targets := seq(|ms|, _ => {}), [];
    GatheredNone(ms);
    for i := 0 to |ms|
      invariant Gathered(ms, candidates, i) && |candidates| == |ms|
      invariant |targets| == i && forall j :: 0 <= j < i ==> TargetsOf(ms, j, targets[j])
    {
      ghost var before := candidates;
      var downs, ups, arrived := Links(ms, i, scopes, incoming, references, resolutions);
      OwnTargets(ms, i, downs);
      targets := targets + [set t | t in downs && ScopeOf(ms[t]) == ScopeOf(ms[i]) :: ms[t].id];
      candidates := AddTo(candidates, downs, i);
      candidates := candidates[i := candidates[i] + ups + arrived];
      GatheredNext(ms, before, candidates, i, downs, ups, arrived);
      GatheredLength(ms, candidates, i + 1);
    }
  }

  lemma GatheredNone(ms: seq<Member>)
    ensures Gathered(ms, seq(|ms|, _ => {}), 0)
  {
  }

  lemma GatheredLength(ms: seq<Member>, candidates: seq<set<nat>>, n: nat)
    requires Gathered(ms, candidates, n)
    ensures |candidates| == |ms|
  {
  }

  method AddTo(candidates: seq<set<nat>>, downs: set<nat>, i: nat) returns (added: seq<set<nat>>)
    requires forall t :: t in downs ==> t < |candidates|
    ensures |added| == |candidates|
    ensures forall t: nat :: t < |candidates| ==> added[t] == candidates[t] + if t in downs then {i} else {}
  {
    added := candidates;
    var left := downs;
    while left != {}
      invariant left <= downs && |added| == |candidates|
      invariant forall t: nat :: t < |candidates| ==> added[t] == candidates[t] + if t in downs - left then {i} else {}
      decreases left
    {
      var t :| t in left;
      added := added[t := added[t] + {i}];
      left := left - {t};
    }
  }

  // What one member claims to replace, yields to, and has arrived upstream.
  method Links(ms: seq<Member>, i: nat, scopes: map<Scope, seq<nat>>, incoming: map<string, seq<nat>>,
               ghost references: set<string>,
               resolutions: Resolutions) returns (downs: set<nat>, ups: set<nat>, arrived: set<nat>)
    requires i < |ms| && Resolved(ms, scopes.Keys, references, resolutions) && IncomingBelow(ms, incoming, |ms|)
    ensures forall t: nat :: t in downs <==> t < |ms| && Claims(ms, i, t)
    ensures forall r: nat :: r in ups <==> r < |ms| && Yields(ms, i, r)
    ensures forall r: nat :: r in arrived <==> r < |ms| && Arrived(ms, i, r)
  {
    hide AnyResolves, Matching;
    var m := ms[i];
    NothingIn(ms);
    downs, ups, arrived := {}, {}, {};
    if m.replacements != [] {
      downs := Gather(ms, m.replacements, (set s | s in scopes && MayReplaceIn(m, s)), scopes.Keys, references,
                      resolutions);
    }
    if m.replacedBy != [] {
      ups := Gather(ms, m.replacedBy, (set s | s in scopes && MayBeReplacedFrom(m, s)), scopes.Keys, references,
                    resolutions);
    }
    if m.origin == "local" && m.id in incoming {
      arrived := set r | r in incoming[m.id];
    }
  }

  lemma NothingIn(ms: seq<Member>)
    ensures forall t: nat, scope :: t < |ms| ==> !AnyResolves(ms, scope, [], t)
  {
  }

  // ----- one member

  method Settle(ms: seq<Member>, t: nat, candidates: set<nat>, scopes: set<Scope>, references: set<string>,
                resolutions: Resolutions)
    returns (m: Member)
    requires t < |ms| && Resolved(ms, scopes, references, resolutions)
    requires forall r: nat :: r in candidates <==> r < |ms| && Replaces(ms, t, r)
    ensures Settled(ms, t, m)
  {
    hide Replaces, Resolved, AllLinked;
    var target := ms[t];
    m := target;
    var accepted: set<string> := {};
    for r := 0 to |ms|
      invariant m == After(ms, t, r) && accepted == WinnersBelow(ms, t, r)
    {
      if r in candidates {
        m, accepted := Weigh(m, accepted, target, ms[r]);
      }
    }
    var winners := Sorted(accepted);
    if |winners| > 1 {
      m := m.(supersession := None, section := target.section, required := true,
              flags := m.flags + ["supersession_conflict"], conflictWith := m.conflictWith + winners);
    }
    assert m == Judged(ms, t, winners);
    var relations := Link(ms, t, scopes, references, resolutions);
    AfterKeeps(ms, t, |ms|);
    m := m.(relations := relations);
    assert accepted == Winners(ms, t);
  }

  method Weigh(m: Member, accepted: set<string>, target: Member, r: Member) returns (m': Member, accepted': set<string>)
    ensures m' == Weighed(m, target, r)
    ensures accepted' == accepted + if Decides(target, r) then {r.id} else {}
  {
    m', accepted' := m, accepted;
    if Itself(target, r) {
      return;
    }
    var upstream := r.origin == "incoming" && target.origin == "local";
    if upstream && target.id == r.id {
      if r.acceptance == "accepted" && target.acceptance in {"proposed", "unverified"} {
        accepted' := accepted + {r.id};
        m' := m.(supersession := None, section := "resolved_upstream_not_local", required := true);
      }
      return;
    }
    if r.acceptance == "accepted" {
      accepted' := accepted + {r.id};
      m' := m.(supersession := Some(r.id),
               section := if upstream then "resolved_upstream_not_local" else "superseded", required := upstream);
    } else if ScopeOf(target) == ScopeOf(r) {
      m' := m.(flags := m.flags + ["proposed_replacement: " + r.id]);
    }
  }

  // Every look-up is defined, whatever a reference says.
  method Link(ms: seq<Member>, t: nat, scopes: set<Scope>, references: set<string>, resolutions: Resolutions)
    returns (relations: seq<Relation>)
    requires t < |ms| && Resolved(ms, scopes, references, resolutions)
    ensures AllLinked(ms, ScopeOf(ms[t]), ms[t].relations, relations)
  {
    hide Matching, Linked;
    relations := [];
    var scope := ScopeOf(ms[t]);
    for i := 0 to |ms[t].relations|
      invariant |relations| == i && forall j :: 0 <= j < i ==> Linked(ms, scope, ms[t].relations[j], relations[j])
    {
      var l := ms[t].relations[i];
      assert l in ms[t].relations;
      var matches := resolutions[(scope, l.to)];
      OnlyMatch(ms, scope, l.to);
      LinkMeans(ms, scope, l);
      if |matches| == 1 {
        l := l.(to := ms[matches[0]].id, toVersion := Some(ms[matches[0]].version), status := "resolved");
      } else if |matches| > 1 {
        l := l.(status := "ambiguous_endpoint");
      }
      relations := relations + [l];
    }
  }

  lemma LinkMeans(ms: seq<Member>, scope: Scope, l: Relation)
    ensures forall i :: 0 <= i < |Matching(ms, scope, l.to, |ms|)| ==> Matching(ms, scope, l.to, |ms|)[i] < |ms|
    ensures var found := Matching(ms, scope, l.to, |ms|);
      Linked(ms, scope, l,
             if |found| == 1
             then l.(to := ms[found[0]].id, toVersion := Some(ms[found[0]].version), status := "resolved")
                           else if |found| > 1 then l.(status := "ambiguous_endpoint") else l)
  {
    hide NamedIn, Resolves, Matching;
    OnlyMatch(ms, scope, l.to);
    MatchingNamed(ms, scope, l.to);
  }

  // ----- contradictions

  method Contradicts(ms: seq<Member>, targets: seq<set<string>>, i: nat, j: nat) returns (c: bool)
    requires i < |ms| && j < |ms| && i != j && |targets| == |ms|
    requires TargetsOf(ms, i, targets[i]) && TargetsOf(ms, j, targets[j])
    requires ms[i].acceptance == "accepted" && ms[j].acceptance == "accepted"
    ensures c <==> Contradict(ms, i, j)
  {
    hide Targets;
    var a, b := ms[i], ms[j];
    var sameNative := a.native == b.native && a.source == b.source && a.branch != b.branch && a.version != b.version
        && a.origin == b.origin;
    var competing := targets[i] * targets[j] != {} && a.id != b.id && a.origin == b.origin;
    if targets[i] * targets[j] != {} {
      var id :| id in targets[i] * targets[j];
      assert Targets(ms, i, id) && Targets(ms, j, id);
    } else {
      assert forall id :: Targets(ms, i, id) && Targets(ms, j, id) ==> id in targets[i] * targets[j];
    }
    c := (sameNative || competing) && b.id !in targets[i] && a.id !in targets[j];
  }

  // How far the pairs are done for one member, when the pair (i, j) is next.
  function Reach(k: nat, i: nat, j: nat, n: nat): nat {
    if k < i then n else if k == i then j else if k < j then i + 1 else i
  }

  ghost predicate Marked(ms: seq<Member>, settled: seq<Member>, now: seq<Member>, i: nat, j: nat)
    requires i <= |ms| && j <= |ms|
  {
    && |settled| == |ms| == |now|
    && forall k: nat :: k < |ms| ==>
      Reach(k, i, j, |ms|) <= |ms| && now[k] == Contradicted(ms, k, settled[k], Reach(k, i, j, |ms|))
  }

  method MarkContradictions(ms: seq<Member>, targets: seq<set<string>>, members: array<Member>)
    requires members.Length == |ms| == |targets| && forall i :: 0 <= i < |ms| ==> TargetsOf(ms, i, targets[i])
    modifies members
    ensures forall k: nat :: k < |ms| ==> members[k] == Contradicted(ms, k, old(members[k]), |ms|)
  {
    hide TargetsOf, Contradict, Contradicted, Marked;
    ghost var settled := members[..];
    MarkedNone(ms, settled);
    for i := 0 to |ms|
      invariant Marked(ms, settled, members[..], i, i)
    {
      SelfNext(ms, settled, members[..], i);
      for j := i + 1 to |ms|
        invariant Marked(ms, settled, members[..], i, j)
      {
        ghost var before := members[..];
        var c := false;
        if ms[i].acceptance == "accepted" && ms[j].acceptance == "accepted" {
          c := Contradicts(ms, targets, i, j);
        } else {
          NotBothAccepted(ms, i, j);
        }
        if c {
          members[i] := members[i].(flags := members[i].flags + ["conflict"],
                                    conflictWith := members[i].conflictWith + [ms[j].id], required := true);
          members[j] := members[j].(flags := members[j].flags + ["conflict"],
                                    conflictWith := members[j].conflictWith + [ms[i].id], required := true);
        }
        PairNext(ms, settled, before, members[..], i, j);
      }
      RowNext(ms, settled, members[..], i);
    }
    MarkedAll(ms, settled, members[..]);
  }

  lemma NotBothAccepted(ms: seq<Member>, i: nat, j: nat)
    requires i < |ms| && j < |ms| && !(ms[i].acceptance == "accepted" && ms[j].acceptance == "accepted")
    ensures !Contradict(ms, i, j)
  {
  }

  lemma MarkedNone(ms: seq<Member>, settled: seq<Member>)
    requires |settled| == |ms|
    ensures Marked(ms, settled, settled, 0, 0)
  {
    hide Contradict;
  }

  lemma SelfNext(ms: seq<Member>, settled: seq<Member>, now: seq<Member>, i: nat)
    requires i < |ms| && Marked(ms, settled, now, i, i)
    ensures Marked(ms, settled, now, i, i + 1)
  {
    hide Targets, SameNative, Compete;
    forall k: nat | k < |ms| ensures now[k] == Contradicted(ms, k, settled[k], Reach(k, i, i + 1, |ms|)) {
      if k == i {
        assert !Contradict(ms, i, i);
      }
    }
  }

  lemma PairNext(ms: seq<Member>, settled: seq<Member>, before: seq<Member>, now: seq<Member>, i: nat, j: nat)
    requires i < j < |ms| && Marked(ms, settled, before, i, j) && |now| == |before|
    requires forall k: nat :: k < |ms| ==>
      now[k] == if !Contradict(ms, i, j) then before[k] else if k == i then Conflicting(before[k], ms[j])
                else if k == j then Conflicting(before[k], ms[i]) else before[k]
    ensures Marked(ms, settled, now, i, j + 1)
  {
    hide Contradict;
    ContradictSymmetric(ms, i, j);
  }

  lemma RowNext(ms: seq<Member>, settled: seq<Member>, now: seq<Member>, i: nat)
    requires i < |ms| && Marked(ms, settled, now, i, |ms|)
    ensures Marked(ms, settled, now, i + 1, i + 1)
  {
    hide Contradicted;
  }

  lemma MarkedAll(ms: seq<Member>, settled: seq<Member>, now: seq<Member>)
    requires Marked(ms, settled, now, |ms|, |ms|)
    ensures |now| == |settled| == |ms| && forall k: nat :: k < |ms| ==> now[k] == Contradicted(ms, k, settled[k], |ms|)
  {
    hide Contradicted;
  }

  /** The whole reconciliation, in place: every member ends as the pairwise definition says. */
  method Reconcile(members: array<Member>)
    modifies members
    ensures forall t: nat :: t < members.Length ==> Outcome(old(members[..]), t, members[t])
  {
    hide Settled, Contradicted, Scoped, IncomingBelow, Referenced, Gathered, TargetsOf;
    var original := members[..];
    var scopes, incoming, references := Index(original);
    var resolutions := Resolve(original, scopes, references);
    var candidates, targets := Candidates(original, scopes, incoming, references, resolutions);
    for t := 0 to members.Length
      invariant forall k: nat :: k < t ==> Settled(original, k, members[k])
    {
      GatheredAll(original, candidates, t);
      members[t] := Settle(original, t, candidates[t], scopes.Keys, references, resolutions);
    }
    MarkContradictions(original, targets, members);
  }

  lemma GatheredAll(ms: seq<Member>, candidates: seq<set<nat>>, t: nat)
    requires t < |ms| && Gathered(ms, candidates, |ms|)
    ensures |candidates| == |ms| && forall r: nat :: r in candidates[t] <==> r < |ms| && Replaces(ms, t, r)
  {
    hide Claims, Yields, Arrived;
  }
}
