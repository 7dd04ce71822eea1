/**
 The shared encoding of a reply (src/presentation/shared.rs): bodies and sources
 are listed once, and the items become pairs of indices.
 */
module SharedEncoding {
  import opened Wrappers
  import opened JsonValues

  // An item whose place is known; anything else is passed on literally.
  predicate Sourced(item: Json) {
    item.Obj? && Get(item, "observation").Obj? && Get(item, "pointer").Str? && "text" in item.o
  }

  const DEFAULTS: map<string, Json> :=
    map["untrusted" := Bool(true), "committed" := Bool(true), "kind" := Str("json-records"),
        "acceptance" := Str("n/a"), "attribution" := Str("missing"), "native_status" := Null]

  // The defaults that every sourced item states in some way.
  function Defaults(items: seq<Json>): map<string, Json> {
    map k | k in DEFAULTS && (forall item :: item in items && Sourced(item) ==> k in item.o) :: DEFAULTS[k]
  }

  function IndexOf(s: string, c: char): nat
    ensures IndexOf(s, c) <= |s|
  {
    if s == [] || s[0] == c then 0 else 1 + IndexOf(s[1..], c)
  }

  // Where the third colon is, if there is one.
  function ThirdColon(p: string): Option<nat> {
    var i := IndexOf(p, ':');
    if i == |p| then None else
      var j := i + 1 + IndexOf(p[i + 1..], ':');
      if j == |p| then None else
        var k := j + 1 + IndexOf(p[j + 1..], ':');
        if k == |p| then None else Some(k)
  }

  function SplitAt(p: string): (at: nat)
    ensures at <= |p|
  {
    if "git:" <= p && ThirdColon(p).Some? then
      var k := ThirdColon(p).value;
      if k < |p| then k + 1 else |p|
    else if "worktree:" <= p then IndexOf(p, '#')
    else 0
  }

  lemma {:induction false} IndexOfFirst(a: string, c: char, rest: string)
    requires c !in a
    ensures IndexOf(a + [c] + rest, c) == |a|
  {
    var s := a + [c] + rest;
    if a != "" {
      assert s[1..] == a[1..] + [c] + rest;
      IndexOfFirst(a[1..], c, rest);
    }
  }

  lemma {:induction false} IndexOfNone(a: string, c: char)
    requires c !in a
    ensures IndexOf(a, c) == |a|
  {
    if a != "" {
      IndexOfNone(a[1..], c);
    }
  }

  // What comes before identifies the source, what comes after is in it.
  predicate Splits(front: string, rest: string) {
    SplitAt(front + rest) == |front|
  }

  /** A pointer into a commit is split behind its third colon. */
  lemma CommitSplits(commit: string, path: string, rest: string)
    requires ':' !in commit && ':' !in path
    ensures Splits("git:" + commit + ":" + path + ":", rest)
  {
    var p := "git:" + commit + ":" + path + ":" + rest;
    assert p == "git" + [':'] + (commit + ":" + path + ":" + rest);
    IndexOfFirst("git", ':', commit + ":" + path + ":" + rest);
    assert p[4..] == commit + [':'] + (path + ":" + rest);
    IndexOfFirst(commit, ':', path + ":" + rest);
    assert p[5 + |commit|..] == path + [':'] + rest;
    IndexOfFirst(path, ':', rest);
  }

  // With fewer colons there is nothing to split, nor in any other pointer.
  lemma NothingSplits(commit: string, path: string, p: string)
    requires ':' !in commit && ':' !in path
    ensures Splits("", "git:" + commit + ":" + path)
    ensures !("git:" <= p) && !("worktree:" <= p) ==> Splits("", p)
  {
    var q := "git:" + commit + ":" + path;
    assert q == "git" + [':'] + (commit + ":" + path) && "" + q == q && "" + p == p;
    IndexOfFirst("git", ':', commit + ":" + path);
    assert q[4..] == commit + [':'] + path;
    IndexOfFirst(commit, ':', path);
    assert q[5 + |commit|..] == path;
    IndexOfNone(path, ':');
    assert q[0] == 'g';
  }

  /** A pointer into a worktree is split before its fragment, if it has one. */
  lemma WorktreeSplits(file: string, fragment: string)
    requires '#' !in file
    ensures Splits("worktree:" + file, "") && Splits("worktree:" + file, "#" + fragment)
  {
    var front := "worktree:" + file;
    IndexOfNone(front, '#');
    IndexOfFirst(front, '#', fragment);
    assert front + "" == front && front + ("#" + fragment) == front + ['#'] + fragment;
    assert front[0] == 'w' && (front + ("#" + fragment))[0] == 'w';
  }

  function SourceOf(item: Json): Json
    requires Sourced(item)
  {
    var p := item.o["pointer"].s;
    var base := map["observation" := item.o["observation"], "pointer_prefix" := Str(p[..SplitAt(p)])];
    Obj(if "availability" in item.o then base["availability" := item.o["availability"]] else base)
  }

  function BodyOf(item: Json, defaults: map<string, Json>): Json
    requires Sourced(item)
  {
    var p := item.o["pointer"].s;
    var fields := (item.o - {"observation", "availability"})["pointer" := Str(p[SplitAt(p)..])];
    Obj(map k | k in fields && !(k in defaults && fields[k] == defaults[k]) :: fields[k])
  }

  // ----- reading a shared reply, by the rule its own note states

  function Inherited(body: Json, source: Json, defaults: map<string, Json>): Json
    requires body.Obj? && source.Obj? && Get(body, "pointer").Str? && Get(source, "pointer_prefix").Str?
    requires "observation" in source.o
  {
    var fields := (defaults + body.o)["observation" := source.o["observation"]]
                                     ["pointer" := Str(source.o["pointer_prefix"].s + body.o["pointer"].s)];
    Obj(if "availability" in source.o then fields["availability" := source.o["availability"]] else fields)
  }

  // The item an occurrence stands for; none if it points outside or at a shape no source has.
  function Occurrence(bodies: seq<Json>, sources: seq<Json>, defaults: map<string, Json>, occ: Json): Option<Json> {
    if !(occ.Arr? && |occ.a| == 2 && occ.a[0].Num? && 0 <= occ.a[0].n < |bodies|) then None
    else
      var body := bodies[occ.a[0].n];
      if occ.a[1] == Null then Some(body)
      else if !(occ.a[1].Num? && 0 <= occ.a[1].n < |sources|) then None
      else
        var source := sources[occ.a[1].n];
        if body.Obj? && source.Obj? && Get(body, "pointer").Str? && Get(source, "pointer_prefix").Str?
            && "observation" in source.o
        then Some(Inherited(body, source, defaults)) else None
  }

  function Expand(bodies: seq<Json>, sources: seq<Json>, defaults: map<string, Json>,
                  occs: seq<Json>): Option<seq<Json>> {
    if occs == [] then Some([])
    else
      var most := Expand(bodies, sources, defaults, occs[..|occs| - 1]);
      var last := Occurrence(bodies, sources, defaults, occs[|occs| - 1]);
      if most.Some? && last.Some? then Some(most.value + [last.value]) else None
  }

  function ArrayOf(j: Json): seq<Json> {
    if j.Arr? then j.a else []
  }

  function FieldsOf(j: Json): map<string, Json> {
    if j.Obj? then j.o else map[]
  }

  // What a reader makes of a reply, shared or not.
  function ItemsOf(reply: Json): Option<seq<Json>> {
    if Get(Get(reply, "memq"), "encoding") == Str("shared-v1") then
      Expand(ArrayOf(Get(reply, "items")), ArrayOf(Get(reply, "sources")), FieldsOf(Get(reply, "item_defaults")),
             ArrayOf(Get(reply, "occurrences")))
    else Some(ArrayOf(Get(reply, "items")))
  }

  /** Splitting an item and reading it back is the item: no field lost, changed or added. */
  lemma InheritedIsItem(item: Json, defaults: map<string, Json>)
    requires Sourced(item)
    requires defaults.Keys <= item.o.Keys && defaults.Keys !! {"observation", "availability", "pointer"}
    ensures var body := BodyOf(item, defaults); var source := SourceOf(item);
      && Get(body, "pointer").Str? && Get(source, "pointer_prefix").Str? && "observation" in source.o
      && Inherited(body, source, defaults) == item
  {
    hide SplitAt, DEFAULTS;
    var p := item.o["pointer"].s;
    var body := BodyOf(item, defaults);
    var source := SourceOf(item);
    assert p[..SplitAt(p)] + p[SplitAt(p)..] == p;
    assert Inherited(body, source, defaults).o == item.o;
  }

  // Growing the dictionaries keeps the meaning of what is already written.
  lemma OccurrenceGrows(bodies: seq<Json>, sources: seq<Json>, bodies': seq<Json>, sources': seq<Json>,
                        defaults: map<string, Json>, occ: Json)
    requires bodies <= bodies' && sources <= sources' && Occurrence(bodies, sources, defaults, occ).Some?
    ensures Occurrence(bodies', sources', defaults, occ) == Occurrence(bodies, sources, defaults, occ)
  {
  }

  lemma {:induction false} ExpandGrows(bodies: seq<Json>, sources: seq<Json>, bodies': seq<Json>, sources': seq<Json>,
                                       defaults: map<string, Json>, occs: seq<Json>)
    requires bodies <= bodies' && sources <= sources' && Expand(bodies, sources, defaults, occs).Some?
    ensures Expand(bodies', sources', defaults, occs) == Expand(bodies, sources, defaults, occs)
  {
    hide Occurrence;
    if occs != [] {
      ExpandGrows(bodies, sources, bodies', sources', defaults, occs[..|occs| - 1]);
      OccurrenceGrows(bodies, sources, bodies', sources', defaults, occs[|occs| - 1]);
    }
  }

  lemma ExpandSnoc(bodies: seq<Json>, sources: seq<Json>, defaults: map<string, Json>, occs: seq<Json>, occ: Json)
    requires Expand(bodies, sources, defaults, occs).Some? && Occurrence(bodies, sources, defaults, occ).Some?
    ensures Expand(bodies, sources, defaults, occs + [occ])
            == Some(Expand(bodies, sources, defaults, occs).value + [Occurrence(bodies, sources, defaults, occ).value])
  {
    assert (occs + [occ])[..|occs|] == occs;
  }

  // An index knows every entry of its list, each listed once.
  predicate Indexes(index: map<Json, nat>, list: seq<Json>) {
    && (forall v :: v in index ==> index[v] < |list| && list[index[v]] == v)
    && (forall i :: 0 <= i < |list| ==> list[i] in index && index[list[i]] == i)
  }

  predicate Distinct(list: seq<Json>) {
    forall i, j :: 0 <= i < j < |list| ==> list[i] != list[j]
  }

  method Intern(index: map<Json, nat>, list: seq<Json>, v: Json)
    returns (at: nat, index': map<Json, nat>, list': seq<Json>)
    requires Indexes(index, list)
    ensures Indexes(index', list') && at < |list'| && list'[at] == v && list <= list'
    ensures forall w :: w in list' ==> w in list || w == v
  {
    if v in index {
      return index[v], index, list;
    }
    return |list|, index[v := |list|], list + [v];
  }

  const ADDED := {"memq", "items", "sources", "occurrence_fields", "occurrences", "item_defaults", "encoding_note"}

  const NOTE :=
      "occurrences are [item index, source index] in result order; a sourced item inherits item_defaults and its source"

  // The body of any item, sourced or not.
  function Stripped(item: Json, defaults: map<string, Json>): Json {
    if Sourced(item) then BodyOf(item, defaults) else item
  }

  // The bodies are those of the items, and no others.
  predicate SharesBodies(items: seq<Json>, bodies: seq<Json>) {
    BodiesOf(items, Defaults(items), bodies)
  }

  predicate BodiesOf(items: seq<Json>, defaults: map<string, Json>, bodies: seq<Json>) {
    && (forall item :: item in items ==> Stripped(item, defaults) in bodies)
    && (forall b :: b in bodies ==> exists item :: item in items && b == Stripped(item, defaults))
  }

  // What the loop has written for the items so far.
  predicate Written(items: seq<Json>, defaults: map<string, Json>, bodies: seq<Json>, sources: seq<Json>,
                    occs: seq<Json>) {
    Expand(bodies, sources, defaults, occs) == Some(items) && BodiesOf(items, defaults, bodies)
  }

  /**
   The projection is lossless: read back by its own rule it gives every item, in
   order and with repeats; each body and each source is listed once; the rest of the
   reply is as it was. A reply without items is passed on as it is.
   */
  method Project(input: Json) returns (out: Json)
    requires input.Obj? && Get(input, "memq").Obj?
    ensures ArrayOf(Get(input, "items")) == [] ==> out == input
    ensures ArrayOf(Get(input, "items")) != [] ==>
      var items := Get(input, "items").a;
      && out.Obj? && ItemsOf(out) == Some(items)
      && Distinct(ArrayOf(Get(out, "items"))) && Distinct(ArrayOf(Get(out, "sources")))
      && out.o.Keys == input.o.Keys + ADDED
      && (forall k :: k in input.o && k !in ADDED ==> out.o[k] == input.o[k])
      && Get(out, "memq") == Obj(Get(input, "memq").o["encoding" := Str("shared-v1")])
      && Get(out, "items").Arr?
      && SharesBodies(items, Get(out, "items").a)
  {
    if !Get(input, "items").Arr? || Get(input, "items").a == [] {
      return input;
    }
    var items := Get(input, "items").a;
    var defaults := Defaults(items);
    var bodies, sources, occurrences := Share(items, defaults);
    var memq := Obj(Get(input, "memq").o["encoding" := Str("shared-v1")]);
    out := Obj(input.o["memq" := memq]["items" := Arr(bodies)]["sources" := Arr(sources)]
                      ["occurrence_fields" := Arr([Str("item"), Str("source")])]["occurrences" := Arr(occurrences)]
                      ["item_defaults" := Obj(defaults)]["encoding_note" := Str(NOTE)]);
    assert out.o.Keys == input.o.Keys + ADDED;
  }

  method Share(items: seq<Json>, defaults: map<string, Json>)
    returns (bodies: seq<Json>, sources: seq<Json>, occurrences: seq<Json>)
    requires defaults == Defaults(items)
    ensures Written(items, defaults, bodies, sources, occurrences) && Distinct(bodies) && Distinct(sources)
  {
    hide Expand, Written, BodyOf, SourceOf, Inherited, Sourced, Stripped;
    bodies, sources, occurrences := [], [], [];
    var bodyIndex: map<Json, nat>, sourceIndex: map<Json, nat> := map[], map[];
    WrittenNone(defaults);
    for i := 0 to |items|
      invariant Indexes(bodyIndex, bodies) && Indexes(sourceIndex, sources)
      invariant Written(items[..i], defaults, bodies, sources, occurrences)
    {
      var item := items[i];
      var body, source, was, had := item, Null, bodies, sources;
      if Sourced(item) {
        var at: nat;
        at, sourceIndex, sources := Intern(sourceIndex, sources, SourceOf(item));
        body, source := BodyOf(item, defaults), Num(at);
      }
      var index: nat;
      index, bodyIndex, bodies := Intern(bodyIndex, bodies, body);
      StrippedMeans(item, defaults);
      WrittenNext(items, i, defaults, was, had, bodies, sources, occurrences, index, source);
      occurrences := occurrences + [Arr([Num(index), source])];
    }
    assert items[..|items|] == items;
  }

  lemma StrippedMeans(item: Json, defaults: map<string, Json>)
    ensures Stripped(item, defaults) == if Sourced(item) then BodyOf(item, defaults) else item
  {
  }

  lemma WrittenNone(defaults: map<string, Json>)
    ensures Written([], defaults, [], [], [])
  {
  }

  lemma WrittenNext(items: seq<Json>, i: nat, defaults: map<string, Json>, was: seq<Json>, had: seq<Json>,
                    bodies: seq<Json>, sources: seq<Json>, occs: seq<Json>, index: nat, source: Json)
    requires i < |items| && defaults == Defaults(items) && Written(items[..i], defaults, was, had, occs)
    requires was <= bodies && had <= sources && index < |bodies| && bodies[index] == Stripped(items[i], defaults)
    requires forall b :: b in bodies ==> b in was || b == Stripped(items[i], defaults)
    requires
      if Sourced(items[i]) then source.Num? && 0 <= source.n < |sources| && sources[source.n] == SourceOf(items[i])
      else source == Null
    ensures Written(items[..i + 1], defaults, bodies, sources, occs + [Arr([Num(index), source])])
  {
    hide Inherited, BodyOf, SourceOf;
    var item := items[i];
    var occ := Arr([Num(index), source]);
    assert items[..i + 1] == items[..i] + [item];
    assert Occurrence(bodies, sources, defaults, occ) == Some(item) by {
      if Sourced(item) {
        assert item in items;
        InheritedIsItem(item, defaults);
      }
    }
    ExpandGrows(was, had, bodies, sources, defaults, occs);
    ExpandSnoc(bodies, sources, defaults, occs, occ);
    forall x | x in items[..i + 1] ensures Stripped(x, defaults) in bodies {
      if x in items[..i] {
        assert Stripped(x, defaults) in was;
      }
    }
    forall b | b in bodies ensures exists x :: x in items[..i + 1] && b == Stripped(x, defaults) {
      if b in was {
        var x :| x in items[..i] && b == Stripped(x, defaults);
        assert x in items[..i + 1];
      } else {
        assert item in items[..i + 1];
      }
    }
  }
}
