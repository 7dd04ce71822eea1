/**
 From a canonical reply to the one that is sent (src/presentation.rs): changed paths
 are a preview, items may take the shared form, and the count decides.
 */
module Replies {
  import opened Wrappers
  import opened JsonValues
  import opened Machine
  import opened PageSize
  import opened Settling
  import opened SharedEncoding

  // The count of a serialized value, in bytes or in tokens.
  type Count = Json -> nat

  datatype Budget = Budget(kind: string, encoding: Json, limit: nat)

  datatype Failure = BelowMinimum(minimum: nat) | Unsettled

  // ----- the count a reply states

  function BudgetObject(b: Budget, used: nat): Json {
    Obj(map["kind" := Str(b.kind), "encoding" := b.encoding, "limit" := Num(b.limit), "used" := Num(used)])
  }

  function WithBudget(b: Budget, reply: Json, used: nat): Json {
    Obj(FieldsOf(reply)["budget" := BudgetObject(b, used)])
  }

  // The count of a reply that states a count.
  function Recounted(count: Count, b: Budget, reply: Json): Recount {
    n => count(WithBudget(b, reply, n))
  }

  // The count that a reply ends up stating, if it settles.
  function Used(count: Count, b: Budget, reply: Json): Option<nat> {
    FirstFrom(Recounted(count, b, reply), 0)
  }

  // A reply that states its own count.
  predicate States(count: Count, b: Budget, wire: Json, used: nat) {
    wire.Obj? && Get(wire, "budget") == BudgetObject(b, used) && count(wire) == used
  }

  method Settled(count: Count, b: Budget, reply: Json) returns (r: Result<(Json, nat), Failure>)
    requires reply.Obj?
    ensures r.Ok? <==> Used(count, b, reply).Some?
    ensures r.Ok? ==> Used(count, b, reply) == Some(r.value.1) && r.value.0 == WithBudget(b, reply, r.value.1)
    ensures r.Ok? ==> States(count, b, r.value.0, r.value.1)
    ensures r.Err? ==> r.error == Unsettled
  {
    hide FirstFrom;
    var used, _ := Settle(Recounted(count, b, reply));
    if used.Err? {
      return Err(Unsettled);
    }
    return Ok((WithBudget(b, reply, used.value), used.value));
  }

  /** Counted in bytes, no reply is refused for want of a count. */
  lemma BytesAlwaysSettle(count: Count, b: Budget, reply: Json)
    requires reply.Obj? && forall n :: count(WithBudget(b, reply, n)) == Size(WithBudget(b, reply, n))
    ensures Used(count, b, reply).Some?
  {
    hide Size, FirstFrom;
    var start := WithBudget(b, reply, 0);
    forall n ensures Recounted(count, b, reply)(n) == Size(Stating(start, n)) {
      StatingIsWithBudget(b, reply, n);
    }
    ReplySettles(Recounted(count, b, reply), start);
  }

  lemma StatingIsWithBudget(b: Budget, reply: Json, n: nat)
    requires reply.Obj?
    ensures Get(WithBudget(b, reply, 0), "budget").Obj?
      && Stating(WithBudget(b, reply, 0), n) == WithBudget(b, reply, n)
  {
    var o := BudgetObject(b, 0).o["used" := Num(n)];
    assert o == BudgetObject(b, n).o;
    assert Stating(WithBudget(b, reply, 0), n).o == WithBudget(b, reply, n).o;
  }

  // ----- changed paths

  function Changes(reply: Json): Json {
    Get(reply, "changes_since")
  }

  function Paths(reply: Json): seq<Json> {
    ArrayOf(Get(Changes(reply), "paths"))
  }

  // How many paths changed, shown or not.
  function PathCount(reply: Json): nat {
    if AsU64(Get(Changes(reply), "paths_count")).Some? then AsU64(Get(Changes(reply), "paths_count")).value
    else |Paths(reply)|
  }

  function SetPaths(reply: Json, paths: seq<Json>, count: nat): Json
    requires reply.Obj? && Changes(reply).Obj?
  {
    var changes :=
        Obj(Changes(reply).o["paths" := Arr(paths)]["paths_count" := Num(count)]["paths_truncated" := Bool(true)]);
    Obj(reply.o["changes_since" := changes]["incomplete" := Bool(true)]
               ["reason" :=
                  if Get(reply, "reason") == Null then Str("changes_paths_omitted") else Get(reply, "reason")])
  }

  // A reply as the program builds it: an object with its own description.
  predicate WellFormed(reply: Json) {
    && reply.Obj? && Get(reply, "memq").Obj?
    && (Get(Changes(reply), "paths").Arr? ==> PathCount(reply) < U64_LIMIT)
  }

  // The paths shown are a prefix, at most twenty, as long as it stays within an eighth of the budget.
  ghost predicate Previews(count: Count, limit: nat, reply: Json, preview: Json, k: nat) {
    && k <= |Paths(reply)| && k <= 20
    && (forall j :: 1 <= j <= k ==> count(Arr(Paths(reply)[..j])) <= limit / 8)
    && (k < |Paths(reply)| && k < 20 ==> count(Arr(Paths(reply)[..k + 1])) > limit / 8)
    && (if k < PathCount(reply)
        then Changes(reply).Obj? && reply.Obj? && preview == SetPaths(reply, Paths(reply)[..k], PathCount(reply))
        else preview == reply)
  }

  method Preview(count: Count, limit: nat, reply: Json) returns (preview: Json, ghost k: nat)
    requires WellFormed(reply)
    ensures WellFormed(preview)
    ensures !Get(Changes(reply), "paths").Arr? ==> preview == reply
    ensures Get(Changes(reply), "paths").Arr? ==> Previews(count, limit, reply, preview, k)
  {
    if !Get(Changes(reply), "paths").Arr? {
      return reply, 0;
    }
    var paths := Paths(reply);
    var shown: nat := 0;
    while shown < |paths| && shown < 20
      invariant shown <= |paths| && shown <= 20
      invariant forall j :: 1 <= j <= shown ==> count(Arr(paths[..j])) <= limit / 8
    {
      if count(Arr(paths[..shown + 1])) > limit / 8 {
        break;
      }
      shown := shown + 1;
    }
    k := shown;
    preview := if shown < PathCount(reply) then SetPaths(reply, paths[..shown], PathCount(reply)) else reply;
  }

  /** Showing fewer paths changes neither their number nor anything but the notes about it. */
  lemma SetPathsKeeps(reply: Json, paths: seq<Json>)
    requires WellFormed(reply) && Get(Changes(reply), "paths").Arr?
    ensures var short := SetPaths(reply, paths, PathCount(reply));
      && WellFormed(short) && Paths(short) == paths && PathCount(short) == PathCount(reply)
      && ItemsOf(short) == ItemsOf(reply)
      && (forall key :: key in reply.o && key !in {"changes_since", "incomplete", "reason"} ==>
          short.o[key] == reply.o[key])
      && Get(short, "incomplete") == Bool(true) && Get(Changes(short), "paths_truncated") == Bool(true)
      && Get(short, "reason") != Null
      && (Get(reply, "reason") != Null ==> Get(short, "reason") == Get(reply, "reason"))
  {
    hide ItemsOf;
    SameItems(reply, SetPaths(reply, paths, PathCount(reply)));
  }

  lemma SameItems(a: Json, b: Json)
    requires Get(a, "memq") == Get(b, "memq") && Get(a, "items") == Get(b, "items")
      && Get(a, "sources") == Get(b, "sources")
    requires Get(a, "item_defaults") == Get(b, "item_defaults") && Get(a, "occurrences") == Get(b, "occurrences")
    ensures ItemsOf(a) == ItemsOf(b)
  {
    hide Expand;
  }

  // ----- the form of the items

  predicate Compact(reply: Json) {
    Get(Get(reply, "memq"), "representation") == Str("compact") && ArrayOf(Get(reply, "items")) != []
  }

  // The shared form has to earn its indirection.
  predicate Earns(shared: nat, plain: nat) {
    Saturated(shared + 64) <= plain && Saturated(shared * 10) <= Saturated(plain * 9)
  }

  // It saves 64 and a tenth, where the products do not run over.
  predicate Worthwhile(shared: nat, plain: nat) {
    (shared + 64 <= plain || plain >= USIZE_MAX) && (10 * shared <= 9 * plain || 9 * plain >= USIZE_MAX)
  }

  lemma EarnsMeans(shared: nat, plain: nat)
    ensures Earns(shared, plain) <==> Worthwhile(shared, plain)
  {
  }

  // A canonical reply lists its items plainly.
  predicate Canonical(reply: Json) {
    WellFormed(reply) && Get(Get(reply, "memq"), "encoding") == Null
  }

  // Fields that encoding writes.
  const WRITTEN := ADDED + {"budget"}

  // What a reply is sent as: it states its count, means the same and counts no more.
  ghost predicate Encodes(count: Count, b: Budget, plain: Json, wire: Json, used: nat)
    requires plain.Obj?
  {
    && States(count, b, wire, used) && ItemsOf(wire) == ItemsOf(plain)
    && wire.o.Keys <= plain.o.Keys + WRITTEN
    && (forall key :: key in plain.o && key !in WRITTEN ==> key in wire.o && wire.o[key] == plain.o[key])
    && Used(count, b, plain).Some?
    && var was := Used(count, b, plain).value;
    && ((wire == WithBudget(b, plain, was) && (Compact(plain) ==> EarnsNothing(count, b, plain, was)))
        || (Compact(plain) && InSharedForm(wire) && Worthwhile(used, was)))
    && (used <= USIZE_MAX && was <= USIZE_MAX ==> used <= was)
  }

  predicate InSharedForm(reply: Json) {
    Get(Get(reply, "memq"), "encoding") == Str("shared-v1")
  }

  // A shared form was made and counted, and did not earn its place.
  ghost predicate EarnsNothing(count: Count, b: Budget, plain: Json, was: nat) {
    exists form :: InSharedForm(form) && ItemsOf(form) == ItemsOf(plain)
      && Used(count, b, form).Some? && !Worthwhile(Used(count, b, form).value, was)
  }

  // Some form of the reply's items has no count to state.
  ghost predicate NoCount(count: Count, b: Budget, reply: Json) {
    exists form :: ItemsOf(form) == ItemsOf(reply) && Used(count, b, form) == None
  }

  // The shared form of a reply, and what it is sent as.
  ghost predicate SharedAs(count: Count, b: Budget, plain: Json, form: Json, wire: Json, used: nat)
    requires plain.Obj?
  {
    && InSharedForm(form) && InSharedForm(wire)
    && ItemsOf(form) == ItemsOf(plain) && ItemsOf(wire) == ItemsOf(plain)
    && Used(count, b, form) == Some(used) && States(count, b, wire, used)
    && wire.o.Keys <= plain.o.Keys + WRITTEN
    && (forall key :: key in plain.o && key !in WRITTEN ==> key in wire.o && wire.o[key] == plain.o[key])
  }

  method Shared(count: Count, b: Budget, plain: Json, was: nat)
    returns (r: Result<(Json, nat), Failure>, ghost form: Json)
    requires Canonical(plain) && Compact(plain)
    ensures r.Ok? ==> SharedAs(count, b, plain, form, r.value.0, r.value.1)
    ensures r.Err? ==> r.error == Unsettled && NoCount(count, b, plain)
  {
    hide ItemsOf, SharesBodies, Distinct, Used, Compact, InSharedForm;
    var stated := WithBudget(b, plain, was);
    StatedKeeps(b, plain, was);
    CanonicalItems(plain);
    ProjectedItems(plain, stated);
    var projected := Project(stated);
    form := projected;
    var shared := Settled(count, b, projected);
    if shared.Ok? {
      StatedKeeps(b, projected, shared.value.1);
      SharedMarked(projected, shared.value.0);
    }
    return shared, form;
  }

  /** Whatever form is chosen means the same and counts no more. */
  method Encode(count: Count, b: Budget, plain: Json) returns (r: Result<(Json, nat), Failure>)
    requires Canonical(plain)
    ensures r.Ok? ==> Encodes(count, b, plain, r.value.0, r.value.1)
    ensures r.Err? ==> r.error == Unsettled && NoCount(count, b, plain)
  {
    hide ItemsOf, Used, Earns, Worthwhile, Compact, InSharedForm, States;
    var direct := Settled(count, b, plain);
    if direct.Err? {
      return direct;
    }
    StatedKeeps(b, plain, direct.value.1);
    if !Compact(plain) {
      EarnedSaves(direct.value.1, direct.value.1);
      return direct;
    }
    var shared, form := Shared(count, b, plain, direct.value.1);
    if shared.Err? {
      return shared;
    }
    EarnedSaves(shared.value.1, direct.value.1);
    EarnsMeans(shared.value.1, direct.value.1);
    if Earns(shared.value.1, direct.value.1) {
      return shared;
    }
    return direct;
  }

  // Writing the budget changes nothing else.
  lemma StatedKeeps(b: Budget, reply: Json, used: nat)
    requires reply.Obj?
    ensures var stated := WithBudget(b, reply, used);
      && ItemsOf(stated) == ItemsOf(reply) && stated.o.Keys == reply.o.Keys + {"budget"}
      && (forall key :: key in reply.o && key != "budget" ==> stated.o[key] == reply.o[key])
      && (forall key :: key != "budget" ==> Get(stated, key) == Get(reply, key))
  {
    hide ItemsOf, BudgetObject;
    SameItems(reply, WithBudget(b, reply, used));
  }

  lemma ProjectedItems(plain: Json, stated: Json)
    requires Compact(plain) && Get(stated, "items") == Get(plain, "items")
    ensures ArrayOf(Get(stated, "items")) != []
  {
  }

  lemma SharedMarked(projected: Json, wire: Json)
    requires Get(projected, "memq").Obj? && "encoding" in Get(projected, "memq").o
    requires Get(projected, "memq").o["encoding"] == Str("shared-v1") && Get(wire, "memq") == Get(projected, "memq")
    ensures InSharedForm(projected) && InSharedForm(wire)
  {
  }

  lemma EarnedSaves(shared: nat, plain: nat)
    ensures Earns(shared, plain) && shared <= USIZE_MAX ==> shared <= plain
  {
  }

  lemma CanonicalItems(plain: Json)
    requires Canonical(plain)
    ensures ItemsOf(plain) == Some(ArrayOf(Get(plain, "items")))
  {
  }

  // ----- the reply that is sent

  // The canonical reply with no changed path shown.
  function WithoutPaths(reply: Json): Json
    requires reply.Obj? && Changes(reply).Obj?
  {
    SetPaths(reply, [], PathCount(reply))
  }

  ghost predicate IsPreview(count: Count, limit: nat, reply: Json, preview: Json) {
    if Get(Changes(reply), "paths").Arr? then exists k :: Previews(count, limit, reply, preview, k)
    else preview == reply
  }

  // With the preview of paths if it fits or has none, and without any path otherwise.
  ghost predicate Sends(count: Count, b: Budget, plain: Json, wire: Json, used: nat) {
    && plain.Obj?
    && ((Encodes(count, b, plain, wire, used) && (Paths(plain) == [] || used <= b.limit))
        || (Paths(plain) != [] && Changes(plain).Obj?
            && Encodes(count, b, WithoutPaths(plain), wire, used) && TooLarge(count, b, plain)))
  }

  ghost predicate TooLarge(count: Count, b: Budget, plain: Json)
    requires plain.Obj?
  {
    exists wire, used: nat :: Encodes(count, b, plain, wire, used) && used > b.limit
  }

  ghost predicate Renders(count: Count, b: Budget, canonical: Json, wire: Json, used: nat) {
    && States(count, b, wire, used) && ItemsOf(wire) == ItemsOf(canonical)
    && exists plain :: IsPreview(count, b.limit, canonical, plain) && Sends(count, b, plain, wire, used)
  }

  method Render(count: Count, b: Budget, canonical: Json) returns (r: Result<(Json, nat), Failure>)
    requires Canonical(canonical)
    ensures r.Ok? ==> Renders(count, b, canonical, r.value.0, r.value.1)
    ensures r.Ok? && r.value.1 > b.limit ==> Paths(r.value.0) == []
    ensures r.Err? ==> r.error == Unsettled && NoCount(count, b, canonical)
  {
    hide ItemsOf, Encodes, Previews, Compact, Used, States;
    var plain, k := Preview(count, b.limit, canonical);
    PreviewKeeps(count, b.limit, canonical, plain, k);
    assert IsPreview(count, b.limit, canonical, plain);
    var wire := Encode(count, b, plain);
    if wire.Err? {
      return wire;
    }
    EncodesKeeps(count, b, plain, wire.value.0, wire.value.1);
    if Paths(plain) == [] || wire.value.1 <= b.limit {
      return wire;
    }
    HasChanges(plain);
    var short := WithoutPaths(plain);
    SetPathsKeeps(plain, []);
    r := Encode(count, b, short);
    if r.Ok? {
      EncodesKeeps(count, b, short, r.value.0, r.value.1);
      SentShort(count, b, plain, wire.value.0, wire.value.1, r.value.0, r.value.1);
    }
  }

  lemma SentShort(count: Count, b: Budget, plain: Json, first: Json, more: nat, wire: Json, used: nat)
    requires plain.Obj? && Changes(plain).Obj? && Paths(plain) != [] && Encodes(count, b, plain, first, more)
      && more > b.limit
    requires Encodes(count, b, WithoutPaths(plain), wire, used)
    ensures Sends(count, b, plain, wire, used)
  {
    hide Encodes;
  }

  lemma HasChanges(reply: Json)
    requires Paths(reply) != []
    ensures reply.Obj? && Changes(reply).Obj? && Get(Changes(reply), "paths").Arr?
  {
  }

  lemma PreviewKeeps(count: Count, limit: nat, reply: Json, preview: Json, k: nat)
    requires Canonical(reply) && WellFormed(preview)
    requires !Get(Changes(reply), "paths").Arr? ==> preview == reply
    requires Get(Changes(reply), "paths").Arr? ==> Previews(count, limit, reply, preview, k)
    ensures Canonical(preview) && ItemsOf(preview) == ItemsOf(reply)
    ensures Get(Changes(reply), "paths").Arr? ==> PathCount(preview) == PathCount(reply)
  {
    hide ItemsOf;
    if Get(Changes(reply), "paths").Arr? && preview != reply {
      SetPathsKeeps(reply, Paths(reply)[..k]);
    }
  }

  lemma EncodesKeeps(count: Count, b: Budget, plain: Json, wire: Json, used: nat)
    requires plain.Obj? && Encodes(count, b, plain, wire, used)
    ensures States(count, b, wire, used) && ItemsOf(wire) == ItemsOf(plain) && Paths(wire) == Paths(plain)
  {
    hide ItemsOf, Used, Earns, Compact;
    assert "changes_since" !in WRITTEN;
  }

  /**
   What is sent fits the budget, states the count it has and has all the items; and
   the paths that changed never keep items from being sent. It is refused as
   unsettled only if some form of it has no count to state.
   */
  method Finish(count: Count, b: Budget, canonical: Json) returns (r: Result<Json, Failure>)
    requires Canonical(canonical)
    ensures r.Ok? ==> Renders(count, b, canonical, r.value, count(r.value)) && count(r.value) <= b.limit
    ensures r.Err? && r.error.BelowMinimum? ==>
      exists wire :: Renders(count, b, canonical, wire, count(wire)) && count(wire) == r.error.minimum > b.limit
          && Paths(wire) == []
    ensures r == Err(Unsettled) ==> NoCount(count, b, canonical)
  {
    hide ItemsOf, IsPreview, Sends, NoCount;
    var wire := Render(count, b, canonical);
    if wire.Err? {
      return Err(wire.error);
    }
    if wire.value.1 > b.limit {
      return Err(BelowMinimum(wire.value.1));
    }
    return Ok(wire.value.0);
  }
}
