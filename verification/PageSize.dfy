/**
 The size of a reply on the wire, and why a page of evidence that is too large by
 the bytes that must survive need not be tried (src/operations.rs `evidence_page`,
 src/presentation.rs `may_fit_bytes`).
 */
module PageSize {
  import opened JsonValues
  import opened Decimal
  import opened Utf8
  import opened EvidencePaging
  import opened SharedEncoding

  // ----- compact JSON, in bytes

  function CharSize(c: char): (n: nat)
    ensures n >= |EncodeChar(c)|
  {
    if c == '"' || c == '\\' then 2
    else if c < ' ' then (if c in "\n\r\t" || c as int == 8 || c as int == 12 then 2 else 6)
    else |EncodeChar(c)|
  }

  function StringSize(s: string): nat {
    if s == [] then 2 else CharSize(s[0]) + StringSize(s[1..])
  }

  function NumberText(n: int): string {
    if n < 0 then "-" + Show(-n) else Show(n)
  }

  ghost function Size(j: Json): nat
    decreases j, 1, 0
  {
    match j
    case Null => 4
    case Bool(b) => if b then 4 else 5
    case Num(n) => |NumberText(n)|
    case Str(s) => StringSize(s)
    case Arr(a) => 2 + ElementsSize(j, |a|)
    case Obj(o) => 2 + FieldsSize(j, o.Keys)
  }

  ghost function ElementsSize(j: Json, n: nat): nat
    requires j.Arr? && n <= |j.a|
    decreases j, 0, n
  {
    if n == 0 then 0 else ElementsSize(j, n - 1) + Size(j.a[n - 1]) + if n == 1 then 0 else 1
  }

  // Commas aside, the order of the fields does not matter.
  ghost function FieldsSize(j: Json, ks: set<string>): nat
    requires j.Obj? && ks <= j.o.Keys
    decreases j, 0, |ks|
  {
    if ks == {} then 0
    else
      var k := Any(ks);
      StringSize(k) + 1 + Size(j.o[k]) + FieldsSize(j, ks - {k}) + if |ks| == 1 then 0 else 1
  }

  ghost function Any<T>(s: set<T>): (x: T)
    requires s != {}
    ensures x in s
  {
    var x :| x in s;
    x
  }

  lemma {:induction false} StringHoldsText(s: string)
    ensures StringSize(s) >= |Encode(s)|
  {
    if s != [] {
      StringHoldsText(s[1..]);
    }
  }

  lemma {:induction false} FieldHeld(j: Json, ks: set<string>, k: string)
    requires j.Obj? && ks <= j.o.Keys && k in ks
    ensures FieldsSize(j, ks) >= Size(j.o[k])
    decreases |ks|
  {
    hide StringSize, Any;
    var first := Any(ks);
    assert FieldsSize(j, ks) >= Size(j.o[first]) + FieldsSize(j, ks - {first});
    if first != k {
      FieldHeld(j, ks - {first}, k);
    }
  }

  lemma {:induction false} FieldsHeld(j: Json, ks: set<string>, k: string, l: string)
    requires j.Obj? && ks <= j.o.Keys && k in ks && l in ks && k != l
    ensures FieldsSize(j, ks) >= Size(j.o[k]) + Size(j.o[l])
    decreases |ks|
  {
    hide StringSize, Any;
    var first := Any(ks);
    assert FieldsSize(j, ks) >= Size(j.o[first]) + FieldsSize(j, ks - {first});
    if first == k {
      FieldHeld(j, ks - {first}, l);
    } else if first == l {
      FieldHeld(j, ks - {first}, k);
    } else {
      FieldsHeld(j, ks - {first}, k, l);
    }
  }

  // ----- what a body keeps

  type Body = (string, seq<byte>)

  function Weight(b: Body): nat {
    |Encode(b.0)| + |b.1|
  }

  // The identity and the text an item shows.
  function Shown(item: Json): Body {
    (StrOr(Get(item, "id"), ""), Encode(StrOr(Get(item, "text"), "")))
  }

  lemma ItemHoldsBody(item: Json)
    requires Get(item, "id").Str?
    ensures Size(item) >= Weight(Shown(item))
  {
    var id := item.o["id"];
    StringHoldsText(id.s);
    assert Encode("") == [];
    if Get(item, "text").Str? {
      StringHoldsText(item.o["text"].s);
      FieldsHeld(item, item.o.Keys, "id", "text");
    } else {
      FieldHeld(item, item.o.Keys, "id");
    }
  }

  // Stripping leaves both.
  lemma StrippedShows(item: Json, items: seq<Json>)
    ensures Shown(Stripped(item, Defaults(items))) == Shown(item)
    ensures Get(item, "id").Str? ==> Get(Stripped(item, Defaults(items)), "id").Str?
  {
    hide SplitAt, Encode;
    assert "id" !in DEFAULTS && "text" !in DEFAULTS;
  }

  ghost function SetWeight(s: set<Body>): nat
    decreases |s|
  {
    if s == {} then 0 else Weight(Any(s)) + SetWeight(s - {Any(s)})
  }

  lemma {:induction false} SetWeightMinus(s: set<Body>, b: Body)
    requires b in s
    ensures SetWeight(s) == Weight(b) + SetWeight(s - {b})
    decreases |s|
  {
    hide Weight, Any;
    var first := Any(s);
    if first != b {
      SetWeightMinus(s - {first}, b);
      SetWeightMinus(s - {b}, first);
      assert s - {first} - {b} == s - {b} - {first};
    }
  }

  lemma {:induction false} SetWeightMonotone(s: set<Body>, t: set<Body>)
    requires s <= t
    ensures SetWeight(s) <= SetWeight(t)
    decreases |s|
  {
    hide Weight;
    if s != {} {
      var b := Any(s);
      SetWeightMinus(s, b);
      SetWeightMinus(t, b);
      SetWeightMonotone(s - {b}, t - {b});
    }
  }

  function ShownIn(items: seq<Json>): set<Body> {
    set item | item in items :: Shown(item)
  }

  /** An array of items is at least as large as the distinct bodies among them. */
  lemma {:induction false} ArrayHoldsBodies(j: Json, n: nat)
    requires j.Arr? && n <= |j.a| && forall item :: item in j.a ==> Get(item, "id").Str?
    ensures SetWeight(ShownIn(j.a[..n])) <= ElementsSize(j, n)
  {
    hide Weight, Shown;
    if n == 0 {
      assert ShownIn(j.a[..0]) == {};
    } else {
      var item := j.a[n - 1];
      ArrayHoldsBodies(j, n - 1);
      ItemHoldsBody(item);
      assert j.a[..n] == j.a[..n - 1] + [item];
      assert ShownIn(j.a[..n]) == ShownIn(j.a[..n - 1]) + {Shown(item)};
      var all := ShownIn(j.a[..n]);
      SetWeightMinus(all, Shown(item));
      SetWeightMonotone(all - {Shown(item)}, ShownIn(j.a[..n - 1]));
    }
  }

  lemma ReplyHoldsBodies(reply: Json)
    requires Get(reply, "items").Arr? && forall item :: item in reply.o["items"].a ==> Get(item, "id").Str?
    ensures SetWeight(ShownIn(reply.o["items"].a)) <= Size(reply)
  {
    var items := reply.o["items"];
    ArrayHoldsBodies(items, |items.a|);
    assert items.a[..|items.a|] == items.a;
    FieldHeld(reply, reply.o.Keys, "items");
  }

  // ----- the bound that evidence paging computes

  // The items of the complete page: one for each member with something left.
  ghost predicate Renders(sel: seq<Evidence>, offset: nat, items: seq<Json>) {
    && (forall item :: item in items ==> Get(item, "id").Str?)
    && (forall i :: 0 <= i < |sel| && Left(sel, offset, i) ==>
        exists item :: item in items && RendersOne(sel, offset, i, item))
  }

  predicate Left(sel: seq<Evidence>, offset: nat, i: nat)
    requires i < |sel|
  {
    offset < Base(sel, i + 1)
  }

  // A member with a text field shows what is left of its text; a placeholder has none.
  predicate RendersOne(sel: seq<Evidence>, offset: nat, i: nat, item: Json)
    requires i < |sel| && Left(sel, offset, i)
  {
    && Get(item, "id") == Str(sel[i].id)
    && (if sel[i].hasText then Get(item, "text").Str? && Encode(item.o["text"].s) == Remaining(sel, offset, i)
        else Get(item, "text") == Null)
  }

  // Nothing is left of the text of a member without a text field.
  predicate PlaceholdersEmpty(sel: seq<Evidence>) {
    forall e :: e in sel ==> e.hasText || e.text == ""
  }

  lemma {:induction false} BodyBytesAreWeight(sel: seq<Evidence>, offset: nat, n: nat)
    requires n <= |sel|
    ensures BodyBytes(sel, offset, n) == SetWeight(Bodies(sel, offset, n))
  {
    hide Encode, Remaining;
    if n > 0 && offset < Base(sel, n) {
      BodyBytesAreWeight(sel, offset, n - 1);
      var b := (sel[n - 1].id, Remaining(sel, offset, n - 1));
      SetWeightMinus(Bodies(sel, offset, n), b);
      if b !in Bodies(sel, offset, n - 1) {
        assert Bodies(sel, offset, n) - {b} == Bodies(sel, offset, n - 1);
      } else {
        assert Bodies(sel, offset, n) == Bodies(sel, offset, n - 1);
      }
    }
  }

  lemma RendersBody(sel: seq<Evidence>, offset: nat, i: nat, item: Json)
    requires i < |sel| && Left(sel, offset, i) && RendersOne(sel, offset, i, item) && PlaceholdersEmpty(sel)
    ensures Shown(item) == (sel[i].id, Remaining(sel, offset, i))
  {
    assert Encode("") == [];
    assert sel[i] in sel;
  }

  lemma {:induction false} BodiesAreShown(sel: seq<Evidence>, offset: nat, items: seq<Json>, n: nat)
    requires n <= |sel| && Renders(sel, offset, items) && PlaceholdersEmpty(sel)
    ensures Bodies(sel, offset, n) <= ShownIn(items)
  {
    hide Base, Shown, RendersOne, Remaining, PlaceholdersEmpty;
    if n > 0 && offset < Base(sel, n) {
      BodiesAreShown(sel, offset, items, n - 1);
      assert Left(sel, offset, n - 1);
      var item :| item in items && RendersOne(sel, offset, n - 1, item);
      RendersBody(sel, offset, n - 1, item);
    }
  }

  // A reply goes out plain, or with its bodies listed once.
  predicate OnTheWire(plain: Json, wire: Json)
    requires Get(plain, "items").Arr?
  {
    wire == plain || (Get(wire, "items").Arr? && SharesBodies(plain.o["items"].a, wire.o["items"].a))
  }

  /**
   The bound never exceeds what goes over the wire for the complete page, plain or
   shared, provided that no placeholder hides text.
   */
  lemma BoundSurvives(sel: seq<Evidence>, offset: nat, plain: Json, wire: Json)
    requires Get(plain, "items").Arr? && Renders(sel, offset, plain.o["items"].a) && PlaceholdersEmpty(sel)
    requires OnTheWire(plain, wire)
    ensures BodyBytes(sel, offset, |sel|) <= Size(wire)
  {
    hide Size, ShownIn, Bodies, BodyBytes, SharesBodies, RendersOne, Left;
    var items := plain.o["items"].a;
    BodyBytesAreWeight(sel, offset, |sel|);
    BodiesAreShown(sel, offset, items, |sel|);
    SetWeightMonotone(Bodies(sel, offset, |sel|), ShownIn(items));
    if wire == plain {
      ReplyHoldsBodies(plain);
    } else {
      var bodies := wire.o["items"].a;
      SharedShows(items, bodies);
      SetWeightMonotone(ShownIn(items), ShownIn(bodies));
      ReplyHoldsBodies(wire);
    }
  }

  lemma SharedShows(items: seq<Json>, bodies: seq<Json>)
    requires SharesBodies(items, bodies) && forall item :: item in items ==> Get(item, "id").Str?
    ensures ShownIn(items) <= ShownIn(bodies)
    ensures forall b :: b in bodies ==> Get(b, "id").Str?
  {
    hide Stripped, Shown, Defaults;
    forall item | item in items ensures Shown(item) in ShownIn(bodies) {
      StrippedShows(item, items);
      assert Stripped(item, Defaults(items)) in bodies;
    }
    forall b | b in bodies ensures Get(b, "id").Str? {
      var item :| item in items && b == Stripped(item, Defaults(items));
      StrippedShows(item, items);
    }
  }

  // What a count says of a size: every byte counts, or no token is longer than 128 bytes.
  predicate Counts(r: Reading, size: nat, used: nat) {
    size <= used * r.unit
  }

  /**
   A complete page that fits is never skipped: whatever goes over the wire for it, in
   bytes or in tokens of bounded length, the size test lets it through.
   */
  lemma FittingPageIsTried(r: Reading, offset: nat, plain: Json, wire: Json)
    requires Get(plain, "items").Arr? && Renders(r.selected, offset, plain.o["items"].a)
    requires PlaceholdersEmpty(r.selected) && OnTheWire(plain, wire)
    requires Fits(r, Complete(r, offset)) && Counts(r, Size(wire), r.cost(Complete(r, offset)).value)
    ensures Tried(r, offset)
  {
    hide Renders, PlaceholdersEmpty, OnTheWire, Size, BodyBytes, Complete;
    BoundSurvives(r.selected, offset, plain, wire);
    Scaled(r.cost(Complete(r, offset)).value, r.limit, r.unit);
  }

  lemma Scaled(a: nat, b: nat, unit: nat)
    requires a <= b
    ensures a * unit <= b * unit
  {
  }

  function Xs(n: nat): string {
    if n == 0 then "" else "x" + Xs(n - 1)
  }

  lemma {:induction false} XsBytes(n: nat)
    ensures |Encode(Xs(n))| == |Xs(n)| == n
  {
    if n > 0 {
      XsBytes(n - 1);
      assert Xs(n)[1..] == Xs(n - 1);
    }
  }

  // ----- when the bound holds

  lemma {:induction false} LeftIsBody(sel: seq<Evidence>, offset: nat, i: nat, n: nat)
    requires i < n <= |sel| && Left(sel, offset, i)
    ensures (sel[i].id, Remaining(sel, offset, i)) in Bodies(sel, offset, n)
  {
    hide Encode, Remaining;
    BaseGrows(sel, i + 1, n);
    if i + 1 < n {
      LeftIsBody(sel, offset, i, n - 1);
    }
  }

  /** A member with more text left than the reply has bytes breaks the bound, whatever the reply is. */
  lemma LongTextBreaks(sel: seq<Evidence>, offset: nat, i: nat)
    requires i < |sel| && Left(sel, offset, i)
    ensures BodyBytes(sel, offset, |sel|) >= |Remaining(sel, offset, i)|
  {
    hide Encode, Bodies;
    var b := (sel[i].id, Remaining(sel, offset, i));
    LeftIsBody(sel, offset, i, |sel|);
    BodyBytesAreWeight(sel, offset, |sel|);
    SetWeightMinus(Bodies(sel, offset, |sel|), b);
  }

  // What `fragment` writes into an item that has a text; one without is passed on as it is.
  const SPAN := {"text", "text_range", "total_bytes", "complete"}

  predicate Fragmented(frame: Json, e: Evidence, left: seq<byte>, item: Json)
    requires frame.Obj?
  {
    if "text" !in frame.o then item == frame
    else
      && item.Obj? && item.o - SPAN == frame.o - SPAN
      && Get(item, "text").Str? && Encode(item.o["text"].s) == left
  }

  predicate IsFrame(frame: Json) {
    frame.Obj? && Get(frame, "id").Str?
  }

  predicate Frames(frames: seq<Json>) {
    forall i :: 0 <= i < |frames| ==> IsFrame(frames[i])
  }

  // The members these frames belong to, whatever their texts.
  predicate Belongs(sel: seq<Evidence>, frames: seq<Json>) {
    && |sel| == |frames| && Frames(frames)
    && forall i :: 0 <= i < |sel| ==>
         frames[i].o["id"] == Str(sel[i].id) && sel[i].hasText == ("text" in frames[i].o)
  }

  // The complete page has one item for each member from the first with something left.
  predicate WholePage(sel: seq<Evidence>, frames: seq<Json>, offset: nat, first: nat, items: seq<Json>) {
    && Belongs(sel, frames) && first <= |sel| && |items| == |sel| - first
    && (forall i :: 0 <= i < first ==> !Left(sel, offset, i))
    && (forall k :: 0 <= k < |items| ==> ShowsMember(sel, frames, offset, first + k, items[k]))
  }

  predicate ShowsMember(sel: seq<Evidence>, frames: seq<Json>, offset: nat, i: nat, item: Json)
    requires i < |sel| && Belongs(sel, frames)
  {
    Left(sel, offset, i) && Fragmented(frames[i], sel[i], Remaining(sel, offset, i), item)
  }

  function WithItems(envelope: Json, items: seq<Json>): Json
    requires envelope.Obj?
  {
    Obj(envelope.o["items" := Arr(items)])
  }

  // The bound holds for every text the members may have, from every offset, in either form.
  ghost predicate BoundHolds(frames: seq<Json>, envelope: Json)
    requires envelope.Obj?
  {
    forall sel, offset, first, items, wire ::
      WholePage(sel, frames, offset, first, items) && OnTheWire(WithItems(envelope, items), wire) ==>
        BodyBytes(sel, offset, |sel|) <= Size(wire)
  }

  // An item without a text: the placeholder of a forgotten or missing member.
  predicate NoPlaceholder(frames: seq<Json>) {
    forall i :: 0 <= i < |frames| ==> frames[i].Obj? && "text" in frames[i].o
  }

  /**
   Exactly when the bound is one: in every envelope, it holds for all texts if and
   only if every selected item has a text field.
   */
  lemma BoundHoldsIff(frames: seq<Json>, envelope: Json)
    requires envelope.Obj? && Frames(frames)
    ensures BoundHolds(frames, envelope) <==> NoPlaceholder(frames)
  {
    hide Size, OnTheWire, WholePage, BodyBytes;
    if NoPlaceholder(frames) {
      forall sel, offset, first, items, wire |
        WholePage(sel, frames, offset, first, items) && OnTheWire(WithItems(envelope, items), wire)
        ensures BodyBytes(sel, offset, |sel|) <= Size(wire)
      {
        WholePageRenders(sel, frames, offset, first, items);
        BoundSurvives(sel, offset, WithItems(envelope, items), wire);
      }
    } else {
      var i: nat :| i < |frames| && !(frames[i].Obj? && "text" in frames[i].o);
      var items := Blanks(frames);
      var wire := WithItems(envelope, items);
      var sel := Hiding(frames, i, Size(wire) + 1);
      HidingBreaks(frames, i, Size(wire) + 1);
      assert OnTheWire(wire, wire) by { PlainOnTheWire(wire); }
    }
  }

  lemma PlainOnTheWire(wire: Json)
    requires Get(wire, "items").Arr?
    ensures OnTheWire(wire, wire)
  {
  }

  lemma WholePageRenders(sel: seq<Evidence>, frames: seq<Json>, offset: nat, first: nat, items: seq<Json>)
    requires WholePage(sel, frames, offset, first, items) && NoPlaceholder(frames)
    ensures Renders(sel, offset, items) && PlaceholdersEmpty(sel)
  {
    hide Left, ShowsMember, RendersOne, IsFrame;
    forall item | item in items ensures Get(item, "id").Str? {
      var k :| 0 <= k < |items| && items[k] == item;
      MemberRenders(sel, frames, offset, first + k, item);
    }
    forall i | 0 <= i < |sel| && Left(sel, offset, i)
      ensures exists item :: item in items && RendersOne(sel, offset, i, item)
    {
      var k := i - first;
      assert items[k] in items && i == first + k;
      MemberRenders(sel, frames, offset, i, items[k]);
    }
  }

  lemma MemberRenders(sel: seq<Evidence>, frames: seq<Json>, offset: nat, i: nat, item: Json)
    requires i < |sel| && Belongs(sel, frames) && ShowsMember(sel, frames, offset, i, item)
    ensures Left(sel, offset, i) && RendersOne(sel, offset, i, item) && Get(item, "id").Str?
  {
    hide Encode, Base;
    FragmentKeepsId(frames[i], sel[i], Remaining(sel, offset, i), item);
  }

  lemma FragmentKeepsId(frame: Json, e: Evidence, left: seq<byte>, item: Json)
    requires IsFrame(frame) && Fragmented(frame, e, left, item)
    ensures Get(item, "id") == frame.o["id"]
  {
    hide Encode;
    if "text" in frame.o {
      assert "id" in frame.o - SPAN;
      assert "id" in item.o - SPAN;
    }
  }

  // The items of members whose texts are all empty, but for what placeholders do not show.
  function Blank(frame: Json): Json
    requires frame.Obj?
  {
    if "text" in frame.o then Obj(frame.o["text" := Str("")]) else frame
  }

  function Blanks(frames: seq<Json>): seq<Json>
    requires Frames(frames)
  {
    seq(|frames|, i requires 0 <= i < |frames| => Blank(frames[i]))
  }

  // Members with empty texts, one of them with `n` bytes.
  function Hiding(frames: seq<Json>, at: nat, n: nat): seq<Evidence>
    requires Frames(frames)
  {
    seq(|frames|, i requires 0 <= i < |frames| =>
      Evidence(frames[i].o["id"].s, if i == at then Xs(n) else "", "text" in frames[i].o, false))
  }

  lemma HidingBreaks(frames: seq<Json>, at: nat, n: nat)
    requires Frames(frames) && at < |frames| && "text" !in frames[at].o
    ensures WholePage(Hiding(frames, at, n), frames, 0, 0, Blanks(frames))
    ensures BodyBytes(Hiding(frames, at, n), 0, |frames|) >= n
  {
    hide Encode, BodyBytes, Xs, Blank, ShowsMember;
    var sel := Hiding(frames, at, n);
    XsBytes(n);
    forall k | 0 <= k < |frames| ensures ShowsMember(sel, frames, 0, 0 + k, Blanks(frames)[k]) {
      MemberIsBlank(sel, frames, k);
    }
    AllLeft(sel, at);
    LongTextBreaks(sel, 0, at);
  }

  // From the start, all of every member is left.
  lemma AllLeft(sel: seq<Evidence>, i: nat)
    requires i < |sel|
    ensures Left(sel, 0, i) && Remaining(sel, 0, i) == Bytes(sel[i])
  {
    hide Encode;
    BaseGrows(sel, 0, i + 1);
  }

  lemma MemberIsBlank(sel: seq<Evidence>, frames: seq<Json>, i: nat)
    requires i < |sel| && Belongs(sel, frames) && (sel[i].hasText ==> sel[i].text == "")
    ensures ShowsMember(sel, frames, 0, i, Blank(frames[i]))
  {
    hide Base, Remaining;
    AllLeft(sel, i);
    BlankIsFragment(frames[i], sel[i]);
  }

  lemma BlankIsFragment(frame: Json, e: Evidence)
    requires IsFrame(frame) && ("text" in frame.o ==> e.text == "")
    ensures Fragmented(frame, e, Bytes(e), Blank(frame))
  {
    if "text" in frame.o {
      assert Blank(frame).o - SPAN == frame.o - SPAN;
    }
  }
}
