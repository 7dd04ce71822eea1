/**
 What `show` and the compact `brief` select for a page of evidence (src/operations.rs
 `show_page`, `item_value`, `read`), and why no placeholder among it hides a text.
 */
module Selection {
  import opened Wrappers
  import opened JsonValues
  import opened Tombstones
  import opened Forgetting
  import opened EvidencePaging
  import opened Admission
  import Purge
  import PageSize

  // What a reading looks things up in: the ledger, its tombstones, stored payloads and older views.
  datatype Shelf = Shelf(
    forgotten: set<string>, time: ParseTime, ts: seq<Tombstone>, payload: string -> Option<string>,
    history: string -> Option<seq<Member>>, inScope: Member -> bool)

  // The item shows nothing but that it is forgotten.
  predicate Withheld(l: Shelf, it: Item) {
    it.id in l.forgotten || ExcludesId(l.time, l.ts, it.id, it.recordedAt)
  }

  // An item that is no more than its identity: it has no text field, and no text is paired with it.
  function Placeholder(id: string): Evidence {
    Evidence(id, "", false, false)
  }

  // A member's stored text beside its item, which has a text field unless it is withheld.
  function EvidenceOf(l: Shelf, m: Member): Option<Evidence> {
    var text := l.payload(m.item.version);
    if text.None? then None else Some(Evidence(m.item.id, text.value, !Withheld(l, m.item), m.required))
  }

  function AllEvidence(l: Shelf, ms: seq<Member>): Option<seq<Evidence>> {
    if ms == [] then Some([])
    else
      var most, last := AllEvidence(l, ms[..|ms| - 1]), EvidenceOf(l, ms[|ms| - 1]);
      if most.Some? && last.Some? then Some(most.value + [last.value]) else None
  }

  // ----- show

  // The members of one identity, in the order of the view.
  function Of(ms: seq<Member>, id: string): seq<Member> {
    if ms == [] then []
    else Of(ms[..|ms| - 1], id) + if ms[|ms| - 1].item.id == id then [ms[|ms| - 1]] else []
  }

  // The newest older member in scope.
  function FirstIn(l: Shelf, ms: seq<Member>): Option<Member> {
    if ms == [] then None else if l.inScope(ms[0]) then Some(ms[0]) else FirstIn(l, ms[1..])
  }

  function OldEvidence(l: Shelf, id: string): Option<seq<Evidence>> {
    if l.history(id).None? then None
    else
      match FirstIn(l, l.history(id).value)
      case None => Some([Placeholder(id)])
      case Some(m) =>
        if ExcludesId(l.time, l.ts, id, m.item.recordedAt) then Some([Placeholder(id)]) else AllEvidence(l, [m])
  }

  // What one requested identity is answered with.
  function Answer(l: Shelf, view: seq<Member>, id: string): Option<seq<Evidence>> {
    if id in l.forgotten || ExcludesId(l.time, l.ts, id, None) then Some([Placeholder(id)])
    else if Of(view, id) != [] then AllEvidence(l, Of(view, id))
    else OldEvidence(l, id)
  }

  function Answers(l: Shelf, view: seq<Member>, ids: seq<string>): Option<seq<Evidence>> {
    if ids == [] then Some([])
    else
      var most, last := Answers(l, view, ids[..|ids| - 1]), Answer(l, view, ids[|ids| - 1]);
      if most.Some? && last.Some? then Some(most.value + last.value) else None
  }

  method ShowSelected(l: Shelf, view: seq<Member>, ids: seq<string>) returns (selected: Option<seq<Evidence>>)
    ensures selected == Answers(l, view, ids)
  {
    hide ExcludesId, Of, AllEvidence, OldEvidence;
    var out: seq<Evidence> := [];
    assert ids[..0] == [];
    for i := 0 to |ids|
      invariant Answers(l, view, ids[..i]) == Some(out)
    {
      var id := ids[i];
      assert ids[..i + 1][..i] == ids[..i];
      if id in l.forgotten || ExcludesId(l.time, l.ts, id, None) {
        out := out + [Placeholder(id)];
      } else {
        var found := Members(view, id);
        var more := None;
        if found != [] {
          more := Texts(l, found);
        } else {
          more := Older(l, id);
        }
        if more.None? {
          NoAnswer(l, view, ids, i);
          return None;
        }
        out := out + more.value;
      }
    }
    assert ids[..|ids|] == ids;
    return Some(out);
  }

  lemma {:induction false} NoAnswer(l: Shelf, view: seq<Member>, ids: seq<string>, i: nat)
    requires i < |ids| && Answer(l, view, ids[i]) == None
    ensures Answers(l, view, ids) == None
  {
    hide Answer;
    if i < |ids| - 1 {
      NoAnswer(l, view, ids[..|ids| - 1], i);
    }
  }

  method Members(view: seq<Member>, id: string) returns (found: seq<Member>)
    ensures found == Of(view, id)
  {
    found := [];
    for i := 0 to |view|
      invariant found == Of(view[..i], id)
    {
      assert view[..i + 1][..i] == view[..i];
      if view[i].item.id == id {
        found := found + [view[i]];
      }
    }
    assert view[..|view|] == view;
  }

  method Texts(l: Shelf, ms: seq<Member>) returns (out: Option<seq<Evidence>>)
    ensures out == AllEvidence(l, ms)
  {
    hide EvidenceOf;
    var es: seq<Evidence> := [];
    assert ms[..0] == [];
    for i := 0 to |ms|
      invariant AllEvidence(l, ms[..i]) == Some(es)
    {
      assert ms[..i + 1][..i] == ms[..i];
      var e := EvidenceOf(l, ms[i]);
      if e.None? {
        NoText(l, ms, i);
        return None;
      }
      es := es + [e.value];
    }
    assert ms[..|ms|] == ms;
    return Some(es);
  }

  lemma {:induction false} NoText(l: Shelf, ms: seq<Member>, i: nat)
    requires i < |ms| && EvidenceOf(l, ms[i]) == None
    ensures AllEvidence(l, ms) == None
  {
    if i < |ms| - 1 {
      NoText(l, ms[..|ms| - 1], i);
    }
  }

  method Older(l: Shelf, id: string) returns (out: Option<seq<Evidence>>)
    ensures out == OldEvidence(l, id)
  {
    hide ExcludesId, AllEvidence;
    var history := l.history(id);
    if history.None? {
      return None;
    }
    var i := 0;
    while i < |history.value| && !l.inScope(history.value[i])
      invariant i <= |history.value| && FirstIn(l, history.value) == FirstIn(l, history.value[i..])
    {
      i := i + 1;
    }
    if i == |history.value| {
      return Some([Placeholder(id)]);
    }
    var m := history.value[i];
    if ExcludesId(l.time, l.ts, id, m.item.recordedAt) {
      return Some([Placeholder(id)]);
    }
    out := Texts(l, [m]);
  }

  // ----- what an answer says

  // The places, from the front, of the members to be kept.
  ghost predicate Picks(ms: seq<Member>, keep: Member -> bool, picks: seq<nat>) {
    && (forall j :: 0 <= j < |picks| ==> picks[j] < |ms|)
    && (forall j, k :: 0 <= j < k < |picks| ==> picks[j] < picks[k])
    && (forall i: nat :: i in picks <==> i < |ms| && keep(ms[i]))
  }

  // A text beside its item, as the stored payload has it.
  predicate Quotes(l: Shelf, m: Member, e: Evidence) {
    && l.payload(m.item.version) == Some(e.text) && e.id == m.item.id && e.required == m.required
    && (e.hasText <==> !(m.item.id in l.forgotten || ExcludesId(l.time, l.ts, m.item.id, m.item.recordedAt)))
  }

  // Every member kept is quoted, in order.
  ghost predicate QuotesAll(l: Shelf, ms: seq<Member>, keep: Member -> bool, es: seq<Evidence>) {
    exists picks :: Picks(ms, keep, picks) && QuotesAt(l, ms, picks, es)
  }

  predicate QuotesAt(l: Shelf, ms: seq<Member>, picks: seq<nat>, es: seq<Evidence>) {
    |es| == |picks| && forall j :: 0 <= j < |picks| ==> picks[j] < |ms| && Quotes(l, ms[picks[j]], es[j])
  }

  predicate NewestInScope(l: Shelf, past: seq<Member>, k: nat) {
    k < |past| && l.inScope(past[k]) && forall i :: 0 <= i < k ==> !l.inScope(past[i])
  }

  // One requested identity: withheld, shown from the view, or shown from the newest older view in scope.
  ghost predicate Answered(l: Shelf, view: seq<Member>, id: string, es: seq<Evidence>) {
    if id in l.forgotten || ExcludesId(l.time, l.ts, id, None) then es == [Evidence(id, "", false, false)]
    else if exists m :: m in view && m.item.id == id then QuotesAll(l, view, (m: Member) => m.item.id == id, es)
    else l.history(id).Some? && AnsweredOld(l, id, l.history(id).value, es)
  }

  ghost predicate AnsweredOld(l: Shelf, id: string, past: seq<Member>, es: seq<Evidence>) {
    if exists m :: m in past && l.inScope(m) then
      exists k: nat :: NewestInScope(l, past, k) && AnsweredBy(l, id, past[k], es)
    else es == [Evidence(id, "", false, false)]
  }

  predicate AnsweredBy(l: Shelf, id: string, m: Member, es: seq<Evidence>) {
    if ExcludesId(l.time, l.ts, id, m.item.recordedAt) then es == [Evidence(id, "", false, false)]
    else |es| == 1 && Quotes(l, m, es[0])
  }

  function Flat(blocks: seq<seq<Evidence>>): seq<Evidence> {
    if blocks == [] then [] else Flat(blocks[..|blocks| - 1]) + blocks[|blocks| - 1]
  }

  /** Every identity asked for is answered, in the order asked, and nothing else is selected. */
  ghost predicate AnswersAll(l: Shelf, view: seq<Member>, ids: seq<string>, selected: seq<Evidence>) {
    exists blocks :: Flat(blocks) == selected && AnswersEach(l, view, ids, blocks)
  }

  ghost predicate AnswersEach(l: Shelf, view: seq<Member>, ids: seq<string>, blocks: seq<seq<Evidence>>) {
    |blocks| == |ids| && forall k :: 0 <= k < |ids| ==> Answered(l, view, ids[k], blocks[k])
  }

  lemma {:induction false} OfPicks(ms: seq<Member>, id: string) returns (picks: seq<nat>)
    ensures Picks(ms, (m: Member) => m.item.id == id, picks)
    ensures |Of(ms, id)| == |picks| && forall j :: 0 <= j < |picks| ==> picks[j] < |ms| && Of(ms, id)[j] == ms[picks[j]]
  {
    picks := [];
    if ms != [] {
      var last := |ms| - 1;
      picks := OfPicks(ms[..last], id);
      if ms[last].item.id == id {
        PicksMore(ms, (m: Member) => m.item.id == id, picks);
        picks := picks + [last];
      } else {
        PicksSame(ms, (m: Member) => m.item.id == id, picks);
      }
    }
  }

  lemma PicksMore(ms: seq<Member>, keep: Member -> bool, picks: seq<nat>)
    requires ms != [] && Picks(ms[..|ms| - 1], keep, picks) && keep(ms[|ms| - 1])
    ensures Picks(ms, keep, picks + [|ms| - 1])
  {
    var more: seq<nat> := picks + [|ms| - 1];
    forall i: nat ensures i in more <==> i < |ms| && keep(ms[i]) {
      assert i in more <==> i in picks || i == |ms| - 1;
    }
  }

  lemma PicksSame(ms: seq<Member>, keep: Member -> bool, picks: seq<nat>)
    requires ms != [] && Picks(ms[..|ms| - 1], keep, picks) && !keep(ms[|ms| - 1])
    ensures Picks(ms, keep, picks)
  {
  }

  lemma {:induction false} EvidenceQuotes(l: Shelf, ms: seq<Member>)
    requires AllEvidence(l, ms).Some?
    ensures var es := AllEvidence(l, ms).value;
      |es| == |ms| && forall j :: 0 <= j < |ms| ==> Quotes(l, ms[j], es[j])
  {
    hide ExcludesId;
    if ms != [] {
      EvidenceQuotes(l, ms[..|ms| - 1]);
    }
  }

  lemma OfMeans(l: Shelf, view: seq<Member>, id: string)
    requires AllEvidence(l, Of(view, id)).Some?
    ensures QuotesAll(l, view, (m: Member) => m.item.id == id, AllEvidence(l, Of(view, id)).value)
  {
    hide AllEvidence, Quotes, Of, Picks;
    var picks := OfPicks(view, id);
    EvidenceQuotes(l, Of(view, id));
    assert QuotesAt(l, view, picks, AllEvidence(l, Of(view, id)).value);
  }

  lemma {:induction false} OfIsAll(ms: seq<Member>, id: string)
    ensures Of(ms, id) != [] <==> exists m :: m in ms && m.item.id == id
  {
    if ms != [] {
      OfIsAll(ms[..|ms| - 1], id);
      assert ms == ms[..|ms| - 1] + [ms[|ms| - 1]];
    }
  }

  lemma {:induction false} FirstIsNewest(l: Shelf, ms: seq<Member>) returns (k: nat)
    ensures FirstIn(l, ms).None? <==> forall m :: m in ms ==> !l.inScope(m)
    ensures FirstIn(l, ms).Some? ==> NewestInScope(l, ms, k) && ms[k] == FirstIn(l, ms).value
  {
    k := 0;
    if ms != [] && !l.inScope(ms[0]) {
      k := FirstIsNewest(l, ms[1..]);
      k := k + 1;
      assert ms == [ms[0]] + ms[1..];
    }
  }

  lemma OldIsAnswered(l: Shelf, view: seq<Member>, id: string)
    requires OldEvidence(l, id).Some?
    ensures l.history(id).Some? && AnsweredOld(l, id, l.history(id).value, OldEvidence(l, id).value)
  {
    hide ExcludesId, Quotes, FirstIn;
    var past := l.history(id).value;
    var k := FirstIsNewest(l, past);
    if FirstIn(l, past).Some? {
      assert past[k] in past;
      var m := past[k];
      if !ExcludesId(l.time, l.ts, id, m.item.recordedAt) {
        EvidenceQuotes(l, [m]);
      }
      assert AnsweredBy(l, id, m, OldEvidence(l, id).value);
    }
  }

  lemma AnswerMeans(l: Shelf, view: seq<Member>, id: string)
    requires Answer(l, view, id).Some?
    ensures Answered(l, view, id, Answer(l, view, id).value)
  {
    hide ExcludesId, AllEvidence, OldEvidence, QuotesAll, AnsweredOld, Of;
    OfIsAll(view, id);
    if id in l.forgotten || ExcludesId(l.time, l.ts, id, None) {
    } else if Of(view, id) != [] {
      OfMeans(l, view, id);
    } else {
      OldIsAnswered(l, view, id);
    }
  }

  lemma {:induction false} AnswersMean(l: Shelf, view: seq<Member>, ids: seq<string>)
    returns (blocks: seq<seq<Evidence>>)
    requires Answers(l, view, ids).Some?
    ensures AnswersEach(l, view, ids, blocks) && Flat(blocks) == Answers(l, view, ids).value
  {
    hide Answer, Answered;
    blocks := [];
    if ids != [] {
      var last := |ids| - 1;
      var most := AnswersMean(l, view, ids[..last]);
      AnswerMeans(l, view, ids[last]);
      blocks := most + [Answer(l, view, ids[last]).value];
      assert blocks[..last] == most;
    }
  }

  // What an answer would need is not there: the text of a member, or the history of an identity.
  ghost predicate Wanting(l: Shelf, view: seq<Member>, id: string) {
    && id !in l.forgotten && !ExcludesId(l.time, l.ts, id, None)
    && if exists m :: m in view && m.item.id == id then
         exists m :: m in view && m.item.id == id && l.payload(m.item.version) == None
       else
         || l.history(id) == None
         || exists k: nat :: NewestInScope(l, l.history(id).value, k)
                             && Textless(l, id, l.history(id).value[k])
  }

  predicate Textless(l: Shelf, id: string, m: Member) {
    !ExcludesId(l.time, l.ts, id, m.item.recordedAt) && l.payload(m.item.version) == None
  }

  lemma {:induction false} NoTextIn(l: Shelf, ms: seq<Member>)
    ensures AllEvidence(l, ms) == None <==> exists m :: m in ms && l.payload(m.item.version) == None
  {
    hide Withheld;
    if ms != [] {
      var most, m := ms[..|ms| - 1], ms[|ms| - 1];
      NoTextIn(l, most);
      assert forall x :: x in ms <==> x in most || x == m;
    }
  }

  lemma {:induction false} OfHasAll(ms: seq<Member>, id: string)
    ensures forall m :: m in Of(ms, id) <==> m in ms && m.item.id == id
  {
    if ms != [] {
      OfHasAll(ms[..|ms| - 1], id);
      assert forall x :: x in ms <==> x in ms[..|ms| - 1] || x == ms[|ms| - 1];
    }
  }

  lemma OneNewest(l: Shelf, ms: seq<Member>, j: nat, k: nat)
    requires NewestInScope(l, ms, j) && NewestInScope(l, ms, k)
    ensures j == k
  {
  }

  lemma OldIsWanting(l: Shelf, id: string)
    requires l.history(id).Some?
    ensures OldEvidence(l, id) == None <==>
            exists k: nat :: NewestInScope(l, l.history(id).value, k) && Textless(l, id, l.history(id).value[k])
  {
    hide ExcludesId, AllEvidence, NewestInScope;
    var past := l.history(id).value;
    var k := FirstIsNewest(l, past);
    if FirstIn(l, past).Some? {
      NoTextIn(l, [past[k]]);
      forall j: nat | NewestInScope(l, past, j) ensures j == k {
        OneNewest(l, past, j, k);
      }
    } else {
      forall j: nat ensures !NewestInScope(l, past, j) {
        NoneInScope(l, past, j);
      }
    }
  }

  lemma NoneInScope(l: Shelf, ms: seq<Member>, k: nat)
    requires forall m :: m in ms ==> !l.inScope(m)
    ensures !NewestInScope(l, ms, k)
  {
    if k < |ms| {
      assert ms[k] in ms;
    }
  }

  lemma AnswerIsWanting(l: Shelf, view: seq<Member>, id: string)
    ensures Answer(l, view, id) == None <==> Wanting(l, view, id)
  {
    hide ExcludesId, AllEvidence, OldEvidence, NewestInScope, Textless, Of;
    OfIsAll(view, id);
    OfHasAll(view, id);
    NoTextIn(l, Of(view, id));
    if l.history(id).Some? {
      OldIsWanting(l, id);
    } else {
      NoHistory(l, id);
    }
  }

  lemma NoHistory(l: Shelf, id: string)
    requires l.history(id) == None
    ensures OldEvidence(l, id) == None
  {
  }

  /** The selection fails exactly if something it needs for an identity asked for is not there. */
  lemma {:induction false} FailsIfWanting(l: Shelf, view: seq<Member>, ids: seq<string>)
    ensures Answers(l, view, ids) == None <==> exists id :: id in ids && Wanting(l, view, id)
  {
    hide Answer, Wanting;
    if ids != [] {
      var last := ids[|ids| - 1];
      FailsIfWanting(l, view, ids[..|ids| - 1]);
      AnswerIsWanting(l, view, last);
      assert forall x :: x in ids <==> x in ids[..|ids| - 1] || x == last;
    }
  }

  /** What is selected for the identities asked for, said without the loops. */
  lemma SelectedMeans(l: Shelf, view: seq<Member>, ids: seq<string>)
    requires Answers(l, view, ids).Some?
    ensures AnswersAll(l, view, ids, Answers(l, view, ids).value)
  {
    hide Answers, AnswersEach;
    var blocks := AnswersMean(l, view, ids);
  }

  // ----- the compact brief

  predicate Passes(l: Shelf, it: Item) {
    !ExcludesRecord(l.time, l.ts, l.forgotten, it.id, it.source, it.recordedAt)
  }

  function Passed(l: Shelf, ms: seq<Member>): seq<Member> {
    if ms == [] then []
    else Passed(l, ms[..|ms| - 1]) + if Passes(l, ms[|ms| - 1].item) then [ms[|ms| - 1]] else []
  }

  lemma {:induction false} PassedPicks(l: Shelf, ms: seq<Member>) returns (picks: seq<nat>)
    ensures Picks(ms, (m: Member) => Passes(l, m.item), picks)
    ensures |Passed(l, ms)| == |picks|
    ensures forall j :: 0 <= j < |picks| ==> picks[j] < |ms| && Passed(l, ms)[j] == ms[picks[j]]
  {
    hide Passes;
    picks := [];
    if ms != [] {
      var last := |ms| - 1;
      picks := PassedPicks(l, ms[..last]);
      if Passes(l, ms[last].item) {
        PicksMore(ms, (m: Member) => Passes(l, m.item), picks);
        picks := picks + [last];
      } else {
        PicksSame(ms, (m: Member) => Passes(l, m.item), picks);
      }
    }
  }

  lemma BriefMeans(l: Shelf, members: seq<Member>)
    requires AllEvidence(l, Passed(l, members)).Some?
    ensures QuotesAll(l, members, (m: Member) => Passes(l, m.item), AllEvidence(l, Passed(l, members)).value)
  {
    hide AllEvidence, Quotes, Passed, Passes, Picks;
    var picks := PassedPicks(l, members);
    EvidenceQuotes(l, Passed(l, members));
    assert QuotesAt(l, members, picks, AllEvidence(l, Passed(l, members)).value);
  }

  // Members in the order of their ranks, those excluded left out before anything else.
  method BriefSelected(l: Shelf, members: seq<Member>) returns (selected: Option<seq<Evidence>>)
    ensures selected == AllEvidence(l, Passed(l, members))
    ensures selected.Some? ==> QuotesAll(l, members, (m: Member) => Passes(l, m.item), selected.value)
  {
    hide Passes, AllEvidence, QuotesAll;
    var kept: seq<Member> := [];
    for i := 0 to |members|
      invariant kept == Passed(l, members[..i])
    {
      assert members[..i + 1][..i] == members[..i];
      if Passes(l, members[i].item) {
        kept := kept + [members[i]];
      }
    }
    assert members[..|members|] == members;
    selected := Texts(l, kept);
    if selected.Some? {
      BriefMeans(l, members);
    }
  }

  // ----- nothing is hidden

  // A member of some view of some generation, as it was published.
  ghost predicate InView(w: Names, s: Disk, m: Member) {
    Named(w, m.item) && exists g, view ::
      g in s.indexes && ViewItem(view, m.item.id, m.item.version, m.item.observation) in s.indexes[g].viewItems
  }

  // The shelf belongs to a disk, and its histories are of the identity asked for.
  ghost predicate Over(l: Shelf, s: Disk) {
    && l.forgotten == s.forgotten
    && forall id :: l.history(id).Some? ==> forall m :: m in l.history(id).value ==> m.item.id == id
  }

  lemma MemberIsNotShut(w: Names, l: Shelf, s: Disk, m: Member)
    requires Clear(w, l.time, l.ts, s) && InView(w, s, m)
    ensures !ExcludesId(l.time, l.ts, m.item.id, m.item.recordedAt)
  {
    hide ExcludesId;
    var g, view :| g in s.indexes
        && ViewItem(view, m.item.id, m.item.version, m.item.observation) in s.indexes[g].viewItems;
    var row := ViewItem(view, m.item.id, m.item.version, m.item.observation);
    assert !Shut(w, l.time, l.ts, row);
  }

  // Evidence with a text field, or without any text.
  predicate Open(e: Evidence) {
    e.hasText || e.text == ""
  }

  lemma {:induction false} AllEvidenceOpen(l: Shelf, ms: seq<Member>)
    requires AllEvidence(l, ms).Some? && forall m :: m in ms ==> !Withheld(l, m.item)
    ensures forall e :: e in AllEvidence(l, ms).value ==> e.hasText
  {
    hide Withheld;
    if ms != [] {
      assert ms[|ms| - 1] in ms && forall m :: m in ms[..|ms| - 1] ==> m in ms;
      AllEvidenceOpen(l, ms[..|ms| - 1]);
    }
  }

  lemma {:induction false} OfIsIn(ms: seq<Member>, id: string)
    ensures forall m :: m in Of(ms, id) ==> m in ms && m.item.id == id
  {
    if ms != [] {
      OfIsIn(ms[..|ms| - 1], id);
    }
  }

  lemma {:induction false} FirstIsIn(l: Shelf, ms: seq<Member>)
    ensures FirstIn(l, ms).Some? ==> FirstIn(l, ms).value in ms
  {
    if ms != [] {
      FirstIsIn(l, ms[1..]);
    }
  }

  lemma AnswerIsOpen(w: Names, l: Shelf, s: Disk, view: seq<Member>, id: string)
    requires Clear(w, l.time, l.ts, s) && Over(l, s) && forall m :: m in view ==> InView(w, s, m)
    requires Answer(l, view, id).Some?
    ensures forall e :: e in Answer(l, view, id).value ==> Open(e)
  {
    hide ExcludesId, Clear, InView, AllEvidence, Of, FirstIn;
    OfIsIn(view, id);
    if id in l.forgotten || ExcludesId(l.time, l.ts, id, None) {
    } else if Of(view, id) != [] {
      forall m | m in Of(view, id) ensures !Withheld(l, m.item) {
        MemberIsNotShut(w, l, s, m);
      }
      AllEvidenceOpen(l, Of(view, id));
    } else {
      var history := l.history(id).value;
      FirstIsIn(l, history);
      var first := FirstIn(l, history);
      if first.Some? && !ExcludesId(l.time, l.ts, id, first.value.item.recordedAt) {
        AllEvidenceOpen(l, [first.value]);
      }
    }
  }

  /**
   What `show` selects from any view after a purge with its tombstones hides no text
   behind a placeholder, whichever identities are asked for.
   */
  lemma {:induction false} ShowHidesNothing(w: Names, l: Shelf, s: Disk, view: seq<Member>, ids: seq<string>)
    requires Clear(w, l.time, l.ts, s) && Over(l, s) && forall m :: m in view ==> InView(w, s, m)
    requires Answers(l, view, ids).Some?
    ensures PageSize.PlaceholdersEmpty(Answers(l, view, ids).value)
  {
    hide Clear, Over, InView, Answer;
    if ids != [] {
      ShowHidesNothing(w, l, s, view, ids[..|ids| - 1]);
      AnswerIsOpen(w, l, s, view, ids[|ids| - 1]);
    }
  }

  lemma {:induction false} PassedPass(l: Shelf, ms: seq<Member>)
    ensures forall m :: m in Passed(l, ms) ==> m in ms && Passes(l, m.item)
  {
    hide Passes;
    if ms != [] {
      PassedPass(l, ms[..|ms| - 1]);
    }
  }

  /** The compact brief leaves out what it would withhold, so every item it selects has a text field. */
  lemma BriefHidesNothing(w: Names, l: Shelf, members: seq<Member>)
    requires forall m :: m in members ==> Named(w, m.item)
    requires AllEvidence(l, Passed(l, members)).Some?
    ensures forall e :: e in AllEvidence(l, Passed(l, members)).value ==> e.hasText
    ensures PageSize.PlaceholdersEmpty(AllEvidence(l, Passed(l, members)).value)
  {
    hide AnyMatch, AllEvidence, Passed;
    PassedPass(l, members);
    AllEvidenceOpen(l, Passed(l, members));
  }

  // ----- a page that fits is tried

  // What a reading may have selected, after its tombstones were applied to the disk `log[b]` came from.
  ghost predicate Selects(w: Names, l: Shelf, s: Disk, selected: seq<Evidence>) {
    || (exists view, ids :: Answers(l, view, ids) == Some(selected) && forall m :: m in view ==> InView(w, s, m))
    || (exists members: seq<Member> :: AllEvidence(l, Passed(l, members)) == Some(selected)
          && forall m: Member :: m in members ==> Named(w, m.item))
  }

  /**
   No page that fits is ever skipped. In any state that a run reaches once the reading's
   tombstones have been applied, everything published since being tested with them, the
   complete page of what `show` or the compact brief selects is tried if it fits, in
   bytes or in tokens, plain or shared.
   */
  lemma SelectedPageIsTried(w: Names, s: Disk, log: seq<Disk>, j: nat, l: Shelf, r: Reading, offset: nat,
                            plain: Json, wire: Json)
    requires TestedRun(w, l.time, l.ts, log) && j < |log|
    requires Inv(s) && AllFiled(w, s) && (Purge.Applied(l.time, l.ts, s, log[0]) || l.ts == [])
    requires Over(l, log[j]) && Selects(w, l, log[j], r.selected)
    requires Get(plain, "items").Arr? && PageSize.Renders(r.selected, offset, plain.o["items"].a)
    requires PageSize.OnTheWire(plain, wire) && Fits(r, EvidencePaging.Complete(r, offset))
    requires PageSize.Counts(r, PageSize.Size(wire), r.cost(EvidencePaging.Complete(r, offset)).value)
    ensures Tried(r, offset)
  {
    hide TestedRun, Clear, Over, Selects, Inv, AllFiled, Purge.Applied, Fits, Tried, PageSize.PlaceholdersEmpty;
    hide PageSize.Renders, PageSize.OnTheWire, PageSize.Counts, PageSize.Size, EvidencePaging.Complete;
    StaysClear(w, l.time, l.ts, s, log, j);
    SelectionHidesNothing(w, l, log[j], r.selected);
    PageSize.FittingPageIsTried(r, offset, plain, wire);
  }

  lemma SelectionHidesNothing(w: Names, l: Shelf, s: Disk, selected: seq<Evidence>)
    requires Clear(w, l.time, l.ts, s) && Over(l, s) && Selects(w, l, s, selected)
    ensures PageSize.PlaceholdersEmpty(selected)
  {
    hide Clear, Over, Answers, AllEvidence, Passed, InView, Named, PageSize.PlaceholdersEmpty;
    if view, ids :| Answers(l, view, ids) == Some(selected) && forall m :: m in view ==> InView(w, s, m) {
      ShowHidesNothing(w, l, s, view, ids);
    } else {
      var members: seq<Member> :| AllEvidence(l, Passed(l, members)) == Some(selected)
        && forall m: Member :: m in members ==> Named(w, m.item);
      BriefHidesNothing(w, l, members);
    }
  }

  /**
   One reading of `show`, from the purge to the selection: whatever the disk held, and
   whatever is published in between, nothing selected from its views hides a text.
   */
  method Show(archive: Purge.Archive, ghost w: Names, ts: seq<Tombstone>, p: Publication,
              payload: string -> Option<string>,
              history: string -> Option<seq<Member>>, inScope: Member -> bool, view: seq<Member>, ids: seq<string>)
    returns (selected: Option<seq<Evidence>>)
    requires archive.Valid() && Purge.Loaded(ts) && AllFiled(w, archive.disk)
    requires Sound(w, p) && Tested(archive.time, ts, p)
    requires forall id :: history(id).Some? ==> forall m :: m in history(id).value ==> m.item.id == id
    modifies archive
    ensures archive.Valid() && (selected.Some? ==> AllFiled(w, archive.disk))
    ensures selected.Some? && (forall m :: m in view ==> InView(w, archive.disk, m)) ==>
      PageSize.PlaceholdersEmpty(selected.value)
    ensures selected.Some? ==>
      AnswersAll(Shelf(archive.disk.forgotten, archive.time, ts, payload, history, inScope), view, ids, selected.value)
  {
    hide Run, Inv, Purge.Applied, Purge.KeysAgree, Purge.Stopped, Clear, AllFiled, InView, Answers, Consistent;
    hide PageSize.PlaceholdersEmpty, Inserted, Carries, Rows, Sound, Tested, AnswersAll;
    ghost var before := archive.disk;
    var purged := archive.Apply(ts);
    if purged.Err? {
      return None;
    }
    ghost var middle := archive.disk;
    PurgedIsReady(w, archive.time, ts, before, middle);
    var batch := Rows(p);
    // the index refuses rows that refer to nothing
    if !Consistent(Inserted(archive.disk.indexes[archive.live], batch)) {
      return None;
    }
    var published := archive.Publish(batch);
    if published.Err? {
      return None;
    }
    PublishedIsReady(w, archive.time, ts, middle, archive.disk, archive.live, p);
    var shelf := Shelf(archive.disk.forgotten, archive.time, ts, payload, history, inScope);
    selected := ShowSelected(shelf, view, ids);
    if selected.Some? {
      SelectedMeans(shelf, view, ids);
    }
    if selected.Some? && forall m :: m in view ==> InView(w, archive.disk, m) {
      ShowHidesNothing(w, shelf, archive.disk, view, ids);
    }
  }

  lemma PurgedIsReady(w: Names, time: ParseTime, ts: seq<Tombstone>, s: Disk, s': Disk)
    requires Inv(s) && AllFiled(w, s)
    requires if ts == [] && s.forgotten == {} then s' == s else Purge.Applied(time, ts, s, s')
    ensures AllFiled(w, s') && Clear(w, time, ts, s')
  {
    hide Inv, AllFiled, Purge.Applied, Clear;
    if ts == [] && s.forgotten == {} {
      NoTombstones(w, time, s);
    } else {
      AppliedStaysFiled(w, time, ts, s, s');
      AppliedIsClear(w, time, ts, s, s');
    }
  }

  lemma PublishedIsReady(w: Names, time: ParseTime, ts: seq<Tombstone>, s: Disk, s': Disk, g: string, p: Publication)
    requires AllFiled(w, s) && Clear(w, time, ts, s) && Sound(w, p) && Tested(time, ts, p)
    requires Publishes(s, s', g, Rows(p))
    ensures AllFiled(w, s') && Clear(w, time, ts, s')
  {
    hide AllFiled, Clear, Sound, Tested, Publishes, Rows;
    var e := Event.Publish(g, Rows(p));
    assert Does(s, s', e);
    assert TestedDoes(w, time, ts, s, s', e) && CaptureDoes(w, s, s', e);
    TestedKeepsClear(w, time, ts, s, s', e);
    CaptureKeepsFiled(w, s, s', e);
  }
}
