/** Deletion predicates and the exclusion tests built on them (src/tombstone.rs). */
module Tombstones {
  import opened Wrappers

  // `chrono::DateTime::parse_from_rfc3339`: an instant, or none for other text.
  type Instant = int
  type ParseTime = string -> Option<Instant>

  datatype Predicate = Predicate(
    itemId: Option<string>,
    projectId: Option<string>,
    sourceId: Option<string>,
    after: Option<string>,
    before: Option<string>)

  datatype Tombstone = Tombstone(identityHash: string, scope: Predicate, epoch: string)

  predicate HasPrefix(s: string, prefix: string): (r: bool)
    ensures r ==> |prefix| <= |s| && s == prefix + s[|prefix|..]
    ensures (exists rest :: s == prefix + rest) ==> r
  {
    |prefix| <= |s| && s[..|prefix|] == prefix
  }

  predicate InInterval(time: ParseTime, p: Predicate, at: Instant) {
    && (p.after.Some? && time(p.after.value).Some? ==> at >= time(p.after.value).value)
    && (p.before.Some? && time(p.before.value).Some? ==> at < time(p.before.value).value)
  }

  predicate Matches(time: ParseTime, p: Predicate, id: string, source: string, recordedAt: Option<string>) {
    && (p.itemId.Some? ==> p.itemId.value == id)
    && (p.projectId.Some? ==> HasPrefix(id, "mq:" + p.projectId.value + ":"))
    && (p.sourceId.Some? ==> p.sourceId.value == source)
    && (p.after.Some? || p.before.Some? ==>
          && recordedAt.Some?
          && time(recordedAt.value).Some?
          && InInterval(time, p, time(recordedAt.value).value))
  }

  predicate AnyMatch(time: ParseTime, ts: seq<Tombstone>, id: string, source: string, recordedAt: Option<string>) {
    exists t :: t in ts && Matches(time, t.scope, id, source, recordedAt)
  }

  // `split(':').nth(2)`, or the empty string.
  function ThirdField(id: string): string {
    Field(id, 2)
  }

  function Field(s: string, n: nat): string {
    if s == [] then ""
    else if s[0] == ':' then (if n == 0 then "" else Field(s[1..], n - 1))
    else if n == 0 then [s[0]] + Field(s[1..], 0)
    else Field(s[1..], n)
  }

  // The same test where only the identity is at hand.
  predicate ExcludesId(time: ParseTime, ts: seq<Tombstone>, id: string, recordedAt: Option<string>) {
    AnyMatch(time, ts, id, ThirdField(id), recordedAt)
  }

  // A remembered identity stays excluded whatever its timestamp now says.
  predicate ExcludesRecord(time: ParseTime, ts: seq<Tombstone>, forgotten: set<string>,
                           id: string, source: string, recordedAt: Option<string>) {
    id in forgotten || AnyMatch(time, ts, id, source, recordedAt)
  }

  // ----- what a predicate matches

  // Every field that is set narrows what is matched; a predicate without any matches everything.
  lemma FieldsNarrow(time: ParseTime, p: Predicate, id: string, source: string, recordedAt: Option<string>)
    ensures Matches(time, Predicate(None, None, None, None, None), id, source, recordedAt)
    ensures p.itemId.Some? ==>
      (Matches(time, p, id, source, recordedAt) <==>
       id == p.itemId.value && Matches(time, p.(itemId := None), id, source, recordedAt))
    ensures p.sourceId.Some? ==>
      (Matches(time, p, id, source, recordedAt) <==>
       source == p.sourceId.value && Matches(time, p.(sourceId := None), id, source, recordedAt))
    ensures p.projectId.Some? ==>
      (Matches(time, p, id, source, recordedAt) <==>
       HasPrefix(id, "mq:" + p.projectId.value + ":") && Matches(time, p.(projectId := None), id, source, recordedAt))
  {
  }

  // ----- intervals

  // An instant that no bound of the interval lies beyond.
  predicate Within(time: ParseTime, p: Predicate, t: Instant) {
    && (p.after.Some? && time(p.after.value).Some? ==> time(p.after.value).value <= t)
    && (p.before.Some? && time(p.before.value).Some? ==> t <= time(p.before.value).value)
  }

  /**
   An interval cut anywhere between its ends falls into two that meet and do not
   overlap: what the whole matches, exactly one of the halves matches.
   */
  lemma IntervalCut(time: ParseTime, p: Predicate, cut: string, id: string, source: string, recordedAt: Option<string>)
    requires p.after.Some? || p.before.Some?
    requires time(cut).Some? && Within(time, p, time(cut).value)
    ensures var early, late := p.(before := Some(cut)), p.(after := Some(cut));
      && (Matches(time, p, id, source, recordedAt) <==>
          Matches(time, early, id, source, recordedAt) || Matches(time, late, id, source, recordedAt))
      && !(Matches(time, early, id, source, recordedAt) && Matches(time, late, id, source, recordedAt))
  {
  }
}
