/**
 * The main loop: for each configured series, in configuration order, take
 * the fetched chapters, reconcile them against the stored entry, announce
 * the chosen chapters and write the new watermark.
 *
 * Fetching and announcing are outside the model: each series arrives as a
 * `Fetch` record holding what the scraper returned, and each announcement
 * is appended to the returned sequence of notifications.
 */
module Driver {
  import opened Wrappers
  import opened Chapters
  import opened Tracking
  import opened Reconciliation
  import opened State

  /** The alias used for a series configured without one. */
  const DefaultAlias: string := "Unknown Series"

  /** One configured series together with what the scraper returned for it.
      The scraper may leave out the tracking type, and the configuration may
      leave out the alias. */
  datatype Fetch = Fetch(url: string, alias: Option<string>, chapters: seq<Chapter>, trackingType: Option<string>)

  /** One announcement sent to the webhook. */
  datatype Notification = Notification(alias: string, chapter: Chapter)

  /** The state map after some series have been processed, and the
      announcements made so far. */
  datatype Outcome = Outcome(state: map<string, Entry>, sent: seq<Notification>)

  /** The tracking type the fetched numbers are taken to follow. */
  function CurrentType(f: Fetch): (t: string)
    ensures f.trackingType.Some? ==> t == f.trackingType.value
    ensures f.trackingType.None? ==> t == NumberType
  {
    f.trackingType.GetOr(NumberType)
  }

  /** The name a series is announced under. */
  function AliasOf(f: Fetch): (a: string)
    ensures f.alias.Some? ==> a == f.alias.value
    ensures f.alias.None? ==> a == DefaultAlias
  {
    f.alias.GetOr(DefaultAlias)
  }

  /** The watermark read from a stored entry: a field that is present reads
      as stored, a missing one as the uninitialised number or the unknown
      tracking type. */
  function ReadWatermark(e: Entry): (w: Watermark)
    ensures e.lastChapterNumber.Some? ==> w.lastNumber == e.lastChapterNumber.value
    ensures e.lastChapterNumber.None? ==> w.lastNumber == Unnumbered
    ensures e.trackingType.Some? ==> w.trackingType == e.trackingType.value
    ensures e.trackingType.None? ==> w.trackingType == UnknownType
  {
    Watermark(e.lastChapterNumber.GetOr(Unnumbered), e.trackingType.GetOr(UnknownType))
  }

  /** One notification per chapter, in the given order, under the series'
      alias. */
  function Announce(alias: string, chapters: seq<Chapter>): (r: seq<Notification>)
    ensures |r| == |chapters|
    ensures forall i :: 0 <= i < |r| ==> r[i] == Notification(alias, chapters[i])
  {
    seq(|chapters|, i requires 0 <= i < |chapters| => Notification(alias, chapters[i]))
  }

  /** The state after a decision for `url` is applied. */
  function Apply(state: map<string, Entry>, url: string, d: Decision): (r: map<string, Entry>)
    ensures d.newWatermark.None? ==> r == state
    ensures d.newWatermark.Some? ==> url in r && ReadWatermark(r[url]) == d.newWatermark.value
    ensures forall u :: u != url ==> (u in r <==> u in state) && Lookup(r, u) == Lookup(state, u)
  {
    match d.newWatermark
    case Some(w) => state[url := Written(w.lastNumber, w.trackingType)]
    case None => state
  }

  /** Processing one series: an empty fetch is skipped; otherwise the stored
      entry is reconciled with the fetch and the decision applied. Only the
      series' own entry can change. */
  function Step(state: map<string, Entry>, f: Fetch): (o: Outcome)
    ensures f.chapters == [] ==> o == Outcome(state, [])
    ensures forall u :: u != f.url ==> (u in o.state <==> u in state) && Lookup(o.state, u) == Lookup(state, u)
  {
    if f.chapters == [] then Outcome(state, [])
    else
      var d := Reconcile(f.chapters, CurrentType(f), ReadWatermark(Lookup(state, f.url)));
      Outcome(Apply(state, f.url, d), Announce(AliasOf(f), d.toNotify))
  }

  /** Processing the series of `fetches` one after the other. */
  function RunSpec(state: map<string, Entry>, fetches: seq<Fetch>): (o: Outcome)
    ensures forall n :: n in o.sent ==>
      exists i :: 0 <= i < |fetches| && n.alias == AliasOf(fetches[i]) && n.chapter in fetches[i].chapters
  {
    if fetches == [] then Outcome(state, [])
    else
      var before := RunSpec(state, fetches[..|fetches| - 1]);
      var after := Step(before.state, fetches[|fetches| - 1]);
      Outcome(after.state, before.sent + after.sent)
  }

  /** The main loop over the configured series. */
  method Run(store: StateStore, fetches: seq<Fetch>) returns (sent: seq<Notification>)
    modifies store
    ensures store.state == RunSpec(old(store.state), fetches).state
    ensures sent == RunSpec(old(store.state), fetches).sent
  {
    sent := [];
    for i := 0 to |fetches|
      invariant store.state == RunSpec(old(store.state), fetches[..i]).state
      invariant sent == RunSpec(old(store.state), fetches[..i]).sent
    {
      assert fetches[..i + 1][..i] == fetches[..i];
      var f := fetches[i];
      var alias := AliasOf(f);
      var currentType := CurrentType(f);
      if f.chapters != [] {
        var entry := store.Get(f.url);
        var d := ComputeDecision(f.chapters, currentType, ReadWatermark(entry));
        sent := sent + Announce(alias, d.toNotify);
        if d.newWatermark.Some? {
          store.Update(f.url, d.newWatermark.value.lastNumber, d.newWatermark.value.trackingType);
        }
      }
    }
    assert fetches[..|fetches|] == fetches;
  }

  /** A series that is not among those processed keeps its entry. */
  lemma {:induction false} RunKeepsOtherSeries(state: map<string, Entry>, fetches: seq<Fetch>, url: string)
    requires forall i :: 0 <= i < |fetches| ==> fetches[i].url != url
    ensures var after := RunSpec(state, fetches).state;
      (url in after <==> url in state) && Lookup(after, url) == Lookup(state, url)
    decreases |fetches|
  {
    if fetches != [] {
      RunKeepsOtherSeries(state, fetches[..|fetches| - 1], url);
    }
  }

  /** When no reset applies, processing a series never lowers its stored
      watermark. An uninitialised watermark is not lowered either, given
      that every fetched number is at least the uninitialised value, as the
      scraper's numbers are. */
  lemma StepKeepsWatermarkMonotone(state: map<string, Entry>, f: Fetch)
    requires var stored := ReadWatermark(Lookup(state, f.url));
      Effective(stored, CurrentType(f)) == stored.lastNumber
    requires ReadWatermark(Lookup(state, f.url)).lastNumber == Unnumbered ==>
      forall c :: c in f.chapters ==> c.number >= Unnumbered
    ensures ReadWatermark(Lookup(Step(state, f).state, f.url)).lastNumber >=
            ReadWatermark(Lookup(state, f.url)).lastNumber
  {
    var stored := ReadWatermark(Lookup(state, f.url));
    if f.chapters != [] {
      if stored.lastNumber == Unnumbered {
        FirstRunSeedsLatest(f.chapters, CurrentType(f), stored);
        assert f.chapters[0] in f.chapters;
      } else {
        IncrementalAdvances(f.chapters, CurrentType(f), stored);
      }
    }
  }

  /** With every fetched chapter at or below `top`, nothing is above it and
      the running maximum from `top` stays at `top`. */
  lemma NothingAbove(chapters: seq<Chapter>, top: real)
    requires forall c :: c in chapters ==> c.number <= top
    ensures Select(chapters, Above(top)) == []
    ensures MaxFrom(top, chapters) == top
  {
    if Select(chapters, Above(top)) != [] {
      SelectMembers(chapters, Above(top), Select(chapters, Above(top))[0]);
    }
  }

  /** An entry just written for the current tracking type is compared as it
      stands: neither reset applies to it. */
  lemma WrittenIsEffective(n: real, t: string)
    ensures Effective(ReadWatermark(Written(n, t)), t) == n
  {
  }

  /** A series whose comparable watermark is already at or above every
      fetched number is left alone: nothing announced, nothing written. */
  lemma StepAtTopIsQuiet(state: map<string, Entry>, f: Fetch, top: real)
    requires f.chapters != []
    requires top != Unnumbered
    requires Effective(ReadWatermark(Lookup(state, f.url)), CurrentType(f)) == top
    requires forall c :: c in f.chapters ==> c.number <= top
    ensures Step(state, f) == Outcome(state, [])
  {
    NothingAbove(f.chapters, top);
    IncrementalShape(f.chapters, CurrentType(f), ReadWatermark(Lookup(state, f.url)));
    assert Announce(AliasOf(f), []) == [];
  }

  /** Processing the same fetch a second time, right after the first,
      announces nothing and changes nothing, unless the first left the
      watermark at the uninitialised value. */
  lemma StepSettles(state: map<string, Entry>, f: Fetch)
    requires ReadWatermark(Lookup(Step(state, f).state, f.url)).lastNumber != Unnumbered
    ensures var once := Step(state, f);
      Step(once.state, f) == Outcome(once.state, [])
  {
    if f.chapters != [] {
      var t := CurrentType(f);
      var stored := ReadWatermark(Lookup(state, f.url));
      var d := Reconcile(f.chapters, t, stored);
      var once := Step(state, f);
      assert once.state == Apply(state, f.url, d);
      var top: real;
      if Effective(stored, t) == Unnumbered {
        FirstRunSeedsLatest(f.chapters, t, stored);
        top := d.newWatermark.value.lastNumber;
        WrittenIsEffective(top, t);
      } else {
        IncrementalAdvances(f.chapters, t, stored);
        if d.newWatermark.Some? {
          top := d.newWatermark.value.lastNumber;
          WrittenIsEffective(top, t);
        } else {
          top := stored.lastNumber;
        }
      }
      StepAtTopIsQuiet(once.state, f, top);
    }
  }

  /** When every fetched chapter is unnumbered and the stored entry gives no
      comparable watermark, the series gets one announcement, the watermark
      stays uninitialised, and processing the same fetch again announces the
      same chapter once more. */
  lemma StepReannouncesUnnumbered(state: map<string, Entry>, f: Fetch)
    requires f.chapters != []
    requires forall c :: c in f.chapters ==> c.number == Unnumbered
    requires Effective(ReadWatermark(Lookup(state, f.url)), CurrentType(f)) == Unnumbered
    ensures var once := Step(state, f);
      && |once.sent| == 1
      && ReadWatermark(Lookup(once.state, f.url)).lastNumber == Unnumbered
      && Step(once.state, f) == once
  {
    var t := CurrentType(f);
    var stored := ReadWatermark(Lookup(state, f.url));
    FirstRunSeedsLatest(f.chapters, t, stored);
    var once := Step(state, f);
    var d := Reconcile(f.chapters, t, stored);
    assert d.toNotify[0] in f.chapters;
    WrittenIsEffective(Unnumbered, t);
    var again := ReadWatermark(Lookup(once.state, f.url));
    assert again == Watermark(Unnumbered, t);
    FirstRunSeedsLatest(f.chapters, t, again);
    assert MaxOf(f.chapters) == Unnumbered by {
      assert f.chapters[0] in f.chapters;
    }
    assert Reconcile(f.chapters, t, again) == d;
    assert Apply(once.state, f.url, d) == once.state;
  }
}
