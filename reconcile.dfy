/**
 * The per-series reconciliation step of the notifier's main loop: given the
 * chapters just fetched for a series, the tracking type they were numbered
 * under and the stored watermark, decide which chapters to announce and
 * what the new watermark is.
 *
 * `Reconcile` is the decision as a function; `ComputeDecision` is the loop
 * the program runs, proved equal to it.
 */
module Reconciliation {
  import opened Wrappers
  import opened Chapters
  import opened Sorting
  import opened Tracking

  /** A stored number of unknown type above this is taken for a leftover
      site-internal id rather than an ordinal. */
  const LegacyIdThreshold: real := 50000.0

  /** The stored state of one series. */
  datatype Watermark = Watermark(lastNumber: real, trackingType: string)

  /** What reconciling one series yields: the chapters to announce, in
      order; the watermark to store, if the state is to be written; and
      whether the series was treated as seen for the first time. */
  datatype Decision = Decision(toNotify: seq<Chapter>, newWatermark: Option<Watermark>, isFirstRun: bool)

  /** The watermark to compare against once the tracking-type conflict reset
      and the legacy-id migration reset have been applied. */
  function Effective(stored: Watermark, currentType: string): (w: real)
    ensures w == Unnumbered || w == stored.lastNumber
    ensures stored.trackingType != UnknownType && stored.trackingType != currentType ==> w == Unnumbered
    ensures stored.trackingType == UnknownType && stored.lastNumber > LegacyIdThreshold && currentType == NumberType
            ==> w == Unnumbered
    ensures (stored.trackingType == UnknownType || stored.trackingType == currentType) &&
            !(stored.trackingType == UnknownType && stored.lastNumber > LegacyIdThreshold && currentType == NumberType)
            ==> w == stored.lastNumber
  {
    var afterConflict :=
      if stored.trackingType != UnknownType && stored.trackingType != currentType then Unnumbered
      else stored.lastNumber;
    if stored.trackingType == UnknownType && afterConflict > LegacyIdThreshold && currentType == NumberType
    then Unnumbered
    else afterConflict
  }

  /** The decision for one series. */
  function Reconcile(chapters: seq<Chapter>, currentType: string, stored: Watermark): (d: Decision)
    ensures chapters == [] ==> d.toNotify == [] && d.newWatermark.None?
    ensures d.isFirstRun <==> chapters != [] && Effective(stored, currentType) == Unnumbered
    ensures forall c :: c in d.toNotify ==> c in chapters
  {
    if chapters == [] then Decision([], None, false)
    else
      var last := Effective(stored, currentType);
      if last == Unnumbered then
        // first run or reset: record the highest number and announce only
        // the first chapter carrying it
        var top := MaxOf(chapters);
        var seed := (match FirstMatch(chapters, top)
          case Some(i) => [chapters[i]]
          case None => []);
        Decision(seed, Some(Watermark(top, currentType)), true)
      else
        var newer := Select(chapters, Above(last));
        var top := MaxFrom(last, chapters);
        assert forall c :: c in Sort(newer) ==> c in chapters by {
          forall c | c in Sort(newer) ensures c in chapters {
            assert c in multiset(Sort(newer));
            SelectMembers(chapters, Above(last), c);
          }
        }
        Decision(Sort(newer), if top > last then Some(Watermark(top, currentType)) else None, false)
  }

  /** First run or reset: the watermark becomes the highest fetched number,
      and exactly one chapter is announced, the first in list order that
      carries it; this holds even when every chapter is unnumbered. */
  lemma FirstRunSeedsLatest(chapters: seq<Chapter>, currentType: string, stored: Watermark)
    requires chapters != [] && Effective(stored, currentType) == Unnumbered
    ensures var d := Reconcile(chapters, currentType, stored);
      && |d.toNotify| == 1
      && (forall c :: c in chapters ==> c.number <= d.toNotify[0].number)
      && (exists i :: 0 <= i < |chapters| && chapters[i] == d.toNotify[0] &&
            forall j :: 0 <= j < i ==> chapters[j].number < chapters[i].number)
      && d.newWatermark == Some(Watermark(d.toNotify[0].number, currentType))
  {
    var top := MaxOf(chapters);
    match FirstMatch(chapters, top)
    case Some(i) =>
      forall j | 0 <= j < i ensures chapters[j].number < chapters[i].number { }
    case None =>
  }

  /** Incremental path: a chapter is announced exactly when it was fetched
      and is numbered above the stored watermark, and as often as it was
      fetched. */
  lemma {:induction false} IncrementalAnnouncesNewer(chapters: seq<Chapter>, currentType: string, stored: Watermark, c: Chapter)
    requires chapters != [] && Effective(stored, currentType) != Unnumbered
    ensures var d := Reconcile(chapters, currentType, stored);
      && (c in d.toNotify <==> c in chapters && c.number > stored.lastNumber)
      && multiset(d.toNotify)[c] == if c.number > stored.lastNumber then multiset(chapters)[c] else 0
  {
    var w := stored.lastNumber;
    var newer := Select(chapters, Above(w));
    assert Reconcile(chapters, currentType, stored).toNotify == Sort(newer);
    SelectCount(chapters, Above(w), c);
    SelectMembers(chapters, Above(w), c);
    assert c in Sort(newer) <==> c in multiset(Sort(newer));
  }

  /** Incremental path: the announcements go out in non-decreasing number
      order, and chapters sharing a number go out in the order they were
      fetched. */
  lemma IncrementalOrder(chapters: seq<Chapter>, currentType: string, stored: Watermark)
    requires chapters != [] && Effective(stored, currentType) != Unnumbered
    ensures var d := Reconcile(chapters, currentType, stored);
      && SortedByNumber(d.toNotify)
      && forall k :: Select(d.toNotify, Exactly(k)) ==
                     if k > stored.lastNumber then Select(chapters, Exactly(k)) else []
  {
    var w := stored.lastNumber;
    var newer := Select(chapters, Above(w));
    SortKeepsTieOrder(newer);
    forall k ensures Select(Sort(newer), Exactly(k)) == if k > w then Select(chapters, Exactly(k)) else [] {
      SelectExactlyAbove(chapters, w, k);
    }
  }

  /** Incremental path: the decision announces the sorted chapters above
      the stored watermark and writes the highest of the watermark and the
      fetched numbers when that is above the watermark. */
  lemma IncrementalShape(chapters: seq<Chapter>, currentType: string, stored: Watermark)
    requires chapters != [] && Effective(stored, currentType) != Unnumbered
    ensures var w, top := stored.lastNumber, MaxFrom(stored.lastNumber, chapters);
      Reconcile(chapters, currentType, stored) ==
        Decision(Sort(Select(chapters, Above(w))), if top > w then Some(Watermark(top, currentType)) else None, false)
  {
  }

  /** Incremental path: the state is written exactly when something is
      announced. */
  lemma IncrementalWritesIffAnnounces(chapters: seq<Chapter>, currentType: string, stored: Watermark)
    requires chapters != [] && Effective(stored, currentType) != Unnumbered
    ensures var d := Reconcile(chapters, currentType, stored);
      d.newWatermark.Some? <==> d.toNotify != []
  {
    var w, top := stored.lastNumber, MaxFrom(stored.lastNumber, chapters);
    IncrementalShape(chapters, currentType, stored);
    var toNotify := Sort(Select(chapters, Above(w)));
    if toNotify != [] {
      IncrementalAnnouncesNewer(chapters, currentType, stored, toNotify[0]);
      assert toNotify[0] in chapters;
    } else if top > w {
      var i :| 0 <= i < |chapters| && chapters[i].number == top;
      IncrementalAnnouncesNewer(chapters, currentType, stored, chapters[i]);
    }
  }

  /** Incremental path: what is written is the highest of the old watermark
      and the fetched numbers, strictly above the old watermark, so the
      stored watermark never goes down; when nothing is written, no fetched
      chapter is above the old watermark; and every announced chapter lies
      between the old and the new watermark. */
  lemma IncrementalAdvances(chapters: seq<Chapter>, currentType: string, stored: Watermark)
    requires chapters != [] && Effective(stored, currentType) != Unnumbered
    ensures var d := Reconcile(chapters, currentType, stored);
      && (d.newWatermark.None? ==> forall c :: c in chapters ==> c.number <= stored.lastNumber)
      && (d.newWatermark.Some? ==>
            && d.newWatermark.value.trackingType == currentType
            && d.newWatermark.value.lastNumber > stored.lastNumber
            && (forall c :: c in chapters ==> c.number <= d.newWatermark.value.lastNumber)
            && (exists c :: c in chapters && c.number == d.newWatermark.value.lastNumber)
            && forall c :: c in d.toNotify ==>
                 stored.lastNumber < c.number <= d.newWatermark.value.lastNumber)
  {
    var w, top := stored.lastNumber, MaxFrom(stored.lastNumber, chapters);
    IncrementalShape(chapters, currentType, stored);
    var toNotify := Sort(Select(chapters, Above(w)));
    forall c | c in toNotify ensures w < c.number <= top {
      IncrementalAnnouncesNewer(chapters, currentType, stored, c);
    }
    if top > w {
      var i :| 0 <= i < |chapters| && chapters[i].number == top;
      assert chapters[i] in chapters;
    }
  }

  /** The highest number among the fetched chapters (the `max` over the
      list). */
  method HighestNumber(chapters: seq<Chapter>) returns (top: real)
    requires chapters != []
    ensures top == MaxOf(chapters)
  {
    top := chapters[0].number;
    var i := 1;
    while i < |chapters|
      invariant 1 <= i <= |chapters|
      invariant top == MaxOf(chapters[..i])
    {
      assert chapters[..i + 1][..i] == chapters[..i] && chapters[..i + 1][i] == chapters[i];
      if chapters[i].number > top {
        top := chapters[i].number;
      }
      i := i + 1;
    }
    assert chapters[..|chapters|] == chapters;
  }

  /** One pass over the fetched chapters collecting those above the
      watermark `last` and the highest number seen, starting from `last`. */
  method ScanNewer(chapters: seq<Chapter>, last: real) returns (newer: seq<Chapter>, maxNumber: real)
    ensures newer == Select(chapters, Above(last))
    ensures maxNumber == MaxFrom(last, chapters)
  {
    newer, maxNumber := [], last;
    for j := 0 to |chapters|
      invariant newer == Select(chapters[..j], Above(last))
      invariant maxNumber == MaxFrom(last, chapters[..j])
    {
      assert chapters[..j + 1] == chapters[..j] + [chapters[j]];
      SelectAppend(chapters[..j], [chapters[j]], Above(last));
      SelectSingle(chapters[j], Above(last));
      if chapters[j].number > last {
        newer := newer + [chapters[j]];
      }
      if chapters[j].number > maxNumber {
        maxNumber := chapters[j].number;
      }
    }
    assert chapters[..|chapters|] == chapters;
  }

  /** The position of the first chapter numbered `x` (the `next(...)`
      search), or `|chapters|` when there is none. */
  method FindFirst(chapters: seq<Chapter>, x: real) returns (k: nat)
    ensures k <= |chapters|
    ensures k < |chapters| ==> FirstMatch(chapters, x) == Some(k)
    ensures k == |chapters| ==> FirstMatch(chapters, x) == None
  {
    k := 0;
    while k < |chapters| && chapters[k].number != x
      invariant 0 <= k <= |chapters|
      invariant forall m :: 0 <= m < k ==> chapters[m].number != x
    {
      k := k + 1;
    }
    if k < |chapters| {
      var found := FirstMatch(chapters, x);
      assert found.Some? by { assert chapters[k].number == x; }
      assert !(found.value < k) && !(found.value > k);
    }
  }

  /** The program's reconciliation of one series, proved to reach
      `Reconcile`'s decision. */
  method ComputeDecision(chapters: seq<Chapter>, currentType: string, stored: Watermark) returns (d: Decision)
    ensures d == Reconcile(chapters, currentType, stored)
  {
    if |chapters| == 0 {
      return Decision([], None, false);
    }
    var last := Effective(stored, currentType);
    var currentMax := HighestNumber(chapters);
    var newer, maxNumber := ScanNewer(chapters, last);

    if last == Unnumbered {
      var k := FindFirst(chapters, currentMax);
      var seed := if k < |chapters| then [chapters[k]] else [];
      return Decision(seed, Some(Watermark(currentMax, currentType)), true);
    }

    var ordered := Sort(newer);
    var advanced := if maxNumber > last then Some(Watermark(maxNumber, currentType)) else None;
    d := Decision(ordered, advanced, false);
  }
}
