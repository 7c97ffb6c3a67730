/**
 * Worked cases of the reconciliation step on small chapter lists.
 */
module Scenarios {
  import opened Wrappers
  import opened Chapters
  import opened Tracking
  import opened Reconciliation
  import opened Sorting
  import opened State
  import opened Driver

  function Numbered(n: real): Chapter {
    Chapter("id", "title", "url", "date", false, n)
  }

  /** A series seen for the first time announces only its latest chapter. */
  lemma FirstRunExample()
    ensures var d := Reconcile([Numbered(1.0), Numbered(2.0), Numbered(3.0)], NumberType,
                               Watermark(Unnumbered, UnknownType));
      d.toNotify == [Numbered(3.0)] && d.newWatermark == Some(Watermark(3.0, NumberType))
  {
    var chapters := [Numbered(1.0), Numbered(2.0), Numbered(3.0)];
    assert MaxOf(chapters) == 3.0 by {
      assert chapters[..2] == [Numbered(1.0), Numbered(2.0)];
      assert chapters[..2][..1] == [Numbered(1.0)];
    }
  }

  /** A stale fetch below the watermark announces nothing and writes nothing. */
  lemma StaleFetchExample()
    ensures var d := Reconcile([Numbered(1.0), Numbered(2.0), Numbered(3.0)], NumberType,
                               Watermark(5.0, NumberType));
      d.toNotify == [] && d.newWatermark == None
  {
    var chapters := [Numbered(1.0), Numbered(2.0), Numbered(3.0)];
    IncrementalAdvances(chapters, NumberType, Watermark(5.0, NumberType));
    IncrementalWritesIffAnnounces(chapters, NumberType, Watermark(5.0, NumberType));
  }

  /** A watermark recorded under another tracking type is discarded: the
      series is treated as new. */
  lemma TrackingConflictExample()
    ensures var d := Reconcile([Numbered(1.0), Numbered(2.0)], NumberType, Watermark(10.0, "id"));
      d.toNotify == [Numbered(2.0)] && d.newWatermark == Some(Watermark(2.0, NumberType))
  {
    var chapters := [Numbered(1.0), Numbered(2.0)];
    FirstRunSeedsLatest(chapters, NumberType, Watermark(10.0, "id"));
    var d := Reconcile(chapters, NumberType, Watermark(10.0, "id"));
    assert d.toNotify[0] in chapters;
    assert d.toNotify[0].number >= 2.0 by {
      assert chapters[1] in chapters;
    }
  }

  /** A large number stored before tracking types were recorded is taken
      for an id and discarded when numbering by ordinal. */
  lemma LegacyIdExample()
    ensures var d := Reconcile([Numbered(7.0)], NumberType, Watermark(650000.0, UnknownType));
      d.toNotify == [Numbered(7.0)] && d.newWatermark == Some(Watermark(7.0, NumberType))
  {
  }

  /** The fetch of chapters 1 to 5 used below. */
  function OneToFive(): seq<Chapter> {
    [Numbered(1.0), Numbered(2.0), Numbered(3.0), Numbered(4.0), Numbered(5.0)]
  }

  lemma OneToFiveAboveThree()
    ensures Select(OneToFive(), Above(3.0)) == [Numbered(4.0), Numbered(5.0)]
    ensures MaxFrom(3.0, OneToFive()) == 5.0
  {
    var chapters := OneToFive();
    assert chapters[1..][1..][1..] == [Numbered(4.0), Numbered(5.0)];
    assert chapters[1..][1..][1..][1..] == [Numbered(5.0)];
    assert chapters[4].number == 5.0;
  }

  lemma SortFourFive()
    ensures Sort([Numbered(4.0), Numbered(5.0)]) == [Numbered(4.0), Numbered(5.0)]
  {
    var r := [Numbered(4.0), Numbered(5.0)];
    assert SortedByNumber(r);
    SortIsUnique(r, r);
  }

  /** A series with watermark 3 announces the chapters above it, in order,
      and stores the highest. */
  lemma IncrementalExample()
    ensures var d := Reconcile(OneToFive(), NumberType, Watermark(3.0, NumberType));
      d.toNotify == [Numbered(4.0), Numbered(5.0)] && d.newWatermark == Some(Watermark(5.0, NumberType))
  {
    IncrementalShape(OneToFive(), NumberType, Watermark(3.0, NumberType));
    OneToFiveAboveThree();
    SortFourFive();
  }

  /** A state-file entry with a large number and no tracking type, as
      written before tracking types were recorded, is reset on a fetch
      numbered by ordinal: the latest chapter is announced and the entry is
      rewritten with its number and the ordinal tracking type. */
  lemma LegacyEntryExample()
    ensures var state := map["u" := Entry(Some(650000.0), None)];
      var o := Step(state, Fetch("u", None, [Numbered(7.0)], None));
      && o.state == map["u" := Written(7.0, NumberType)]
      && o.sent == [Notification(DefaultAlias, Numbered(7.0))]
  {
    var state := map["u" := Entry(Some(650000.0), None)];
    assert ReadWatermark(Lookup(state, "u")) == Watermark(650000.0, UnknownType);
    LegacyIdExample();
  }
}
