/**
 * Chapters as the scraper delivers them, and the list operations the
 * reconciliation step performs on them: selecting by chapter number, taking
 * the maximum number, and finding the first chapter with a given number.
 */
module Chapters {
  import opened Wrappers

  /** One chapter of a series. `number` is the ordering key. */
  datatype Chapter = Chapter(
    id: string,
    title: string,
    url: string,
    createdAt: string,
    locked: bool,
    number: real)

  /** The number given to a chapter whose title carries no number, and the
      watermark of a series that has never been initialised. */
  const Unnumbered: real := -1.0

  /** Which chapters a selection keeps. */
  datatype Criterion =
    | Above(threshold: real)   // number strictly greater than threshold
    | Exactly(key: real)       // number equal to key

  predicate Meets(c: Chapter, crit: Criterion) {
    match crit
    case Above(w) => c.number > w
    case Exactly(k) => c.number == k
  }

  /** The chapters of `s` that meet `crit`, in their order in `s`. */
  function Select(s: seq<Chapter>, crit: Criterion): (r: seq<Chapter>)
    ensures |r| <= |s|
  {
    if s == [] then []
    else (if Meets(s[0], crit) then [s[0]] else []) + Select(s[1..], crit)
  }

  lemma {:induction false} SelectAppend(a: seq<Chapter>, b: seq<Chapter>, crit: Criterion)
    ensures Select(a + b, crit) == Select(a, crit) + Select(b, crit)
    decreases |a|
  {
    if a == [] {
      assert a + b == b;
    } else {
      var head := if Meets(a[0], crit) then [a[0]] else [];
      assert (a + b)[0] == a[0];
      assert (a + b)[1..] == a[1..] + b;
      assert Select(a + b, crit) == head + Select(a[1..] + b, crit);
      SelectAppend(a[1..], b, crit);
      assert Select(a, crit) == head + Select(a[1..], crit);
      assert head + (Select(a[1..], crit) + Select(b, crit)) == (head + Select(a[1..], crit)) + Select(b, crit);
    }
  }

  lemma SelectSingle(c: Chapter, crit: Criterion)
    ensures Select([c], crit) == if Meets(c, crit) then [c] else []
  {
    assert [c][1..] == [];
  }

  /** A chapter is selected exactly when it occurs in `s` and meets `crit`. */
  lemma {:induction false} SelectMembers(s: seq<Chapter>, crit: Criterion, c: Chapter)
    ensures c in Select(s, crit) <==> c in s && Meets(c, crit)
    decreases |s|
  {
    if s != [] {
      assert s == [s[0]] + s[1..];
      SelectMembers(s[1..], crit, c);
    }
  }

  /** Selecting keeps each chapter that meets the criterion exactly as often
      as it occurs, and drops every other one. */
  lemma {:induction false} SelectCount(s: seq<Chapter>, crit: Criterion, c: Chapter)
    ensures multiset(Select(s, crit))[c] == if Meets(c, crit) then multiset(s)[c] else 0
    decreases |s|
  {
    if s != [] {
      assert s == [s[0]] + s[1..];
      SelectCount(s[1..], crit, c);
    }
  }

  /** Picking the chapters with number `k` out of those above `w`. */
  lemma {:induction false} SelectExactlyAbove(s: seq<Chapter>, w: real, k: real)
    ensures Select(Select(s, Above(w)), Exactly(k)) == if k > w then Select(s, Exactly(k)) else []
    decreases |s|
  {
    if s != [] {
      var head := if Meets(s[0], Above(w)) then [s[0]] else [];
      SelectExactlyAbove(s[1..], w, k);
      SelectAppend(head, Select(s[1..], Above(w)), Exactly(k));
      SelectSingle(s[0], Exactly(k));
    }
  }

  /** The largest number among the chapters of a non-empty list. */
  function MaxOf(s: seq<Chapter>): (m: real)
    requires |s| > 0
    ensures forall i :: 0 <= i < |s| ==> s[i].number <= m
    ensures exists i :: 0 <= i < |s| && s[i].number == m
  {
    if |s| == 1 then s[0].number
    else
      var rest := MaxOf(s[..|s| - 1]);
      if s[|s| - 1].number > rest then s[|s| - 1].number else rest
  }

  /** The largest of `w` and the numbers of the chapters of `s`. */
  function MaxFrom(w: real, s: seq<Chapter>): (m: real)
    ensures w <= m
    ensures forall i :: 0 <= i < |s| ==> s[i].number <= m
    ensures m == w || exists i :: 0 <= i < |s| && s[i].number == m
  {
    if s == [] then w
    else
      var rest := MaxFrom(w, s[..|s| - 1]);
      if s[|s| - 1].number > rest then s[|s| - 1].number else rest
  }

  /** The position of the first chapter of `s` numbered `x`, if any. */
  function FirstMatch(s: seq<Chapter>, x: real): (r: Option<nat>)
    ensures r.None? <==> forall i :: 0 <= i < |s| ==> s[i].number != x
    ensures r.Some? ==> r.value < |s| && s[r.value].number == x
    ensures r.Some? ==> forall i :: 0 <= i < r.value ==> s[i].number != x
  {
    if s == [] then None
    else if s[0].number == x then Some(0)
    else match FirstMatch(s[1..], x)
      case None => None
      case Some(i) => Some(i + 1)
  }
}
