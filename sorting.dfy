/**
 * The stable sort by chapter number that orders the new chapters before they
 * are announced. Insertion sort serves as the reference; `SortIsUnique`
 * shows that every sorted, stable rearrangement equals it, so the model does
 * not depend on which stable algorithm the runtime uses.
 */
module Sorting {
  import opened Chapters

  /** Chapter numbers never decrease along `s`. */
  predicate SortedByNumber(s: seq<Chapter>) {
    forall i, j :: 0 <= i < j < |s| ==> s[i].number <= s[j].number
  }

  /** Chapters sharing a number appear in `r` in the same order as in `s`. */
  ghost predicate KeepsTieOrder(r: seq<Chapter>, s: seq<Chapter>) {
    forall k :: Select(r, Exactly(k)) == Select(s, Exactly(k))
  }

  /** Putting a chapter no later than the head in front keeps a sorted list sorted. */
  lemma ConsSorted(h: Chapter, rest: seq<Chapter>)
    requires SortedByNumber(rest)
    requires rest != [] ==> h.number <= rest[0].number
    ensures SortedByNumber([h] + rest)
  {
    var s := [h] + rest;
    forall i, j | 0 <= i < j < |s| ensures s[i].number <= s[j].number {
      if i == 0 { assert s[j] == rest[j-1]; assert rest[0].number <= rest[j-1].number || j == 1; }
      else { assert s[i] == rest[i-1] && s[j] == rest[j-1]; }
    }
  }
  /** Puts `c` in front of the first chapter of `t` whose number is not
      smaller, so `c` stays ahead of the chapters that tie with it. */
  function Insert(c: Chapter, t: seq<Chapter>): seq<Chapter> {
    if t == [] || c.number <= t[0].number then [c] + t
    else [t[0]] + Insert(c, t[1..])
  }

  /** Inserting adds `c` and keeps a sorted list sorted. */
  lemma {:induction false} InsertSorted(c: Chapter, t: seq<Chapter>)
    ensures multiset(Insert(c, t)) == multiset(t) + multiset{c}
    ensures |Insert(c, t)| == |t| + 1
    ensures Insert(c, t)[0] == c || (|t| > 0 && Insert(c, t)[0] == t[0])
    ensures SortedByNumber(t) ==> SortedByNumber(Insert(c, t))
    decreases |t|
  {
    if t == [] || c.number <= t[0].number {
      if SortedByNumber(t) { ConsSorted(c, t); }
    } else {
      var h, rest := t[0], Insert(c, t[1..]);
      InsertSorted(c, t[1..]);
      assert t == [h] + t[1..];
      if SortedByNumber(t) {
        assert SortedByNumber(t[1..]);
        ConsSorted(h, rest);
      }
    }
  }

  /** The chapters of `s`, ordered by number; ties keep their order in `s`. */
  function Sort(s: seq<Chapter>): (r: seq<Chapter>)
    ensures multiset(r) == multiset(s)
    ensures SortedByNumber(r)
  {
    if s == [] then []
    else
      assert s == [s[0]] + s[1..];
      InsertSorted(s[0], Sort(s[1..]));
      Insert(s[0], Sort(s[1..]))
  }

  /** Inserting keeps the order of every group of tied chapters, with the
      inserted chapter first in its group. */
  lemma {:induction false} InsertTies(c: Chapter, t: seq<Chapter>, k: real)
    ensures Select(Insert(c, t), Exactly(k)) == Select([c], Exactly(k)) + Select(t, Exactly(k))
    decreases |t|
  {
    if t == [] || c.number <= t[0].number {
      SelectAppend([c], t, Exactly(k));
    } else {
      InsertTies(c, t[1..], k);
      InsertTiesPast(c, t, k);
    }
  }

  /** The step of `InsertTies` where `c` moves past the head of `t`, which
      is numbered below it. */
  lemma InsertTiesPast(c: Chapter, t: seq<Chapter>, k: real)
    requires t != [] && t[0].number < c.number
    requires Select(Insert(c, t[1..]), Exactly(k)) == Select([c], Exactly(k)) + Select(t[1..], Exactly(k))
    ensures Select(Insert(c, t), Exactly(k)) == Select([c], Exactly(k)) + Select(t, Exactly(k))
  {
    var h, ins := t[0], Insert(c, t[1..]);
    assert ([h] + ins)[0] == h && ([h] + ins)[1..] == ins;
    var hh := if h.number == k then [h] else [];
    assert Select(Insert(c, t), Exactly(k)) == hh + Select(ins, Exactly(k));
    assert Select(t, Exactly(k)) == hh + Select(t[1..], Exactly(k));
    SelectSingle(c, Exactly(k));
    var sc, rest := Select([c], Exactly(k)), Select(t[1..], Exactly(k));
    // h is numbered strictly below c, so they cannot both be numbered k
    if h.number == k {
      assert sc == [];
      assert Select(ins, Exactly(k)) == rest by { assert sc + rest == rest; }
      assert sc + Select(t, Exactly(k)) == Select(t, Exactly(k));
    } else {
      assert hh == [];
      assert Select(Insert(c, t), Exactly(k)) == Select(ins, Exactly(k)) by {
        assert hh + Select(ins, Exactly(k)) == Select(ins, Exactly(k));
      }
      assert Select(t, Exactly(k)) == rest by { assert hh + rest == rest; }
    }
  }

  /** `Sort` is stable. */
  lemma {:induction false} SortKeepsTieOrder(s: seq<Chapter>)
    ensures KeepsTieOrder(Sort(s), s)
    decreases |s|
  {
    forall k ensures Select(Sort(s), Exactly(k)) == Select(s, Exactly(k)) {
      SortTies(s, k);
    }
  }

  lemma {:induction false} SortTies(s: seq<Chapter>, k: real)
    ensures Select(Sort(s), Exactly(k)) == Select(s, Exactly(k))
    decreases |s|
  {
    if s != [] {
      SortTies(s[1..], k);
      InsertTies(s[0], Sort(s[1..]), k);
      assert s == [s[0]] + s[1..];
      SelectAppend([s[0]], s[1..], Exactly(k));
    }
  }

  /** In a sorted sequence, the chapters numbered `k` are absent when `k` is
      below the head's number, and start with the head when `k` is its number. */
  lemma SortedSelectHead(r: seq<Chapter>, k: real)
    requires SortedByNumber(r) && r != []
    ensures k < r[0].number ==> Select(r, Exactly(k)) == []
    ensures k == r[0].number ==> Select(r, Exactly(k)) == [r[0]] + Select(r[1..], Exactly(k))
  {
    assert r == [r[0]] + r[1..];
    SelectAppend([r[0]], r[1..], Exactly(k));
    SelectSingle(r[0], Exactly(k));
    if k < r[0].number && Select(r, Exactly(k)) != [] {
      var x := Select(r, Exactly(k))[0];
      SelectMembers(r, Exactly(k), x);
    }
  }

  /** Two sorted sequences that agree on every group of tied chapters start
      with the same chapter, and agree again once it is removed. */
  lemma SortedTieOrderHead(r1: seq<Chapter>, r2: seq<Chapter>)
    requires SortedByNumber(r1) && SortedByNumber(r2)
    requires KeepsTieOrder(r1, r2)
    requires r1 != [] && r2 != []
    ensures r1[0] == r2[0]
    ensures KeepsTieOrder(r1[1..], r2[1..])
  {
    var a, b := r1[0], r2[0];
    SortedSelectHead(r1, a.number);
    SortedSelectHead(r2, b.number);
    SortedSelectHead(r1, b.number);
    SortedSelectHead(r2, a.number);
    // neither head can carry a number below the other's
    assert a.number == b.number by {
      assert Select(r1, Exactly(a.number)) == Select(r2, Exactly(a.number));
      assert Select(r1, Exactly(b.number)) == Select(r2, Exactly(b.number));
    }
    assert Select(r1, Exactly(a.number))[0] == a;
    assert Select(r2, Exactly(a.number))[0] == b;
    forall k ensures Select(r1[1..], Exactly(k)) == Select(r2[1..], Exactly(k)) {
      DropCommonHead(r1, r2, k);
    }
  }

  lemma DropCommonHead(r1: seq<Chapter>, r2: seq<Chapter>, k: real)
    requires r1 != [] && r2 != [] && r1[0] == r2[0]
    requires Select(r1, Exactly(k)) == Select(r2, Exactly(k))
    ensures Select(r1[1..], Exactly(k)) == Select(r2[1..], Exactly(k))
  {
    assert r1 == [r1[0]] + r1[1..] && r2 == [r2[0]] + r2[1..];
    var head, a, b := Select([r1[0]], Exactly(k)), Select(r1[1..], Exactly(k)), Select(r2[1..], Exactly(k));
    SelectAppend([r1[0]], r1[1..], Exactly(k));
    SelectAppend([r2[0]], r2[1..], Exactly(k));
    assert head + a == head + b;
    assert a == (head + a)[|head|..];
    assert b == (head + b)[|head|..];
  }

  /** Two sorted sequences that agree on every group of tied chapters are
      equal. */
  lemma {:induction false} SortedTieOrderUnique(r1: seq<Chapter>, r2: seq<Chapter>)
    requires SortedByNumber(r1) && SortedByNumber(r2)
    requires KeepsTieOrder(r1, r2)
    ensures r1 == r2
    decreases |r1| + |r2|
  {
    if r1 != [] && r2 != [] {
      SortedTieOrderHead(r1, r2);
      assert SortedByNumber(r1[1..]) && SortedByNumber(r2[1..]);
      SortedTieOrderUnique(r1[1..], r2[1..]);
      assert r1 == [r1[0]] + r1[1..] && r2 == [r2[0]] + r2[1..];
    } else if r1 != [] {
      // r1's head is a tie group that r2 lacks
      SortedSelectHead(r1, r1[0].number);
      assert false;
    } else if r2 != [] {
      SortedSelectHead(r2, r2[0].number);
      assert false;
    }
  }

  /** Any sorted, stable rearrangement of `s` is `Sort(s)`. */
  lemma SortIsUnique(s: seq<Chapter>, r: seq<Chapter>)
    requires SortedByNumber(r) && KeepsTieOrder(r, s)
    ensures r == Sort(s)
  {
    SortKeepsTieOrder(s);
    SortedTieOrderUnique(r, Sort(s));
  }
}
