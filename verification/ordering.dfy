/** The final sort of each bucket: `Array.prototype.sort`, which is stable,
    with the comparator that orders games by their `startDate` strings. */
module Ordering {
  import opened Js
  import opened Fixtures

  /** `a.startDate < b.startDate`. A missing date is placed before every
      present one (see the README on why this is a choice). */
  predicate StartLess(a: Option<string>, b: Option<string>) {
    match (a, b)
    case (None, None) => false
    case (None, Some(_)) => true
    case (Some(_), None) => false
    case (Some(x), Some(y)) => StrLess(x, y)
  }

  lemma StartLessIrreflexive(a: Option<string>)
    ensures !StartLess(a, a)
  {
    if a.Some? {
      StrLessIrreflexive(a.value);
    }
  }

  lemma StartLessTransitive(a: Option<string>, b: Option<string>, c: Option<string>)
    requires StartLess(a, b) && StartLess(b, c)
    ensures StartLess(a, c)
  {
    if a.Some? {
      StrLessTransitive(a.value, b.value, c.value);
    }
  }

  lemma StartLessTrichotomy(a: Option<string>, b: Option<string>)
    ensures StartLess(a, b) || StartLess(b, a) || a == b
  {
    if a.Some? && b.Some? {
      StrLessTrichotomy(a.value, b.value);
    }
  }

  /** No game starts strictly before a game placed ahead of it. */
  ghost predicate GamesSorted(gs: seq<Game>) {
    forall i, j :: 0 <= i < j < |gs| ==> !StartLess(gs[j].startDate, gs[i].startDate)
  }

  /** A bucket is sorted when its games are. */
  ghost predicate Sorted(s: seq<Entry>) {
    GamesSorted(Games(s))
  }

  /** The entries of `s` that start at `d`, in their order in `s`. */
  function StartingAt(s: seq<Entry>, d: Option<string>): seq<Entry> {
    if s == [] then []
    else if s[0].game.startDate == d then [s[0]] + StartingAt(s[1..], d)
    else StartingAt(s[1..], d)
  }

  /** Place `e` before the first entry that does not start before it. */
  function Insert(e: Entry, s: seq<Entry>): (r: seq<Entry>)
    ensures multiset(r) == multiset(s) + multiset{e}
  {
    if s == [] || !StartLess(s[0].game.startDate, e.game.startDate) then [e] + s
    else
      assert s == [s[0]] + s[1..];
      [s[0]] + Insert(e, s[1..])
  }

  lemma {:induction false} InsertSorted(e: Entry, s: seq<Entry>)
    requires Sorted(s)
    ensures Sorted(Insert(e, s))
  {
    if s == [] || !StartLess(s[0].game.startDate, e.game.startDate) {
      InsertFrontSorted(e, s);
    } else {
      InsertSorted(e, s[1..]);
      InsertAfterSorted(e, s, Insert(e, s[1..]));
    }
  }

  /** Insertion files exactly one more entry under the entry's key. */
  lemma {:induction false} InsertKeys(e: Entry, s: seq<Entry>, k: string)
    ensures KeyCount(Insert(e, s), k) == KeyCount(s, k) + (if e.key == k then 1 else 0)
  {
    if s == [] || !StartLess(s[0].game.startDate, e.game.startDate) {
      KeyCountCons(e, s, k);
    } else {
      var rest := Insert(e, s[1..]);
      assert Insert(e, s) == [s[0]] + rest;
      InsertKeys(e, s[1..], k);
      KeyCountCons(s[0], rest, k);
    }
  }

  lemma {:induction false} InsertGames(e: Entry, s: seq<Entry>)
    ensures multiset(Games(Insert(e, s))) == multiset(Games(s)) + multiset{e.game}
  {
    if s == [] || !StartLess(s[0].game.startDate, e.game.startDate) {
      GamesCons(e, s);
    } else {
      var rest := Insert(e, s[1..]);
      assert Insert(e, s) == [s[0]] + rest;
      InsertGames(e, s[1..]);
      GamesCons(s[0], rest);
      GamesCons(s[0], s[1..]);
      assert [s[0]] + s[1..] == s;
    }
  }

  /** Stability: among the entries with its own start `e` lands first, and
      the entries of every start keep their relative order. */
  lemma {:induction false} InsertStable(e: Entry, s: seq<Entry>, d: Option<string>)
    ensures StartingAt(Insert(e, s), d) == (if e.game.startDate == d then [e] else []) + StartingAt(s, d)
  {
    if s == [] || !StartLess(s[0].game.startDate, e.game.startDate) {
      assert ([e] + s)[1..] == s;
    } else {
      var rest := Insert(e, s[1..]);
      InsertStable(e, s[1..], d);
      StartLessIrreflexive(e.game.startDate);
      assert ([s[0]] + rest)[1..] == rest;
    }
  }

  lemma InsertFrontSorted(e: Entry, s: seq<Entry>)
    requires Sorted(s)
    requires s == [] || !StartLess(s[0].game.startDate, e.game.startDate)
    ensures Sorted([e] + s)
  {
    var r := [e] + s;
    forall i, j | 0 <= i < j < |r|
      ensures !StartLess(r[j].game.startDate, r[i].game.startDate)
    {
      if i == 0 && j > 1 && StartLess(s[j - 1].game.startDate, e.game.startDate) {
        StartLessTrichotomy(e.game.startDate, s[0].game.startDate);
        if StartLess(e.game.startDate, s[0].game.startDate) {
          StartLessTransitive(s[j - 1].game.startDate, e.game.startDate, s[0].game.startDate);
        }
        assert false;
      }
    }
  }

  lemma InsertAfterSorted(e: Entry, s: seq<Entry>, rest: seq<Entry>)
    requires Sorted(s) && s != [] && StartLess(s[0].game.startDate, e.game.startDate)
    requires Sorted(rest) && multiset(rest) == multiset(s[1..]) + multiset{e}
    ensures Sorted([s[0]] + rest)
  {
    var r := [s[0]] + rest;
    forall i, j | 0 <= i < j < |r|
      ensures !StartLess(r[j].game.startDate, r[i].game.startDate)
    {
      if i == 0 {
        var x := r[j];
        assert x in multiset(rest);
        if x == e {
          if StartLess(e.game.startDate, s[0].game.startDate) {
            StartLessTransitive(e.game.startDate, s[0].game.startDate, e.game.startDate);
            StartLessIrreflexive(e.game.startDate);
          }
        } else {
          assert x in multiset(s[1..]);
          var k :| 0 <= k < |s[1..]| && s[1..][k] == x;
          assert s[k + 1] == x;
        }
      }
    }
  }

  /** The bucket sorted by `startDate`: a stable sort, so entries with equal
      start dates keep their order of arrival. */
  function SortByStart(s: seq<Entry>): (r: seq<Entry>)
    ensures multiset(r) == multiset(s)
  {
    if s == [] then []
    else
      assert s == [s[0]] + s[1..];
      Insert(s[0], SortByStart(s[1..]))
  }

  /** The sorted bucket is in start-date order. */
  lemma {:induction false} SortSorted(s: seq<Entry>)
    ensures Sorted(SortByStart(s))
  {
    if s != [] {
      SortSorted(s[1..]);
      InsertSorted(s[0], SortByStart(s[1..]));
    }
  }

  /** Sorting keeps the number of entries under every key. */
  lemma {:induction false} SortKeys(s: seq<Entry>, k: string)
    ensures KeyCount(SortByStart(s), k) == KeyCount(s, k)
  {
    if s != [] {
      SortKeys(s[1..], k);
      InsertKeys(s[0], SortByStart(s[1..]), k);
    }
  }

  /** Sorting reorders the games and loses or adds none. */
  lemma {:induction false} SortGames(s: seq<Entry>)
    ensures multiset(Games(SortByStart(s))) == multiset(Games(s))
  {
    if s != [] {
      var rest := SortByStart(s[1..]);
      assert SortByStart(s) == Insert(s[0], rest);
      SortGames(s[1..]);
      InsertGames(s[0], rest);
      GamesCons(s[0], s[1..]);
      assert [s[0]] + s[1..] == s;
    }
  }

  /** The sort is stable: games with the same start date keep the order in
      which they were bucketed. */
  lemma {:induction false} SortStable(s: seq<Entry>, d: Option<string>)
    ensures StartingAt(SortByStart(s), d) == StartingAt(s, d)
  {
    if s != [] {
      SortStable(s[1..], d);
      InsertStable(s[0], SortByStart(s[1..]), d);
    }
  }

  /** Sorting keeps the at-most-once-per-key guarantee across both buckets. */
  lemma SortKeepsAtMostOnce(today: seq<Entry>, future: seq<Entry>)
    requires AtMostOnce(today, future)
    ensures AtMostOnce(SortByStart(today), SortByStart(future))
  {
    forall k ensures KeyCount(SortByStart(today), k) + KeyCount(SortByStart(future), k) <= 1 {
      SortKeys(today, k);
      SortKeys(future, k);
    }
  }
}
