/** The fixture records the newer script writes, and the two buckets it
    accumulates them in together with the one seen-key set that both the
    scoreboard path and the national-team path consult. */
module Fixtures {
  import opened Js

  /** One element of `today` or `future` in the output file. A scoreboard or
      team event without a `date` gives a game without `startDate`. */
  datatype Game = Game(
    startDate: Option<string>,
    home: string,
    away: string,
    homeLogo: string,
    awayLogo: string,
    competition: string,
    broadcast: string)

  /** A game together with the dedupe key it was admitted under. The key is
      not written to the file. */
  datatype Entry = Entry(key: string, game: Game)

  /** `DAYS_AHEAD`: the look-ahead window, in days. */
  const DaysAhead: nat := 7

  datatype Window = Today | Future

  /** `seenKeys`, `todayGames` and `futureGames` during a run. */
  datatype Buckets = Buckets(seen: set<string>, today: seq<Entry>, future: seq<Entry>)

  const Empty := Buckets({}, [], [])

  /** The number of entries of `s` filed under key `k`. */
  function KeyCount(s: seq<Entry>, k: string): nat {
    if s == [] then 0 else (if s[0].key == k then 1 else 0) + KeyCount(s[1..], k)
  }

  function Games(s: seq<Entry>): (r: seq<Game>)
    ensures |r| == |s| && forall i :: 0 <= i < |s| ==> r[i] == s[i].game
  {
    seq(|s|, i requires 0 <= i < |s| => s[i].game)
  }

  /** At most one game per key across both buckets. */
  ghost predicate AtMostOnce(today: seq<Entry>, future: seq<Entry>) {
    forall k :: KeyCount(today, k) + KeyCount(future, k) <= 1
  }

  /** Every bucketed game's key has been marked seen, and no key is bucketed twice. */
  ghost predicate Consistent(b: Buckets) {
    && (forall i :: 0 <= i < |b.today| ==> b.today[i].key in b.seen)
    && (forall i :: 0 <= i < |b.future| ==> b.future[i].key in b.seen)
    && AtMostOnce(b.today, b.future)
  }

  lemma ConsistentEmpty()
    ensures Consistent(Empty)
  {
  }

  /** `seenKeys.add(key)`. */
  function Claim(b: Buckets, key: string): Buckets {
    b.(seen := b.seen + {key})
  }

  /** `todayGames.push(g)` or `futureGames.push(g)`. */
  function Push(b: Buckets, w: Window, e: Entry): (r: Buckets)
    ensures r.seen == b.seen
    ensures w == Today ==> r.today == b.today + [e] && r.future == b.future
    ensures w == Future ==> r.future == b.future + [e] && r.today == b.today
  {
    match w
    case Today => b.(today := b.today + [e])
    case Future => b.(future := b.future + [e])
  }

  /** The bucket of a window. */
  function Bucket(b: Buckets, w: Window): (r: seq<Entry>)
    ensures w == Today ==> r == b.today
    ensures w == Future ==> r == b.future
  {
    match w
    case Today => b.today
    case Future => b.future
  }

  /** Some entry of `s` is filed under key `k`. */
  ghost predicate HasKey(s: seq<Entry>, k: string) {
    exists i :: 0 <= i < |s| && s[i].key == k
  }

  lemma {:induction false} KeyCountPositive(s: seq<Entry>, k: string)
    requires HasKey(s, k)
    ensures KeyCount(s, k) >= 1
  {
    if s[0].key != k {
      var i :| 0 <= i < |s| && s[i].key == k;
      assert s[1..][i - 1].key == k;
      KeyCountPositive(s[1..], k);
    }
  }

  lemma HasKeyPrefix(s: seq<Entry>, t: seq<Entry>, k: string)
    requires s <= t && HasKey(s, k)
    ensures HasKey(t, k)
  {
    var i :| 0 <= i < |s| && s[i].key == k;
    assert t[i] == s[i];
  }

  /** An entry of a bucket is still there once the bucket has grown. */
  lemma EntryPrefix(s: seq<Entry>, t: seq<Entry>, e: Entry)
    requires s <= t && e in s
    ensures e in t
  {
    var i :| 0 <= i < |s| && s[i] == e;
    assert t[i] == e;
  }

  /** In consistent buckets a key found in one bucket is filed there exactly once. */
  lemma BucketedOnce(b: Buckets, w: Window, k: string)
    requires Consistent(b) && HasKey(Bucket(b, w), k)
    ensures KeyCount(Bucket(b, w), k) == 1
  {
    KeyCountPositive(Bucket(b, w), k);
    assert KeyCount(b.today, k) + KeyCount(b.future, k) <= 1;
  }

  /** Either bucket may hold it: a key found in one of them is filed exactly once across both. */
  lemma BucketedOnceOverall(b: Buckets, k: string)
    requires Consistent(b) && (HasKey(b.today, k) || HasKey(b.future, k))
    ensures KeyCount(b.today, k) + KeyCount(b.future, k) == 1
  {
    if HasKey(b.today, k) {
      KeyCountPositive(b.today, k);
    } else {
      KeyCountPositive(b.future, k);
    }
  }

  lemma GamesCons(e: Entry, s: seq<Entry>)
    ensures Games([e] + s) == [e.game] + Games(s)
    ensures multiset(Games([e] + s)) == multiset{e.game} + multiset(Games(s))
  {
    assert Games([e] + s) == [e.game] + Games(s);
  }

  lemma KeyCountCons(e: Entry, s: seq<Entry>, k: string)
    ensures KeyCount([e] + s, k) == (if e.key == k then 1 else 0) + KeyCount(s, k)
  {
    assert ([e] + s)[1..] == s;
  }

  lemma {:induction false} KeyCountAppend(s: seq<Entry>, e: Entry, k: string)
    ensures KeyCount(s + [e], k) == KeyCount(s, k) + (if e.key == k then 1 else 0)
  {
    if s == [] {
      assert s + [e] == [e] && [e][1..] == [];
    } else {
      assert (s + [e])[0] == s[0] && (s + [e])[1..] == s[1..] + [e];
      KeyCountAppend(s[1..], e, k);
    }
  }

  lemma {:induction false} KeyCountAbsent(s: seq<Entry>, k: string)
    requires forall i :: 0 <= i < |s| ==> s[i].key != k
    ensures KeyCount(s, k) == 0
  {
    if s != [] {
      assert forall i :: 0 <= i < |s[1..]| ==> s[1..][i] == s[i + 1];
      KeyCountAbsent(s[1..], k);
    }
  }

  lemma UnseenNotBucketed(b: Buckets, key: string)
    requires Consistent(b) && key !in b.seen
    ensures KeyCount(b.today, key) == 0 && KeyCount(b.future, key) == 0
  {
    KeyCountAbsent(b.today, key);
    KeyCountAbsent(b.future, key);
  }

  /** Marking a key seen keeps the buckets consistent. */
  lemma ClaimConsistent(b: Buckets, key: string)
    ensures Consistent(b) ==> Consistent(Claim(b, key))
  {
  }

  /** Admitting a game under a key nobody has claimed before, after claiming
      it, keeps the buckets consistent: this is the dedupe guarantee. */
  lemma {:induction false} AdmitConsistent(b: Buckets, w: Window, e: Entry)
    requires e.key !in b.seen
    ensures Consistent(b) ==> Consistent(Push(Claim(b, e.key), w, e))
  {
    if !Consistent(b) {
      return;
    }
    UnseenNotBucketed(b, e.key);
    var r := Push(Claim(b, e.key), w, e);
    match w
    case Today =>
      forall k ensures KeyCount(r.today, k) == KeyCount(b.today, k) + (if e.key == k then 1 else 0) {
        KeyCountAppend(b.today, e, k);
      }
    case Future =>
      forall k ensures KeyCount(r.future, k) == KeyCount(b.future, k) + (if e.key == k then 1 else 0) {
        KeyCountAppend(b.future, e, k);
      }
  }
}
