/** The scoreboard phase of the newer script: for every competition slug and
    every day offset 0..7, the events of that day's scoreboard are filtered
    through the registry, deduplicated on the shared seen-key set and
    bucketed by offset. A `TypeError` inside one response's event loop is
    caught outside that loop, so it abandons the remaining events of that
    response (but not the later responses). */
module Scoreboard {
  import opened Js
  import opened Espn
  import opened Registry
  import opened Fixtures

  /** One scoreboard request: a competition slug and a day offset from today. */
  datatype Query = Query(slug: string, offset: nat)

  function Offsets(slug: string): (r: seq<Query>)
    ensures |r| == DaysAhead + 1 && forall o :: 0 <= o <= DaysAhead ==> r[o] == Query(slug, o)
  {
    seq(DaysAhead + 1, o requires 0 <= o <= DaysAhead => Query(slug, o))
  }

  /** The request order of the two nested loops: slug by slug, and for each
      slug the offsets 0 through `DaysAhead`. */
  function Schedule(leagues: seq<string>): (r: seq<Query>)
    ensures |r| == |leagues| * (DaysAhead + 1)
    ensures forall i :: 0 <= i < |r| ==> r[i] == Query(leagues[i / (DaysAhead + 1)], i % (DaysAhead + 1))
  {
    if leagues == [] then []
    else
      var rest := Schedule(leagues[1..]);
      var r := Offsets(leagues[0]) + rest;
      assert forall i :: DaysAhead + 1 <= i < |r| ==>
        r[i] == rest[i - (DaysAhead + 1)] && (i - (DaysAhead + 1)) / (DaysAhead + 1) == i / (DaysAhead + 1) - 1
        && (i - (DaysAhead + 1)) % (DaysAhead + 1) == i % (DaysAhead + 1);
      r
  }

  /** `data.events || []`, with a failed request, a non-ok status or an
      unparsable body all giving no events. */
  function EventsOf(resp: Option<ScoreboardBody>): seq<Event> {
    match resp
    case None => []
    case Some(sb) => sb.events.GetOr([])
  }

  /** An event that has a first competition and two competitors, with both
      chosen sides' teams and display names present. */
  datatype Candidate = Candidate(comp: Competition, home: Team, away: Team)
  {
    function HomeName(): string requires home.displayName.Some? { home.displayName.value }
    function AwayName(): string requires away.displayName.Some? { away.displayName.value }
  }

  predicate Named(c: Candidate) {
    c.home.displayName.Some? && c.away.displayName.Some?
  }

  /** The first part of the loop body: skip without a competition or with
      fewer than two competitors; `normalizeName(home.team && home.team.displayName)`
      throws when the team or its display name is missing. */
  function Inspect(ev: Event): (r: Eval<Option<Candidate>>)
    // skipped iff there is no first competition or it has fewer than two competitors
    ensures r == Value(None) <==>
              FirstCompetition(ev).None? || SelectSides(CompetitorsOf(FirstCompetition(ev).value)).None?
    // throws iff a chosen side lacks its team or the team lacks its display name
    ensures r.Threw? <==>
              && FirstCompetition(ev).Some?
              && SelectSides(CompetitorsOf(FirstCompetition(ev).value)).Some?
              && var sides := SelectSides(CompetitorsOf(FirstCompetition(ev).value)).value;
                 || sides.home.team.None? || sides.home.team.value.displayName.None?
                 || sides.away.team.None? || sides.away.team.value.displayName.None?
    // a candidate carries the chosen sides' teams, both named
    ensures r.Value? && r.value.Some? ==>
              && FirstCompetition(ev).Some?
              && SelectSides(CompetitorsOf(FirstCompetition(ev).value)).Some?
              && var sides := SelectSides(CompetitorsOf(FirstCompetition(ev).value)).value;
                 && sides.home.team.Some? && sides.away.team.Some?
                 && r.value.value == Candidate(FirstCompetition(ev).value, sides.home.team.value, sides.away.team.value)
    ensures r.Value? && r.value.Some? ==> Named(r.value.value)
  {
    match FirstCompetition(ev)
    case None => Value(None)
    case Some(comp) =>
      match SelectSides(CompetitorsOf(comp))
      case None => Value(None)
      case Some(sides) =>
        var h := sides.home.team;
        var a := sides.away.team;
        if h.Some? && h.value.displayName.Some? && a.Some? && a.value.displayName.Some? then
          Value(Some(Candidate(comp, h.value, a.value)))
        else Threw
  }

  /** The event reaches the dedupe check: it is well formed and passes the registry filter. */
  predicate Kept(reg: Registry, ev: Event) {
    && Inspect(ev).Value? && Inspect(ev).value.Some?
    && Keeps(reg, Inspect(ev).value.value.HomeName(), Inspect(ev).value.value.AwayName())
  }

  /** `${ev.date || ev.id}-${homeName}-${awayName}`: built from the raw display names. */
  function ScoreboardKey(ev: Event, home: string, away: string): string {
    Interpolate(Or(ev.date, ev.id)) + "-" + home + "-" + away
  }

  function KeyOf(ev: Event): string
    requires Inspect(ev).Value? && Inspect(ev).value.Some?
  {
    var c := Inspect(ev).value.value;
    ScoreboardKey(ev, c.HomeName(), c.AwayName())
  }

  /** The game record, built after the key is claimed; a side whose `logos`
      is an empty array makes this throw. */
  function MakeGame(ev: Event, c: Candidate): (r: Eval<Game>)
    requires Named(c)
    ensures r.Threw? <==> c.home.logos == Some([]) || c.away.logos == Some([])
    ensures r.Value? ==> r.value.startDate == ev.date && r.value.home == c.HomeName() && r.value.away == c.AwayName()
    ensures r.Value? ==> Value(r.value.homeLogo) == ScoreboardLogo(c.home) && Value(r.value.awayLogo) == ScoreboardLogo(c.away)
    ensures r.Value? ==> r.value.competition == CompetitionLabel(ev) && r.value.broadcast == BroadcastLabel(c.comp, ev)
  {
    match ScoreboardLogo(c.home)
    case Threw => Threw
    case Value(hl) =>
      match ScoreboardLogo(c.away)
      case Threw => Threw
      case Value(al) =>
        Value(Game(ev.date, c.HomeName(), c.AwayName(), hl, al, CompetitionLabel(ev), BroadcastLabel(c.comp, ev)))
  }

  /** Offset 0 is today; every later offset is the future. */
  function WindowOf(offset: nat): (w: Window)
    ensures w == Today <==> offset == 0
  {
    if offset == 0 then Today else Future
  }

  /** The loop over one response either goes on with the next event or is abandoned. */
  datatype Flow = Continue(b: Buckets) | Abort(b: Buckets)

  /** One iteration of the scoreboard event loop. */
  function EventStep(reg: Registry, offset: nat, ev: Event, b: Buckets): (r: Flow)
    // a missing display name throws before anything changes
    ensures Inspect(ev).Threw? ==> r == Abort(b)
    // skipped and filtered-out events change nothing and consume no key
    ensures Inspect(ev).Value? && !Kept(reg, ev) ==> r == Continue(b)
    // a kept event whose key was seen is dropped
    ensures Kept(reg, ev) && KeyOf(ev) in b.seen ==> r == Continue(b)
    // a kept event with an unseen key consumes it, even when its logos throw
    ensures Kept(reg, ev) && KeyOf(ev) !in b.seen ==> r.b.seen == b.seen + {KeyOf(ev)}
    ensures r.Abort? <==>
              Inspect(ev).Threw? ||
              (Kept(reg, ev) && KeyOf(ev) !in b.seen && MakeGame(ev, Inspect(ev).value.value).Threw?)
    // a kept event with an unseen key and resolvable logos is appended, with
    // its record, to the bucket of the offset
    ensures Kept(reg, ev) && KeyOf(ev) !in b.seen && MakeGame(ev, Inspect(ev).value.value).Value? ==>
              r == Continue(Push(Claim(b, KeyOf(ev)), WindowOf(offset),
                                 Entry(KeyOf(ev), MakeGame(ev, Inspect(ev).value.value).value)))
    // nothing else is ever appended
    ensures r.b.today != b.today ==>
              && offset == 0 && Kept(reg, ev) && KeyOf(ev) !in b.seen
              && MakeGame(ev, Inspect(ev).value.value).Value?
              && r.b.today == b.today + [Entry(KeyOf(ev), MakeGame(ev, Inspect(ev).value.value).value)]
    ensures r.b.future != b.future ==>
              && offset != 0 && Kept(reg, ev) && KeyOf(ev) !in b.seen
              && MakeGame(ev, Inspect(ev).value.value).Value?
              && r.b.future == b.future + [Entry(KeyOf(ev), MakeGame(ev, Inspect(ev).value.value).value)]
    ensures Consistent(b) ==> Consistent(r.b)
  {
    match Inspect(ev)
    case Threw => Abort(b)
    case Value(None) => Continue(b)
    case Value(Some(c)) =>
      if !Keeps(reg, c.HomeName(), c.AwayName()) then Continue(b)
      else
        var key := ScoreboardKey(ev, c.HomeName(), c.AwayName());
        if key in b.seen then Continue(b)
        else
          match MakeGame(ev, c)
          case Threw =>
            ClaimConsistent(b, key);
            Abort(Claim(b, key))
          case Value(g) =>
            AdmitConsistent(b, WindowOf(offset), Entry(key, g));
            Continue(Push(Claim(b, key), WindowOf(offset), Entry(key, g)))
  }

  /** `for (const ev of events)` inside one response's `try`. */
  function EventsRun(reg: Registry, offset: nat, evs: seq<Event>, b: Buckets): (r: Flow)
    ensures Consistent(b) ==> Consistent(r.b)
    ensures b.seen <= r.b.seen
    ensures b.today <= r.b.today && b.future <= r.b.future
    ensures offset == 0 ==> r.b.future == b.future
    ensures offset != 0 ==> r.b.today == b.today
  {
    if evs == [] then Continue(b)
    else
      match EventStep(reg, offset, evs[0], b)
      case Abort(b') => Abort(b')
      case Continue(b') => EventsRun(reg, offset, evs[1..], b')
  }

  /** Running over a concatenation runs over the second part only when the
      first part was not abandoned. */
  lemma {:induction false} EventsRunAppend(reg: Registry, offset: nat, a: seq<Event>, c: seq<Event>, b: Buckets)
    ensures EventsRun(reg, offset, a + c, b) ==
              match EventsRun(reg, offset, a, b)
              case Abort(x) => Abort(x)
              case Continue(x) => EventsRun(reg, offset, c, x)
  {
    if a == [] {
      assert a + c == c;
    } else {
      assert (a + c)[0] == a[0] && (a + c)[1..] == a[1..] + c;
      match EventStep(reg, offset, a[0], b)
      case Abort(_) =>
      case Continue(b') => EventsRunAppend(reg, offset, a[1..], c, b');
    }
  }

  /** One bad event loses the rest of its response: once an event throws,
      whatever follows it in the same response contributes nothing. */
  lemma AbortLosesRest(reg: Registry, offset: nat, a: seq<Event>, rest: seq<Event>, b: Buckets)
    requires EventsRun(reg, offset, a, b).Abort?
    ensures EventsRun(reg, offset, a + rest, b) == EventsRun(reg, offset, a, b)
  {
    EventsRunAppend(reg, offset, a, rest, b);
  }

  /** `e` is the entry a kept event of `evs` is bucketed under: its key and its record. */
  ghost predicate Scanned(reg: Registry, evs: seq<Event>, e: Entry) {
    exists ev :: ev in evs && Kept(reg, ev) && MakeGame(ev, Inspect(ev).value.value).Value? &&
      e == Entry(KeyOf(ev), MakeGame(ev, Inspect(ev).value.value).value)
  }

  /** The entries appended over the first event and then over the rest of a response. */
  lemma AppendedScanned(reg: Registry, evs: seq<Event>, s0: seq<Entry>, s1: seq<Entry>, s2: seq<Entry>)
    requires evs != []
    requires s1 == s0 || (&& Kept(reg, evs[0]) && MakeGame(evs[0], Inspect(evs[0]).value.value).Value?
                          && s1 == s0 + [Entry(KeyOf(evs[0]), MakeGame(evs[0], Inspect(evs[0]).value.value).value)])
    requires s1 <= s2
    requires forall i :: |s1| <= i < |s2| ==> Scanned(reg, evs[1..], s2[i])
    ensures s0 <= s2
    ensures forall i :: |s0| <= i < |s2| ==> Scanned(reg, evs, s2[i])
  {
    forall i | |s0| <= i < |s2| ensures Scanned(reg, evs, s2[i]) {
      if i >= |s1| {
        assert Scanned(reg, evs[1..], s2[i]);
        var ev :| ev in evs[1..] && Kept(reg, ev) && MakeGame(ev, Inspect(ev).value.value).Value? &&
          s2[i] == Entry(KeyOf(ev), MakeGame(ev, Inspect(ev).value.value).value);
        assert ev in evs;
      } else {
        assert s2[i] == s1[i];
        assert evs[0] in evs;
      }
    }
  }

  /** Every entry the loop over one response appends is the entry of a kept
      event of that response. */
  lemma {:induction false} EventsRunFromEvents(reg: Registry, offset: nat, evs: seq<Event>, b: Buckets)
    ensures forall i :: |b.today| <= i < |EventsRun(reg, offset, evs, b).b.today| ==>
              Scanned(reg, evs, EventsRun(reg, offset, evs, b).b.today[i])
    ensures forall i :: |b.future| <= i < |EventsRun(reg, offset, evs, b).b.future| ==>
              Scanned(reg, evs, EventsRun(reg, offset, evs, b).b.future[i])
  {
    if evs != [] {
      var s := EventStep(reg, offset, evs[0], b);
      var r := EventsRun(reg, offset, evs, b).b;
      if s.Continue? {
        assert r == EventsRun(reg, offset, evs[1..], s.b).b;
        EventsRunFromEvents(reg, offset, evs[1..], s.b);
      } else {
        assert r == s.b;
      }
      AppendedScanned(reg, evs, b.today, s.b.today, r.today);
      AppendedScanned(reg, evs, b.future, s.b.future, r.future);
    }
  }

  /** A loop that is not abandoned reaches every event: each kept event's key
      ends up seen, and every key it newly claims is filed in the bucket of
      its offset. */
  lemma {:induction false} EventsRunBuckets(reg: Registry, offset: nat, evs: seq<Event>, b: Buckets)
    requires EventsRun(reg, offset, evs, b).Continue?
    ensures var r := EventsRun(reg, offset, evs, b).b;
            && (forall ev :: ev in evs && Kept(reg, ev) ==> KeyOf(ev) in r.seen)
            && (forall k :: k in r.seen && k !in b.seen ==> HasKey(Bucket(r, WindowOf(offset)), k))
  {
    if evs != [] {
      var e0 := evs[0];
      var s := EventStep(reg, offset, e0, b);
      assert s.Continue?;
      var r := EventsRun(reg, offset, evs[1..], s.b).b;
      assert EventsRun(reg, offset, evs, b).b == r;
      EventsRunBuckets(reg, offset, evs[1..], s.b);
      var w := WindowOf(offset);
      assert Bucket(s.b, w) <= Bucket(r, w);
      forall ev | ev in evs && Kept(reg, ev) ensures KeyOf(ev) in r.seen {
        if ev != e0 {
          assert ev in evs[1..];
        }
      }
      forall k | k in r.seen && k !in b.seen ensures HasKey(Bucket(r, w), k) {
        if k in s.b.seen {
          assert Kept(reg, e0) && k == KeyOf(e0) && KeyOf(e0) !in b.seen;
          var e := Entry(KeyOf(e0), MakeGame(e0, Inspect(e0).value.value).value);
          assert s.b == Push(Claim(b, KeyOf(e0)), w, e);
          assert Bucket(s.b, w)[|Bucket(b, w)|] == e;
          assert Bucket(r, w)[|Bucket(b, w)|] == e;
        }
      }
    }
  }

  /** A loop that is not abandoned files every kept event whose key was not
      seen before, exactly once, in the bucket of its offset. */
  lemma EventsRunComplete(reg: Registry, offset: nat, evs: seq<Event>, b: Buckets, ev: Event)
    requires Consistent(b) && EventsRun(reg, offset, evs, b).Continue?
    requires ev in evs && Kept(reg, ev) && KeyOf(ev) !in b.seen
    ensures KeyCount(Bucket(EventsRun(reg, offset, evs, b).b, WindowOf(offset)), KeyOf(ev)) == 1
  {
    EventsRunBuckets(reg, offset, evs, b);
    BucketedOnce(EventsRun(reg, offset, evs, b).b, WindowOf(offset), KeyOf(ev));
  }

  /** The events the response to a query carries. */
  function Response(fetch: (string, nat) -> Option<ScoreboardBody>, q: Query): seq<Event> {
    EventsOf(fetch(q.slug, q.offset))
  }

  /** The whole scoreboard phase over a request schedule. */
  function ScanQueries(reg: Registry, fetch: (string, nat) -> Option<ScoreboardBody>, qs: seq<Query>, b: Buckets): (r: Buckets)
    ensures Consistent(b) ==> Consistent(r)
    ensures b.seen <= r.seen
    ensures b.today <= r.today && b.future <= r.future
    // only offset-0 requests ever add to today, only later ones to the future
    ensures (forall i :: 0 <= i < |qs| ==> qs[i].offset != 0) ==> r.today == b.today
    ensures (forall i :: 0 <= i < |qs| ==> qs[i].offset == 0) ==> r.future == b.future
  {
    if qs == [] then b
    else
      var q := qs[0];
      ScanQueries(reg, fetch, qs[1..], EventsRun(reg, q.offset, Response(fetch, q), b).b)
  }

  /** `e` was appended to the bucket `w` by the response to one of `qs`. */
  ghost predicate ScannedAt(reg: Registry, fetch: (string, nat) -> Option<ScoreboardBody>, qs: seq<Query>, w: Window, e: Entry) {
    exists q :: q in qs && WindowOf(q.offset) == w && Scanned(reg, Response(fetch, q), e)
  }

  /** The entries appended by the first query and then by the rest of the schedule. */
  lemma AppendedScannedAt(reg: Registry, fetch: (string, nat) -> Option<ScoreboardBody>, qs: seq<Query>, w: Window,
                          s0: seq<Entry>, s1: seq<Entry>, s2: seq<Entry>)
    requires qs != [] && s0 <= s1 <= s2
    requires |s0| < |s1| ==> WindowOf(qs[0].offset) == w
    requires forall i :: |s0| <= i < |s1| ==> Scanned(reg, Response(fetch, qs[0]), s1[i])
    requires forall i :: |s1| <= i < |s2| ==> ScannedAt(reg, fetch, qs[1..], w, s2[i])
    ensures forall i :: |s0| <= i < |s2| ==> ScannedAt(reg, fetch, qs, w, s2[i])
  {
    forall i | |s0| <= i < |s2| ensures ScannedAt(reg, fetch, qs, w, s2[i]) {
      if i >= |s1| {
        assert ScannedAt(reg, fetch, qs[1..], w, s2[i]);
        var q :| q in qs[1..] && WindowOf(q.offset) == w && Scanned(reg, Response(fetch, q), s2[i]);
        assert q in qs;
      } else {
        assert s2[i] == s1[i];
        assert qs[0] in qs;
      }
    }
  }

  /** Every entry the scoreboard phase appends to a bucket is the entry of a
      kept event of a response to one of its queries whose offset selects
      that bucket. */
  lemma {:induction false} ScanQueriesFromEvents(reg: Registry, fetch: (string, nat) -> Option<ScoreboardBody>, qs: seq<Query>,
                                                 b: Buckets, w: Window)
    ensures forall i :: |Bucket(b, w)| <= i < |Bucket(ScanQueries(reg, fetch, qs, b), w)| ==>
              ScannedAt(reg, fetch, qs, w, Bucket(ScanQueries(reg, fetch, qs, b), w)[i])
  {
    if qs != [] {
      var q := qs[0];
      var evs := Response(fetch, q);
      var b1 := EventsRun(reg, q.offset, evs, b).b;
      var r := ScanQueries(reg, fetch, qs[1..], b1);
      assert ScanQueries(reg, fetch, qs, b) == r;
      EventsRunFromEvents(reg, q.offset, evs, b);
      assert forall i :: |Bucket(b, w)| <= i < |Bucket(b1, w)| ==> Scanned(reg, evs, Bucket(b1, w)[i]);
      assert |Bucket(b, w)| < |Bucket(b1, w)| ==> WindowOf(q.offset) == w;
      ScanQueriesFromEvents(reg, fetch, qs[1..], b1, w);
      AppendedScannedAt(reg, fetch, qs, w, Bucket(b, w), Bucket(b1, w), Bucket(r, w));
    }
  }

  /** An event that neither throws nor, once kept, has a logo that throws. */
  predicate Clean(reg: Registry, ev: Event) {
    !Inspect(ev).Threw? && (Kept(reg, ev) ==> MakeGame(ev, Inspect(ev).value.value).Value?)
  }

  /** A response whose events are all clean is never abandoned. */
  lemma {:induction false} CleanContinues(reg: Registry, offset: nat, evs: seq<Event>, b: Buckets)
    requires forall ev :: ev in evs ==> Clean(reg, ev)
    ensures EventsRun(reg, offset, evs, b).Continue?
  {
    if evs != [] {
      assert evs[0] in evs;
      var s := EventStep(reg, offset, evs[0], b);
      assert s.Continue?;
      assert forall ev :: ev in evs[1..] ==> ev in evs;
      CleanContinues(reg, offset, evs[1..], s.b);
    }
  }

  /** No event of any response to `qs` throws. */
  ghost predicate AllClean(reg: Registry, fetch: (string, nat) -> Option<ScoreboardBody>, qs: seq<Query>) {
    forall q, ev :: q in qs && ev in Response(fetch, q) ==> Clean(reg, ev)
  }

  /** When no event throws, every kept event's key ends up seen, and every key
      the phase newly claims is filed in one of the buckets. */
  lemma {:induction false} ScanQueriesBuckets(reg: Registry, fetch: (string, nat) -> Option<ScoreboardBody>, qs: seq<Query>, b: Buckets)
    requires AllClean(reg, fetch, qs)
    ensures var r := ScanQueries(reg, fetch, qs, b);
            && (forall q, ev :: q in qs && ev in Response(fetch, q) && Kept(reg, ev) ==> KeyOf(ev) in r.seen)
            && (forall k :: k in r.seen && k !in b.seen ==> HasKey(r.today, k) || HasKey(r.future, k))
  {
    if qs != [] {
      var q := qs[0];
      var evs := Response(fetch, q);
      var b1 := EventsRun(reg, q.offset, evs, b).b;
      var r := ScanQueries(reg, fetch, qs, b);
      assert r == ScanQueries(reg, fetch, qs[1..], b1);
      assert q in qs;
      CleanContinues(reg, q.offset, evs, b);
      EventsRunBuckets(reg, q.offset, evs, b);
      assert forall p :: p in qs[1..] ==> p in qs;
      ScanQueriesBuckets(reg, fetch, qs[1..], b1);
      forall p, ev | p in qs && ev in Response(fetch, p) && Kept(reg, ev) ensures KeyOf(ev) in r.seen {
        if p != q {
          assert p in qs[1..];
        }
      }
      forall k | k in r.seen && k !in b.seen ensures HasKey(r.today, k) || HasKey(r.future, k) {
        if k in b1.seen {
          var w := WindowOf(q.offset);
          var i :| 0 <= i < |Bucket(b1, w)| && Bucket(b1, w)[i].key == k;
          assert Bucket(b1, w) <= Bucket(r, w);
          assert Bucket(r, w)[i].key == k;
        }
      }
    }
  }

  /** When no event throws, every kept event of every response whose key was
      not seen before has its key filed in one of the buckets. */
  lemma ScanQueriesFiles(reg: Registry, fetch: (string, nat) -> Option<ScoreboardBody>, qs: seq<Query>, b: Buckets,
                         q: Query, ev: Event)
    requires AllClean(reg, fetch, qs)
    requires q in qs && ev in Response(fetch, q) && Kept(reg, ev) && KeyOf(ev) !in b.seen
    ensures HasKey(ScanQueries(reg, fetch, qs, b).today, KeyOf(ev)) || HasKey(ScanQueries(reg, fetch, qs, b).future, KeyOf(ev))
  {
    ScanQueriesBuckets(reg, fetch, qs, b);
  }

  /** When no event throws, every kept event of every response whose key was
      not seen before is filed exactly once across the two buckets. */
  lemma ScanQueriesComplete(reg: Registry, fetch: (string, nat) -> Option<ScoreboardBody>, qs: seq<Query>, b: Buckets,
                            q: Query, ev: Event)
    requires Consistent(b) && AllClean(reg, fetch, qs)
    requires q in qs && ev in Response(fetch, q) && Kept(reg, ev) && KeyOf(ev) !in b.seen
    ensures KeyCount(ScanQueries(reg, fetch, qs, b).today, KeyOf(ev)) + KeyCount(ScanQueries(reg, fetch, qs, b).future, KeyOf(ev)) == 1
  {
    ScanQueriesFiles(reg, fetch, qs, b, q, ev);
    BucketedOnceOverall(ScanQueries(reg, fetch, qs, b), KeyOf(ev));
  }

  /** No kept event of `evs` carries the key `k`. */
  predicate Unkeyed(reg: Registry, evs: seq<Event>, k: string) {
    forall ev :: ev in evs && Kept(reg, ev) ==> KeyOf(ev) != k
  }

  /** `evs[i]` is kept and no kept event before it in `evs` has its key. */
  predicate FirstInResponse(reg: Registry, evs: seq<Event>, i: nat) {
    i < |evs| && Kept(reg, evs[i]) && Unkeyed(reg, evs[..i], KeyOf(evs[i]))
  }

  /** None of the events up to and including `evs[i]` throws. */
  predicate CleanThrough(reg: Registry, evs: seq<Event>, i: nat) {
    i < |evs| && forall j :: 0 <= j <= i ==> Clean(reg, evs[j])
  }

  /** A response whose kept events never carry `k` leaves `k` unclaimed. */
  lemma {:induction false} EventsRunUnkeyed(reg: Registry, offset: nat, evs: seq<Event>, b: Buckets, k: string)
    requires Unkeyed(reg, evs, k) && k !in b.seen
    ensures k !in EventsRun(reg, offset, evs, b).b.seen
  {
    if evs != [] {
      assert evs[0] in evs;
      var s := EventStep(reg, offset, evs[0], b);
      assert k !in s.b.seen;
      if s.Continue? {
        assert forall ev :: ev in evs[1..] ==> ev in evs;
        EventsRunUnkeyed(reg, offset, evs[1..], s.b, k);
      }
    }
  }

  /** An entry filed before a response is read stays filed, whatever the response holds. */
  lemma EventsRunKeeps(reg: Registry, offset: nat, evs: seq<Event>, b: Buckets, w: Window, e: Entry)
    requires e in Bucket(b, w)
    ensures e in Bucket(EventsRun(reg, offset, evs, b).b, w)
  {
    var x :| 0 <= x < |Bucket(b, w)| && Bucket(b, w)[x] == e;
    assert Bucket(b, w) <= Bucket(EventsRun(reg, offset, evs, b).b, w);
    assert Bucket(EventsRun(reg, offset, evs, b).b, w)[x] == e;
  }

  /** A clean, kept first event with a key not seen before is filed and stays filed. */
  lemma EventsRunFirstHead(reg: Registry, offset: nat, evs: seq<Event>, b: Buckets)
    requires evs != [] && Kept(reg, evs[0]) && Clean(reg, evs[0]) && KeyOf(evs[0]) !in b.seen
    ensures Entry(KeyOf(evs[0]), MakeGame(evs[0], Inspect(evs[0]).value.value).value) in
              Bucket(EventsRun(reg, offset, evs, b).b, WindowOf(offset))
  {
    var w := WindowOf(offset);
    var s := EventStep(reg, offset, evs[0], b);
    var e := Entry(KeyOf(evs[0]), MakeGame(evs[0], Inspect(evs[0]).value.value).value);
    assert EventsRun(reg, offset, evs, b) == EventsRun(reg, offset, evs[1..], s.b);
    assert Bucket(s.b, w) == Bucket(b, w) + [e];
    assert Bucket(s.b, w)[|Bucket(b, w)|] == e;
    EventsRunKeeps(reg, offset, evs[1..], s.b, w, e);
  }

  /** The first kept event of a response with a key not seen before is filed,
      with its own record, in the bucket of the offset, provided nothing up to
      it throws; what follows it in the response cannot take that back. */
  lemma EventsRunFirstIn(reg: Registry, offset: nat, evs: seq<Event>, b: Buckets, i: nat, ev: Event)
    requires FirstInResponse(reg, evs, i) && CleanThrough(reg, evs, i)
    requires ev == evs[i] && KeyOf(ev) !in b.seen
    ensures Entry(KeyOf(ev), MakeGame(ev, Inspect(ev).value.value).value) in Bucket(EventsRun(reg, offset, evs, b).b, WindowOf(offset))
  {
    var pre := evs[..i];
    assert evs == pre + evs[i..];
    assert forall x :: x in pre ==> Clean(reg, x);
    CleanContinues(reg, offset, pre, b);
    EventsRunUnkeyed(reg, offset, pre, b, KeyOf(ev));
    EventsRunAppend(reg, offset, pre, evs[i..], b);
    EventsRunFirstHead(reg, offset, evs[i..], EventsRun(reg, offset, pre, b).b);
  }

  /** The event at position `i` of the response to `qs[j]` is the first kept
      event of the whole schedule with its key. */
  predicate FirstScheduled(reg: Registry, fetch: (string, nat) -> Option<ScoreboardBody>, qs: seq<Query>, j: nat, i: nat) {
    && j < |qs| && FirstInResponse(reg, Response(fetch, qs[j]), i)
    && forall p :: 0 <= p < j ==> Unkeyed(reg, Response(fetch, qs[p]), KeyOf(Response(fetch, qs[j])[i]))
  }

  /** An entry filed before the schedule is run stays filed. */
  lemma {:induction false} ScanQueriesKeeps(reg: Registry, fetch: (string, nat) -> Option<ScoreboardBody>, qs: seq<Query>,
                                            b: Buckets, w: Window, e: Entry)
    requires e in Bucket(b, w)
    ensures e in Bucket(ScanQueries(reg, fetch, qs, b), w)
  {
    if qs != [] {
      var b1 := EventsRun(reg, qs[0].offset, Response(fetch, qs[0]), b).b;
      EventsRunKeeps(reg, qs[0].offset, Response(fetch, qs[0]), b, w, e);
      ScanQueriesKeeps(reg, fetch, qs[1..], b1, w, e);
    }
  }

  /** Past the first query, the same event is the first with its key in the rest of the schedule. */
  lemma FirstScheduledTail(reg: Registry, fetch: (string, nat) -> Option<ScoreboardBody>, qs: seq<Query>, j: nat, i: nat)
    requires FirstScheduled(reg, fetch, qs, j, i) && 0 < j
    ensures Unkeyed(reg, Response(fetch, qs[0]), KeyOf(Response(fetch, qs[j])[i]))
    ensures qs[1..][j - 1] == qs[j] && FirstScheduled(reg, fetch, qs[1..], j - 1, i)
  {
    assert forall p :: 0 <= p < j - 1 ==> qs[1..][p] == qs[p + 1];
  }

  /** The first query's first kept event with a key not seen before is filed
      and stays filed through the rest of the schedule. */
  lemma ScanQueriesFirstHead(reg: Registry, fetch: (string, nat) -> Option<ScoreboardBody>, qs: seq<Query>, b: Buckets, i: nat)
    requires FirstScheduled(reg, fetch, qs, 0, i) && CleanThrough(reg, Response(fetch, qs[0]), i)
    requires KeyOf(Response(fetch, qs[0])[i]) !in b.seen
    ensures Entry(KeyOf(Response(fetch, qs[0])[i]), MakeGame(Response(fetch, qs[0])[i], Inspect(Response(fetch, qs[0])[i]).value.value).value) in
              Bucket(ScanQueries(reg, fetch, qs, b), WindowOf(qs[0].offset))
  {
    var q := qs[0];
    var b1 := EventsRun(reg, q.offset, Response(fetch, q), b).b;
    assert ScanQueries(reg, fetch, qs, b) == ScanQueries(reg, fetch, qs[1..], b1);
    var ev := Response(fetch, q)[i];
    EventsRunFirstIn(reg, q.offset, Response(fetch, q), b, i, ev);
    ScanQueriesKeeps(reg, fetch, qs[1..], b1, WindowOf(q.offset), Entry(KeyOf(ev), MakeGame(ev, Inspect(ev).value.value).value));
  }

  /** The first kept event of the schedule with a key not seen before is
      filed, with its own record, in the bucket of its query's offset,
      provided nothing before it in its own response throws. */
  lemma {:induction false} ScanQueriesFirstIn(reg: Registry, fetch: (string, nat) -> Option<ScoreboardBody>, qs: seq<Query>,
                                              b: Buckets, j: nat, i: nat, ev: Event)
    requires FirstScheduled(reg, fetch, qs, j, i) && CleanThrough(reg, Response(fetch, qs[j]), i)
    requires ev == Response(fetch, qs[j])[i] && KeyOf(ev) !in b.seen
    ensures Entry(KeyOf(ev), MakeGame(ev, Inspect(ev).value.value).value) in
              Bucket(ScanQueries(reg, fetch, qs, b), WindowOf(qs[j].offset))
  {
    if j == 0 {
      ScanQueriesFirstHead(reg, fetch, qs, b, i);
    } else {
      var q := qs[0];
      var b1 := EventsRun(reg, q.offset, Response(fetch, q), b).b;
      assert ScanQueries(reg, fetch, qs, b) == ScanQueries(reg, fetch, qs[1..], b1);
      FirstScheduledTail(reg, fetch, qs, j, i);
      EventsRunUnkeyed(reg, q.offset, Response(fetch, q), b, KeyOf(ev));
      ScanQueriesFirstIn(reg, fetch, qs[1..], b1, j - 1, i, ev);
    }
  }

  /** Only the first-seen instance is kept: the first kept event of the
      schedule with a key not seen before is filed, with its own record,
      exactly once in the bucket of its query's offset, provided nothing
      before it in its own response throws. */
  lemma ScanQueriesFirstBucketed(reg: Registry, fetch: (string, nat) -> Option<ScoreboardBody>, qs: seq<Query>,
                                 b: Buckets, j: nat, i: nat, ev: Event)
    requires Consistent(b)
    requires FirstScheduled(reg, fetch, qs, j, i) && CleanThrough(reg, Response(fetch, qs[j]), i)
    requires ev == Response(fetch, qs[j])[i] && KeyOf(ev) !in b.seen
    ensures Entry(KeyOf(ev), MakeGame(ev, Inspect(ev).value.value).value) in
              Bucket(ScanQueries(reg, fetch, qs, b), WindowOf(qs[j].offset))
    ensures KeyCount(Bucket(ScanQueries(reg, fetch, qs, b), WindowOf(qs[j].offset)), KeyOf(ev)) == 1
  {
    var r := ScanQueries(reg, fetch, qs, b);
    var w := WindowOf(qs[j].offset);
    ScanQueriesFirstIn(reg, fetch, qs, b, j, i, ev);
    var x :| 0 <= x < |Bucket(r, w)| && Bucket(r, w)[x] == Entry(KeyOf(ev), MakeGame(ev, Inspect(ev).value.value).value);
    assert Bucket(r, w)[x].key == KeyOf(ev);
    BucketedOnce(r, w, KeyOf(ev));
  }
}
