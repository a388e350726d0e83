/** The older script, `fetch_games.js`: today's scoreboard of a fixed set of
    competitions, keeping events where any competitor is a Serie A club and
    both an explicit home and an explicit away competitor exist. It has no
    dedupe, no look-ahead, no popular clubs, and no `try` around the event
    loop: a competitor without a team or display name rejects the whole run,
    and no file is written. */
module Legacy {
  import opened Js
  import opened Names
  import opened Espn
  import opened Registry

  /** `{ name, logo }` of a written side. */
  datatype LegacySide = LegacySide(name: string, logo: Option<string>)

  /** One element of the written array. */
  datatype Record = Record(
    league: string,
    slug: string,
    startDate: Option<string>,
    homeTeam: LegacySide,
    awayTeam: LegacySide)

  /** What one event does to the run. */
  datatype Step = Crash | Skip | Emit(rec: Record)

  predicate HasName(c: Competitor) {
    c.team.Some? && c.team.value.displayName.Some?
  }

  predicate AllNamed(cs: seq<Competitor>) {
    forall i :: 0 <= i < |cs| ==> HasName(cs[i])
  }

  function NameOf(c: Competitor): string
    requires HasName(c)
  {
    c.team.value.displayName.value
  }

  /** `competitors.map(c => normalize(c.team.displayName))`, None when it throws. */
  function NormalizedNames(cs: seq<Competitor>): (r: Option<seq<string>>)
    ensures r.Some? <==> AllNamed(cs)
    ensures r.Some? ==> |r.value| == |cs| && forall i :: 0 <= i < |cs| ==> r.value[i] == Normalize(NameOf(cs[i]))
  {
    if cs == [] then Some([])
    else if !HasName(cs[0]) then None
    else
      match NormalizedNames(cs[1..])
      case None =>
        assert !AllNamed(cs[1..]);
        None
      case Some(rest) => Some([Normalize(NameOf(cs[0]))] + rest)
  }

  /** The names compared with the Serie A set are already normal:
      normalizing any of them again changes nothing. */
  lemma NormalizedNamesSettled(cs: seq<Competitor>)
    requires NormalizedNames(cs).Some?
    ensures forall i :: 0 <= i < |cs| ==> Normalize(NormalizedNames(cs).value[i]) == NormalizedNames(cs).value[i]
  {
    forall i | 0 <= i < |cs| ensures Normalize(NormalizedNames(cs).value[i]) == NormalizedNames(cs).value[i] {
      NormalizeIdempotent(NameOf(cs[i]));
    }
  }

  /** Some competitor, on any side, is a Serie A club. */
  ghost predicate AnySerieA(serieA: set<string>, cs: seq<Competitor>)
    requires AllNamed(cs)
  {
    exists i :: 0 <= i < |cs| && Normalize(NameOf(cs[i])) in serieA
  }

  function SideOf(c: Competitor): (s: LegacySide)
    requires HasName(c)
  {
    LegacySide(NameOf(c), c.team.value.logo)
  }

  /** The body of `for (const event of data.events)`. */
  function LegacyEvent(serieA: set<string>, league: string, slug: string, ev: Event): Step {
    match FirstCompetition(ev)
    case None => Skip
    case Some(comp) =>
      var cs := CompetitorsOf(comp);
      match NormalizedNames(cs)
      case None => Crash
      case Some(norm) =>
        if !(exists i :: 0 <= i < |norm| && norm[i] in serieA) then Skip
        else
          match (FindTagged(cs, "home"), FindTagged(cs, "away"))
          case (Some(h), Some(a)) => Emit(Record(league, slug, comp.date, SideOf(cs[h]), SideOf(cs[a])))
          case _ => Skip
  }

  /** What one event does: skipped without a first competition; a throw iff
      a competitor is unnamed; a record iff some competitor, on any side, is
      a Serie A club and both an explicit home and an explicit away entry exist. */
  lemma LegacyEventSpec(serieA: set<string>, league: string, slug: string, ev: Event)
    ensures FirstCompetition(ev).None? ==> LegacyEvent(serieA, league, slug, ev) == Skip
    ensures LegacyEvent(serieA, league, slug, ev).Crash? <==>
              FirstCompetition(ev).Some? && !AllNamed(CompetitorsOf(FirstCompetition(ev).value))
    ensures LegacyEvent(serieA, league, slug, ev).Emit? <==>
              && FirstCompetition(ev).Some?
              && var cs := CompetitorsOf(FirstCompetition(ev).value);
                 && AllNamed(cs) && AnySerieA(serieA, cs)
                 && (exists i :: 0 <= i < |cs| && Tagged(cs[i], "home"))
                 && (exists i :: 0 <= i < |cs| && Tagged(cs[i], "away"))
  {
    match FirstCompetition(ev)
    case None =>
    case Some(comp) =>
      var cs := CompetitorsOf(comp);
      match NormalizedNames(cs)
      case None =>
      case Some(norm) =>
        assert (exists i :: 0 <= i < |norm| && norm[i] in serieA) <==> AnySerieA(serieA, cs);
  }

  /** A written record is built from the first explicit home and away
      entries, their `team.logo`, and the competition's own date. */
  lemma LegacyEventRecord(serieA: set<string>, league: string, slug: string, ev: Event)
    ensures LegacyEvent(serieA, league, slug, ev).Emit? ==> FirstCompetition(ev).Some?
    ensures LegacyEvent(serieA, league, slug, ev).Emit? ==>
            var comp := FirstCompetition(ev).value;
            var cs := CompetitorsOf(comp);
            exists h, a ::
              && IsFirstTagged(cs, "home", h) && IsFirstTagged(cs, "away", a)
              && HasName(h) && HasName(a)
              && LegacyEvent(serieA, league, slug, ev).rec == Record(league, slug, comp.date, SideOf(h), SideOf(a))
  {
    if LegacyEvent(serieA, league, slug, ev).Emit? {
      var comp := FirstCompetition(ev).value;
      var cs := CompetitorsOf(comp);
      var h := FindTagged(cs, "home").value;
      var a := FindTagged(cs, "away").value;
      assert IsFirstTagged(cs, "home", cs[h]) && IsFirstTagged(cs, "away", cs[a]);
    }
  }

  /** Two stretches of the run: the records of both, or the rejection of either. */
  function Combine(a: Option<seq<Record>>, b: Option<seq<Record>>): (r: Option<seq<Record>>)
    ensures r.None? <==> a.None? || b.None?
  {
    if a.Some? && b.Some? then Some(a.value + b.value) else None
  }

  lemma CombineAssociative(a: Option<seq<Record>>, b: Option<seq<Record>>, c: Option<seq<Record>>)
    ensures Combine(a, Combine(b, c)) == Combine(Combine(a, b), c)
  {
    if a.Some? && b.Some? && c.Some? {
      assert a.value + (b.value + c.value) == (a.value + b.value) + c.value;
    }
  }

  lemma CombineEmpty(b: Option<seq<Record>>)
    ensures Combine(Some([]), b) == b
  {
    if b.Some? {
      assert [] + b.value == b.value;
    }
  }

  /** The records one event contributes. */
  function StepRecords(s: Step): Option<seq<Record>> {
    match s
    case Crash => None
    case Skip => Some([])
    case Emit(rec) => Some([rec])
  }

  /** The event loop of one competition; None when an event throws. */
  function LegacyEvents(serieA: set<string>, league: string, slug: string, evs: seq<Event>): (r: Option<seq<Record>>)
    ensures r.Some? ==> |r.value| <= |evs|
  {
    if evs == [] then Some([])
    else Combine(StepRecords(LegacyEvent(serieA, league, slug, evs[0])), LegacyEvents(serieA, league, slug, evs[1..]))
  }

  /** One throwing event rejects the loop, wherever it sits. */
  lemma {:induction false} LegacyEventsCrash(serieA: set<string>, league: string, slug: string, evs: seq<Event>)
    ensures LegacyEvents(serieA, league, slug, evs).None? <==>
              exists i :: 0 <= i < |evs| && LegacyEvent(serieA, league, slug, evs[i]).Crash?
  {
    if evs != [] {
      LegacyEventsCrash(serieA, league, slug, evs[1..]);
      assert forall i :: 1 <= i < |evs| ==> evs[i] == evs[1..][i - 1];
    }
  }

  /** `r` is the record some event of `evs` emits. */
  ghost predicate Emitted(serieA: set<string>, league: string, slug: string, evs: seq<Event>, r: Record) {
    exists e :: e in evs && LegacyEvent(serieA, league, slug, e) == Emit(r)
  }

  /** Every record of the loop is the record of one of its events. */
  lemma {:induction false} LegacyEventsFromEvents(serieA: set<string>, league: string, slug: string, evs: seq<Event>)
    ensures LegacyEvents(serieA, league, slug, evs).Some? ==>
              forall r :: r in LegacyEvents(serieA, league, slug, evs).value ==> Emitted(serieA, league, slug, evs, r)
  {
    if evs != [] && LegacyEvents(serieA, league, slug, evs).Some? {
      var rest := LegacyEvents(serieA, league, slug, evs[1..]);
      var own := StepRecords(LegacyEvent(serieA, league, slug, evs[0]));
      LegacyEventsFromEvents(serieA, league, slug, evs[1..]);
      assert LegacyEvents(serieA, league, slug, evs).value == own.value + rest.value;
      forall r | r in own.value + rest.value ensures Emitted(serieA, league, slug, evs, r) {
        if r in own.value {
          assert evs[0] in evs;
        } else {
          var e :| e in evs[1..] && LegacyEvent(serieA, league, slug, e) == Emit(r);
          assert e in evs;
        }
      }
    }
  }

  /** Nothing an event emits is lost: when the loop is not rejected, the
      record of every emitting event is in it. */
  lemma {:induction false} LegacyEventsComplete(serieA: set<string>, league: string, slug: string, evs: seq<Event>)
    ensures LegacyEvents(serieA, league, slug, evs).Some? ==>
              forall r :: Emitted(serieA, league, slug, evs, r) ==> r in LegacyEvents(serieA, league, slug, evs).value
  {
    if evs != [] && LegacyEvents(serieA, league, slug, evs).Some? {
      var rest := LegacyEvents(serieA, league, slug, evs[1..]);
      var own := StepRecords(LegacyEvent(serieA, league, slug, evs[0]));
      LegacyEventsComplete(serieA, league, slug, evs[1..]);
      assert LegacyEvents(serieA, league, slug, evs).value == own.value + rest.value;
      forall r | Emitted(serieA, league, slug, evs, r) ensures r in own.value + rest.value {
        var e :| e in evs && LegacyEvent(serieA, league, slug, e) == Emit(r);
        if e == evs[0] {
          assert own.value == [r];
        } else {
          assert e in evs[1..];
          assert Emitted(serieA, league, slug, evs[1..], r);
        }
      }
    }
  }

  /** The loop of one competition over a concatenation. */
  lemma {:induction false} LegacyEventsAppend(serieA: set<string>, league: string, slug: string, a: seq<Event>, c: seq<Event>)
    ensures LegacyEvents(serieA, league, slug, a + c) ==
              Combine(LegacyEvents(serieA, league, slug, a), LegacyEvents(serieA, league, slug, c))
  {
    if a == [] {
      assert a + c == c;
      CombineEmpty(LegacyEvents(serieA, league, slug, c));
    } else {
      assert (a + c)[0] == a[0] && (a + c)[1..] == a[1..] + c;
      LegacyEventsAppend(serieA, league, slug, a[1..], c);
      CombineAssociative(StepRecords(LegacyEvent(serieA, league, slug, a[0])),
                         LegacyEvents(serieA, league, slug, a[1..]), LegacyEvents(serieA, league, slug, c));
    }
  }

  /** There is no dedupe: an event list served twice is written twice. */
  lemma NoDedupe(serieA: set<string>, league: string, slug: string, evs: seq<Event>)
    requires LegacyEvents(serieA, league, slug, evs).Some?
    ensures LegacyEvents(serieA, league, slug, evs + evs) ==
              Some(LegacyEvents(serieA, league, slug, evs).value + LegacyEvents(serieA, league, slug, evs).value)
  {
    LegacyEventsAppend(serieA, league, slug, evs, evs);
  }

  /** `data.events` when the request and the body parse succeeded and the
      body has events; None for the `continue` cases. */
  function LegacyEventsOf(resp: Option<ScoreboardBody>): Option<seq<Event>> {
    match resp
    case None => None
    case Some(sb) => sb.events
  }

  /** The records of one `[slug, leagueName]` entry: nothing for the
      `continue` cases, else its event loop. */
  function CompetitionRecords(serieA: set<string>, e: (string, string), fetch: string -> Option<ScoreboardBody>): Option<seq<Record>> {
    match LegacyEventsOf(fetch(e.0))
    case None => Some([])
    case Some(evs) => LegacyEvents(serieA, e.1, e.0, evs)
  }

  /** `fetchGames(dateStr)` over the `[slug, leagueName]` entries; `fetch`
      gives the scoreboard of a slug for the date. None is the rejected run. */
  function FetchGames(serieA: set<string>, entries: seq<(string, string)>, fetch: string -> Option<ScoreboardBody>): Option<seq<Record>> {
    if entries == [] then Some([])
    else Combine(CompetitionRecords(serieA, entries[0], fetch), FetchGames(serieA, entries[1..], fetch))
  }

  /** The run is rejected iff the event loop of some served competition throws. */
  lemma {:induction false} FetchGamesRejected(serieA: set<string>, entries: seq<(string, string)>, fetch: string -> Option<ScoreboardBody>)
    ensures FetchGames(serieA, entries, fetch).None? <==>
              exists i :: 0 <= i < |entries| && LegacyEventsOf(fetch(entries[i].0)).Some? &&
                LegacyEvents(serieA, entries[i].1, entries[i].0, LegacyEventsOf(fetch(entries[i].0)).value).None?
  {
    if entries != [] {
      FetchGamesRejected(serieA, entries[1..], fetch);
      assert forall i :: 1 <= i < |entries| ==> entries[i] == entries[1..][i - 1];
    }
  }

  /** `r` is the record an event of a served competition emits. */
  ghost predicate EmittedByEntry(serieA: set<string>, entries: seq<(string, string)>, fetch: string -> Option<ScoreboardBody>,
                                 r: Record) {
    exists i :: 0 <= i < |entries| && LegacyEventsOf(fetch(entries[i].0)).Some? &&
      Emitted(serieA, entries[i].1, entries[i].0, LegacyEventsOf(fetch(entries[i].0)).value, r)
  }

  /** Every written record is the record of an event of a served competition. */
  lemma {:induction false} FetchGamesFromEvents(serieA: set<string>, entries: seq<(string, string)>,
                                                fetch: string -> Option<ScoreboardBody>)
    ensures FetchGames(serieA, entries, fetch).Some? ==>
              forall r :: r in FetchGames(serieA, entries, fetch).value ==> EmittedByEntry(serieA, entries, fetch, r)
  {
    if entries != [] && FetchGames(serieA, entries, fetch).Some? {
      var own := CompetitionRecords(serieA, entries[0], fetch);
      var rest := FetchGames(serieA, entries[1..], fetch);
      FetchGamesFromEvents(serieA, entries[1..], fetch);
      var evs := LegacyEventsOf(fetch(entries[0].0));
      if evs.Some? {
        LegacyEventsFromEvents(serieA, entries[0].1, entries[0].0, evs.value);
      }
      assert FetchGames(serieA, entries, fetch).value == own.value + rest.value;
      forall r | r in own.value + rest.value ensures EmittedByEntry(serieA, entries, fetch, r) {
        if r in own.value {
          assert evs.Some?;
          assert 0 < |entries|;
        } else {
          var i :| 0 <= i < |entries[1..]| && LegacyEventsOf(fetch(entries[1..][i].0)).Some? &&
            Emitted(serieA, entries[1..][i].1, entries[1..][i].0, LegacyEventsOf(fetch(entries[1..][i].0)).value, r);
          assert entries[1..][i] == entries[i + 1];
        }
      }
    }
  }

  /** Nothing a served competition emits is lost: when the run is not
      rejected, the record of every emitting event of every served
      competition is written. */
  lemma {:induction false} FetchGamesComplete(serieA: set<string>, entries: seq<(string, string)>,
                                              fetch: string -> Option<ScoreboardBody>)
    ensures FetchGames(serieA, entries, fetch).Some? ==>
              forall r :: EmittedByEntry(serieA, entries, fetch, r) ==> r in FetchGames(serieA, entries, fetch).value
  {
    if entries != [] && FetchGames(serieA, entries, fetch).Some? {
      var own := CompetitionRecords(serieA, entries[0], fetch);
      var rest := FetchGames(serieA, entries[1..], fetch);
      FetchGamesComplete(serieA, entries[1..], fetch);
      var evs := LegacyEventsOf(fetch(entries[0].0));
      if evs.Some? {
        LegacyEventsComplete(serieA, entries[0].1, entries[0].0, evs.value);
      }
      assert FetchGames(serieA, entries, fetch).value == own.value + rest.value;
      forall r | EmittedByEntry(serieA, entries, fetch, r) ensures r in own.value + rest.value {
        var i :| 0 <= i < |entries| && LegacyEventsOf(fetch(entries[i].0)).Some? &&
          Emitted(serieA, entries[i].1, entries[i].0, LegacyEventsOf(fetch(entries[i].0)).value, r);
        if i > 0 {
          assert entries[1..][i - 1] == entries[i];
          assert EmittedByEntry(serieA, entries[1..], fetch, r);
        }
      }
    }
  }

  /** One competitor without a display name, in any served competition,
      rejects the whole run: nothing at all is written. */
  lemma CrashRejectsRun(serieA: set<string>, entries: seq<(string, string)>, fetch: string -> Option<ScoreboardBody>,
                        i: nat, j: nat)
    requires i < |entries| && LegacyEventsOf(fetch(entries[i].0)).Some?
    requires j < |LegacyEventsOf(fetch(entries[i].0)).value|
    requires LegacyEvent(serieA, entries[i].1, entries[i].0, LegacyEventsOf(fetch(entries[i].0)).value[j]).Crash?
    ensures FetchGames(serieA, entries, fetch).None?
  {
    LegacyEventsCrash(serieA, entries[i].1, entries[i].0, LegacyEventsOf(fetch(entries[i].0)).value);
    FetchGamesRejected(serieA, entries, fetch);
  }

  /** The run over a concatenation of competitions. */
  lemma {:induction false} FetchGamesAppend(serieA: set<string>, a: seq<(string, string)>, c: seq<(string, string)>,
                                            fetch: string -> Option<ScoreboardBody>)
    ensures FetchGames(serieA, a + c, fetch) == Combine(FetchGames(serieA, a, fetch), FetchGames(serieA, c, fetch))
  {
    if a == [] {
      assert a + c == c;
      CombineEmpty(FetchGames(serieA, c, fetch));
    } else {
      assert (a + c)[0] == a[0] && (a + c)[1..] == a[1..] + c;
      FetchGamesAppend(serieA, a[1..], c, fetch);
      CombineAssociative(CompetitionRecords(serieA, a[0], fetch), FetchGames(serieA, a[1..], fetch), FetchGames(serieA, c, fetch));
    }
  }

  /** A competition whose response has no `events` contributes nothing:
      the run is the run without it. */
  lemma SilentCompetitionIgnored(serieA: set<string>, entries: seq<(string, string)>, fetch: string -> Option<ScoreboardBody>, i: nat)
    requires i < |entries| && LegacyEventsOf(fetch(entries[i].0)).None?
    ensures FetchGames(serieA, entries, fetch) == FetchGames(serieA, entries[..i] + entries[i + 1..], fetch)
  {
    assert entries == entries[..i] + ([entries[i]] + entries[i + 1..]);
    FetchGamesAppend(serieA, entries[..i], [entries[i]] + entries[i + 1..], fetch);
    FetchGamesAppend(serieA, entries[..i], entries[i + 1..], fetch);
    assert ([entries[i]] + entries[i + 1..])[1..] == entries[i + 1..];
    CombineEmpty(FetchGames(serieA, entries[i + 1..], fetch));
  }

  /** The run of the script: the static Serie A list, normalized. */
  function Run(serieATeams: seq<string>, entries: seq<(string, string)>, fetch: string -> Option<ScoreboardBody>): Option<seq<Record>> {
    FetchGames(NormalizedSet(serieATeams), entries, fetch)
  }

  /** An event with a first competition whose competitors are all named and
      one of which matches a listed Serie A club after normalization. */
  ghost predicate SerieAFixture(serieATeams: seq<string>, e: Event) {
    && FirstCompetition(e).Some?
    && var cs := CompetitorsOf(FirstCompetition(e).value);
       && AllNamed(cs)
       && exists k :: 0 <= k < |cs| && Matches(serieATeams, NameOf(cs[k]))
  }

  /** An emitted event is a Serie A fixture. */
  lemma EmitIsSerieA(serieATeams: seq<string>, league: string, slug: string, e: Event)
    requires LegacyEvent(NormalizedSet(serieATeams), league, slug, e).Emit?
    ensures SerieAFixture(serieATeams, e)
  {
    LegacyEventSpec(NormalizedSet(serieATeams), league, slug, e);
    var cs := CompetitorsOf(FirstCompetition(e).value);
    var k :| 0 <= k < |cs| && Normalize(NameOf(cs[k])) in NormalizedSet(serieATeams);
    var n :| n in serieATeams && Normalize(n) == Normalize(NameOf(cs[k]));
    assert Matches(serieATeams, NameOf(cs[k]));
  }

  /** Only Serie A fixtures are written: every record of a run is emitted by
      an event of a served competition one of whose competitors is a listed
      Serie A club. */
  lemma RunOnlySerieA(serieATeams: seq<string>, entries: seq<(string, string)>, fetch: string -> Option<ScoreboardBody>)
    ensures Run(serieATeams, entries, fetch).Some? ==>
              forall r :: r in Run(serieATeams, entries, fetch).value ==>
                exists i, e :: 0 <= i < |entries| && LegacyEventsOf(fetch(entries[i].0)).Some? &&
                  e in LegacyEventsOf(fetch(entries[i].0)).value &&
                  LegacyEvent(NormalizedSet(serieATeams), entries[i].1, entries[i].0, e) == Emit(r) &&
                  SerieAFixture(serieATeams, e)
  {
    var serieA := NormalizedSet(serieATeams);
    FetchGamesFromEvents(serieA, entries, fetch);
    if Run(serieATeams, entries, fetch).Some? {
      forall r | r in Run(serieATeams, entries, fetch).value
        ensures exists i, e :: 0 <= i < |entries| && LegacyEventsOf(fetch(entries[i].0)).Some? &&
                  e in LegacyEventsOf(fetch(entries[i].0)).value &&
                  LegacyEvent(serieA, entries[i].1, entries[i].0, e) == Emit(r) &&
                  SerieAFixture(serieATeams, e)
      {
        var i :| 0 <= i < |entries| && LegacyEventsOf(fetch(entries[i].0)).Some? &&
          Emitted(serieA, entries[i].1, entries[i].0, LegacyEventsOf(fetch(entries[i].0)).value, r);
        var e :| e in LegacyEventsOf(fetch(entries[i].0)).value && LegacyEvent(serieA, entries[i].1, entries[i].0, e) == Emit(r);
        EmitIsSerieA(serieATeams, entries[i].1, entries[i].0, e);
      }
    }
  }

  /** Both an explicit 'home' and an explicit 'away' entry exist. */
  predicate ExplicitSides(cs: seq<Competitor>) {
    (exists i :: 0 <= i < |cs| && Tagged(cs[i], "home")) && (exists i :: 0 <= i < |cs| && Tagged(cs[i], "away"))
  }

  /** Every Serie A fixture with explicit sides is emitted. */
  lemma SerieAIsEmitted(serieATeams: seq<string>, league: string, slug: string, e: Event)
    requires SerieAFixture(serieATeams, e) && ExplicitSides(CompetitorsOf(FirstCompetition(e).value))
    ensures LegacyEvent(NormalizedSet(serieATeams), league, slug, e).Emit?
  {
    var cs := CompetitorsOf(FirstCompetition(e).value);
    var k :| 0 <= k < |cs| && Matches(serieATeams, NameOf(cs[k]));
    var n :| n in serieATeams && Normalize(n) == Normalize(NameOf(cs[k]));
    assert Normalize(NameOf(cs[k])) in NormalizedSet(serieATeams);
    assert AnySerieA(NormalizedSet(serieATeams), cs);
    LegacyEventSpec(NormalizedSet(serieATeams), league, slug, e);
  }

  /** Every Serie A fixture with explicit sides of a served competition is
      written, when the run is not rejected: with `Legacy.RunOnlySerieA`,
      the written records are exactly those of such fixtures. */
  lemma RunWritesSerieAFixtures(serieATeams: seq<string>, entries: seq<(string, string)>,
                                fetch: string -> Option<ScoreboardBody>, i: nat, e: Event)
    requires i < |entries| && LegacyEventsOf(fetch(entries[i].0)).Some? && e in LegacyEventsOf(fetch(entries[i].0)).value
    requires SerieAFixture(serieATeams, e) && ExplicitSides(CompetitorsOf(FirstCompetition(e).value))
    ensures LegacyEvent(NormalizedSet(serieATeams), entries[i].1, entries[i].0, e).Emit?
    ensures Run(serieATeams, entries, fetch).Some? ==>
              LegacyEvent(NormalizedSet(serieATeams), entries[i].1, entries[i].0, e).rec in Run(serieATeams, entries, fetch).value
  {
    var serieA := NormalizedSet(serieATeams);
    SerieAIsEmitted(serieATeams, entries[i].1, entries[i].0, e);
    var r := LegacyEvent(serieA, entries[i].1, entries[i].0, e).rec;
    assert Emitted(serieA, entries[i].1, entries[i].0, LegacyEventsOf(fetch(entries[i].0)).value, r);
    assert EmittedByEntry(serieA, entries, fetch, r);
    FetchGamesComplete(serieA, entries, fetch);
  }

  /** Where the two scripts part ways on side selection: for competitors
      [A tagged 'away', B untagged] the newer script picks A for both sides,
      while the older one skips the event, having no 'home' entry. */
  lemma SideSelectionContrast(serieA: set<string>, league: string, slug: string, ev: Event, a: Competitor, b: Competitor)
    requires HasName(a) && HasName(b) && Normalize(NameOf(a)) in serieA
    requires a.homeAway == Some("away") && b.homeAway == None
    requires FirstCompetition(ev).Some? && CompetitorsOf(FirstCompetition(ev).value) == [a, b]
    ensures SelectSides([a, b]) == Some(Sides(a, a))
    ensures LegacyEvent(serieA, league, slug, ev) == Skip
  {
    var cs := [a, b];
    LegacyEventSpec(serieA, league, slug, ev);
    assert !Tagged(cs[0], "home") && !Tagged(cs[1], "home");
    assert Tagged(cs[0], "away");
  }
}
