/** `main` of the newer script: build the registry, run the scoreboard phase
    over every competition and day offset, merge the national-team games on
    the same seen-key set, then sort both buckets by start date. */
module Pipeline {
  import opened Js
  import opened Names
  import opened Espn
  import opened Registry
  import opened Fixtures
  import opened Scoreboard
  import opened National
  import opened Ordering

  /** The static tables of the script. */
  datatype Config = Config(
    leagues: seq<string>,
    fallbackTeams: seq<string>,
    popularTeams: seq<string>,
    nationalTeams: seq<TrackedTeam>)

  /** Everything a run reads from the outside world: the roster fetch, one
      scoreboard per (slug, day offset), the team-events list of a team id
      for the window, the detail of an event reference, and the whole-day
      difference between a start date and today (None when it does not parse). */
  datatype Feeds = Feeds(
    roster: RosterResponse,
    scoreboard: (string, nat) -> Option<ScoreboardBody>,
    teamEvents: int -> Option<seq<string>>,
    detail: string -> Option<Event>,
    dayDiff: string -> Option<int>)

  /** The content of `games.json`. */
  datatype Output = Output(today: seq<Game>, future: seq<Game>)

  function RegistryOf(cfg: Config, feeds: Feeds): Registry {
    Build(FetchSerieATeams(feeds.roster), cfg.fallbackTeams, cfg.popularTeams)
  }

  /** The scoreboard phase, from empty buckets. */
  function ScoreboardPhase(cfg: Config, feeds: Feeds): (r: Buckets)
    ensures Consistent(r)
  {
    ConsistentEmpty();
    ScanQueries(RegistryOf(cfg, feeds), feeds.scoreboard, Schedule(cfg.leagues), Empty)
  }

  /** Both phases: the buckets before sorting. */
  function Collect(cfg: Config, feeds: Feeds): (r: Buckets)
    ensures Consistent(r)
    // the national phase only appends to what the scoreboard phase bucketed
    ensures ScoreboardPhase(cfg, feeds).today <= r.today && ScoreboardPhase(cfg, feeds).future <= r.future
    ensures r.seen == ScoreboardPhase(cfg, feeds).seen +
                      KeysOfGames(FetchNationalTeamEvents(cfg.nationalTeams, feeds.teamEvents, feeds.detail))
  {
    Merge(FetchNationalTeamEvents(cfg.nationalTeams, feeds.teamEvents, feeds.detail), feeds.dayDiff,
          ScoreboardPhase(cfg, feeds))
  }

  /** The two `sort` calls: each bucket ordered by start date, as a
      permutation of itself, with the seen set and the dedupe guarantee kept. */
  function Arrange(b: Buckets): (r: Buckets)
    ensures Sorted(r.today) && Sorted(r.future)
    ensures multiset(r.today) == multiset(b.today) && multiset(r.future) == multiset(b.future)
    ensures r.seen == b.seen
    ensures Consistent(b) ==> Consistent(r)
  {
    var r := Buckets(b.seen, SortByStart(b.today), SortByStart(b.future));
    SortSorted(b.today);
    SortSorted(b.future);
    SortedConsistent(b, r);
    r
  }

  lemma SortedConsistent(b: Buckets, r: Buckets)
    requires r == Buckets(b.seen, SortByStart(b.today), SortByStart(b.future))
    ensures Consistent(b) ==> Consistent(r)
  {
    if Consistent(b) {
      SortKeepsAtMostOnce(b.today, b.future);
      SeenKept(b.today, r.today, b.seen);
      SeenKept(b.future, r.future, b.seen);
    }
  }

  lemma SeenKept(s: seq<Entry>, t: seq<Entry>, seen: set<string>)
    requires multiset(t) == multiset(s)
    requires forall i :: 0 <= i < |s| ==> s[i].key in seen
    ensures forall i :: 0 <= i < |t| ==> t[i].key in seen
  {
    forall i | 0 <= i < |t| ensures t[i].key in seen {
      assert t[i] in multiset(s);
    }
  }

  /** A whole run: both buckets of `games.json` sorted by start date, each a
      permutation of the games collected for it. */
  function Main(cfg: Config, feeds: Feeds): (out: Output)
    ensures GamesSorted(out.today) && GamesSorted(out.future)
    ensures multiset(out.today) == multiset(Games(Collect(cfg, feeds).today))
    ensures multiset(out.future) == multiset(Games(Collect(cfg, feeds).future))
  {
    var b := Collect(cfg, feeds);
    var r := Arrange(b);
    SortGames(b.today);
    SortGames(b.future);
    Output(Games(r.today), Games(r.future))
  }

  /** A written bucket holds the game of every entry collected for it. */
  lemma MainHolds(cfg: Config, feeds: Feeds, w: Window, e: Entry)
    requires e in Bucket(Collect(cfg, feeds), w)
    ensures e.game in (if w == Today then Main(cfg, feeds).today else Main(cfg, feeds).future)
  {
    var s := Bucket(Collect(cfg, feeds), w);
    var i :| 0 <= i < |s| && s[i] == e;
    assert Games(s)[i] == e.game;
    assert e.game in multiset(Games(s));
  }

  /** A key collected in a bucket is written: the game of its entry is in that bucket of the file. */
  lemma WrittenWithKey(cfg: Config, feeds: Feeds, w: Window, k: string)
    requires HasKey(Bucket(Collect(cfg, feeds), w), k)
    ensures exists e :: e in Bucket(Collect(cfg, feeds), w) && e.key == k &&
              e.game in (if w == Today then Main(cfg, feeds).today else Main(cfg, feeds).future)
  {
    var s := Bucket(Collect(cfg, feeds), w);
    var i :| 0 <= i < |s| && s[i].key == k;
    MainHolds(cfg, feeds, w, s[i]);
  }

  /** When no scoreboard event throws, every kept event of every response is
      written: some collected entry carries its key, and that entry's game
      is in the file. */
  lemma MainKeepsScoreboardGames(cfg: Config, feeds: Feeds, q: Query, ev: Event)
    requires AllClean(RegistryOf(cfg, feeds), feeds.scoreboard, Schedule(cfg.leagues))
    requires q in Schedule(cfg.leagues) && ev in Response(feeds.scoreboard, q) && Kept(RegistryOf(cfg, feeds), ev)
    ensures exists w, e :: e in Bucket(Collect(cfg, feeds), w) && e.key == KeyOf(ev) &&
              e.game in (if w == Today then Main(cfg, feeds).today else Main(cfg, feeds).future)
  {
    var sb := ScoreboardPhase(cfg, feeds);
    var c := Collect(cfg, feeds);
    var k := KeyOf(ev);
    ScanQueriesFiles(RegistryOf(cfg, feeds), feeds.scoreboard, Schedule(cfg.leagues), Empty, q, ev);
    var w := if HasKey(sb.today, k) then Today else Future;
    HasKeyPrefix(Bucket(sb, w), Bucket(c, w), k);
    WrittenWithKey(cfg, feeds, w, k);
  }

  /** Only the first-seen scoreboard instance is written: the first kept event
      of the request schedule with its key, when nothing before it in its own
      response throws, has its own record written in the bucket its offset
      selects. */
  lemma MainKeepsFirstScoreboardGame(cfg: Config, feeds: Feeds, j: nat, i: nat, ev: Event)
    requires FirstScheduled(RegistryOf(cfg, feeds), feeds.scoreboard, Schedule(cfg.leagues), j, i)
    requires CleanThrough(RegistryOf(cfg, feeds), Response(feeds.scoreboard, Schedule(cfg.leagues)[j]), i)
    requires ev == Response(feeds.scoreboard, Schedule(cfg.leagues)[j])[i]
    ensures MakeGame(ev, Inspect(ev).value.value).value in
              (if Schedule(cfg.leagues)[j].offset == 0 then Main(cfg, feeds).today else Main(cfg, feeds).future)
  {
    var qs := Schedule(cfg.leagues);
    ScanQueriesFirstIn(RegistryOf(cfg, feeds), feeds.scoreboard, qs, Empty, j, i, ev);
    ScoreboardEntryWritten(cfg, feeds, WindowOf(qs[j].offset), Entry(KeyOf(ev), MakeGame(ev, Inspect(ev).value.value).value));
  }

  /** An entry the scoreboard phase files survives the national phase and is written. */
  lemma ScoreboardEntryWritten(cfg: Config, feeds: Feeds, w: Window, e: Entry)
    requires e in Bucket(ScoreboardPhase(cfg, feeds), w)
    ensures e.game in (if w == Today then Main(cfg, feeds).today else Main(cfg, feeds).future)
  {
    EntryPrefix(Bucket(ScoreboardPhase(cfg, feeds), w), Bucket(Collect(cfg, feeds), w), e);
    MainHolds(cfg, feeds, w, e);
  }

  /** Every national game that is the first with its key, whose key the
      scoreboard phase did not see and whose day difference selects a
      bucket, is written in that bucket. */
  lemma MainKeepsNationalGames(cfg: Config, feeds: Feeds, i: nat)
    requires var games := FetchNationalTeamEvents(cfg.nationalTeams, feeds.teamEvents, feeds.detail);
             && i < |games| && FirstWithKey(games, i)
             && NationalKey(games[i]) !in ScoreboardPhase(cfg, feeds).seen
             && GameWindow(games[i], feeds.dayDiff).Some?
    ensures var games := FetchNationalTeamEvents(cfg.nationalTeams, feeds.teamEvents, feeds.detail);
            var w := GameWindow(games[i], feeds.dayDiff).value;
            games[i] in (if w == Today then Main(cfg, feeds).today else Main(cfg, feeds).future)
  {
    var games := FetchNationalTeamEvents(cfg.nationalTeams, feeds.teamEvents, feeds.detail);
    var w := GameWindow(games[i], feeds.dayDiff).value;
    MergeFirstKeyIn(games, feeds.dayDiff, ScoreboardPhase(cfg, feeds), i);
    MainHolds(cfg, feeds, w, Entry(NationalKey(games[i]), games[i]));
  }

  /** A fixture as both endpoints serve it: the competition with an explicit
      home and an explicit away entry, no logos and no broadcasts. */
  function Fixture(id: Option<string>, d: string, home: string, away: string): Event {
    var h := Competitor(Some("home"), Some(Team(Some(home), None, None)));
    var a := Competitor(Some("away"), Some(Team(Some(away), None, None)));
    Event(id, Some(d), Some([Competition(Some(d), Some([h, a]), None)]), None, None)
  }

  /** The scoreboard phase buckets a kept fixture today, under its raw names. */
  lemma FixtureOnScoreboard(id: Option<string>, d: string, home: string, away: string, reg: Registry)
    requires Keeps(reg, home, away)
    ensures var ev := Fixture(id, d, home, away);
            var r := EventStep(reg, 0, ev, Empty);
            && r.Continue?
            && r.b.future == []
            && |r.b.today| == 1
            && r.b.today == [Entry(ScoreboardKey(ev, home, away), r.b.today[0].game)]
            && r.b.today[0].game.startDate == Some(d)
            && r.b.today[0].game.home == home && r.b.today[0].game.away == away
  {
    var ev := Fixture(id, d, home, away);
    var comp := FirstCompetition(ev).value;
    var cs := CompetitorsOf(comp);
    assert FindTagged(cs, "home") == Some(0);
    assert FindTagged(cs, "away") == Some(1);
    var c := Candidate(comp, cs[0].team.value, cs[1].team.value);
    assert Inspect(ev) == Value(Some(c));
    var sk := ScoreboardKey(ev, home, away);
    assert EventStep(reg, 0, ev, Empty) == Continue(Push(Claim(Empty, sk), Today, Entry(sk, MakeGame(ev, c).value)));
  }

  /** The national path returns the fixture with a tracked home side
      translated and an untracked away side unchanged. */
  lemma FixtureOnNationalPath(id: Option<string>, d: string, home: string, away: string, nid: int, pt: string)
    requires ToLower(home) != ToLower(away)
    ensures var ng := Extract([TrackedTeam(nid, home, pt)], Fixture(id, d, home, away));
            ng.Some? && ng.value.startDate == Some(d) && ng.value.home == pt && ng.value.away == away
  {
    var ev := Fixture(id, d, home, away);
    var cs := CompetitorsOf(FirstCompetition(ev).value);
    assert FindTagged(cs, "home") == Some(0);
    assert FindTagged(cs, "away") == Some(1);
    assert SelectSides(cs) == Some(Sides(cs[0], cs[1]));
    assert Translate([TrackedTeam(nid, home, pt)], home) == pt;
    assert FindTeam([TrackedTeam(nid, home, pt)], away) == None;
  }

  /** A national game whose key is not seen and whose day difference is 0
      is appended to `today`. */
  lemma FreshNationalToday(g: Game, dayDiff: string -> Option<int>, b: Buckets)
    requires NationalKey(g) !in b.seen && GameWindow(g, dayDiff) == Some(Today)
    ensures Merge([g], dayDiff, b).today == b.today + [Entry(NationalKey(g), g)]
  {
    assert Merge([g], dayDiff, b) == Merge([], dayDiff, MergeOne(g, dayDiff, b));
  }

  /** The two key formats share their tail, so a scoreboard game and a
      national game with the same names collide exactly when their leading
      parts agree: the national start date against the scoreboard's
      `ev.date || ev.id`. */
  lemma KeysAgree(ev: Event, g: Game)
    ensures NationalKey(g) == ScoreboardKey(ev, g.home, g.away) <==>
              Interpolate(g.startDate) == Interpolate(Or(ev.date, ev.id))
  {
    var t := "-" + g.home + "-" + g.away;
    var x := Interpolate(g.startDate);
    var y := Interpolate(Or(ev.date, ev.id));
    assert NationalKey(g) == x + t;
    assert ScoreboardKey(ev, g.home, g.away) == y + t;
    if x + t == y + t {
      assert x == (x + t)[..|x|] && y == (y + t)[..|y|];
    }
  }

  /** A translated home name gives a different key: the two keys share
      their head and their tail, so they differ exactly where the names do. */
  lemma TranslatedKeyDiffers(ev: Event, d: string, home: string, away: string, g: Game)
    requires ev.date == Some(d) && d != ""
    requires g.startDate == Some(d) && g.away == away
    requires g.home != home
    ensures NationalKey(g) != ScoreboardKey(ev, home, away)
  {
    var p := d + "-";
    var t := "-" + away;
    var sk := ScoreboardKey(ev, home, away);
    var nk := NationalKey(g);
    assert sk == p + (home + t);
    assert nk == p + (g.home + t);
    HeadCancels(p, g.home + t, home + t);
    TailCancels(g.home, home, t);
  }

  lemma HeadCancels(p: string, x: string, y: string)
    ensures p + x == p + y ==> x == y
  {
    if p + x == p + y {
      assert x == (p + x)[|p|..] && y == (p + y)[|p|..];
    }
  }

  lemma TailCancels(x: string, y: string, t: string)
    ensures x + t == y + t ==> x == y
  {
    if x + t == y + t {
      assert x == (x + t)[..|x|] && y == (y + t)[..|y|];
    }
  }

  /** The two paths key the same fixture differently: the scoreboard key
      uses the upstream display names, the national key the translated ones.
      So a fixture the scoreboard phase buckets today comes back from the
      national phase, with its home side tracked under another name (Brazil
      as "Brasil"), under a key that is not seen yet, and is bucketed a
      second time. It takes a registry that keeps the fixture. */
  lemma CrossPathDuplicate(id: Option<string>, d: string, home: string, away: string, pt: string, nid: int,
                           reg: Registry, dayDiff: string -> Option<int>)
    requires d != "" && Keeps(reg, home, away) && dayDiff(d) == Some(0)
    requires ToLower(home) != ToLower(away) && pt != home
    ensures var ev := Fixture(id, d, home, away);
            var b := EventStep(reg, 0, ev, Empty).b;
            var ng := Extract([TrackedTeam(nid, home, pt)], ev);
            && EventStep(reg, 0, ev, Empty).Continue?
            && |b.today| == 1 && b.today[0].game.home == home && b.today[0].game.away == away
            && ng.Some? && ng.value.home == pt && ng.value.away == away
            && ng.value.startDate == b.today[0].game.startDate
            && NationalKey(ng.value) != b.today[0].key
            && Merge([ng.value], dayDiff, b).today == b.today + [Entry(NationalKey(ng.value), ng.value)]
  {
    var ev := Fixture(id, d, home, away);
    FixtureOnScoreboard(id, d, home, away, reg);
    FixtureOnNationalPath(id, d, home, away, nid, pt);
    var b := EventStep(reg, 0, ev, Empty).b;
    var ng := Extract([TrackedTeam(nid, home, pt)], ev).value;
    TranslatedKeyDiffers(ev, d, home, away, ng);
    FreshNationalToday(ng, dayDiff, b);
  }

  /** Brazil v Argentina, with "Brasil" as the translation, meets the name
      conditions of the duplicate. */
  lemma BrazilBrasil()
    ensures ToLower("Brazil") != ToLower("Argentina") && "Brasil" != "Brazil"
  {
    assert ToLower("Brazil")[0] == 'b' && ToLower("Argentina")[0] == 'a';
    assert "Brasil"[3] != "Brazil"[3];
  }
}
