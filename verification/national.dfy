/** The national-team path of the newer script: `fetchNationalTeamEvents`
    (per tracked team with a known id, the team's events in the window and
    each event's detail), and the loop of `main` that dedupes those games on
    the shared seen-key set and buckets them by their own day difference.
    A failure inside one item's `try` loses only that item. */
module National {
  import opened Js
  import opened Names
  import opened Espn
  import opened Fixtures

  /** An entry of `nationalTeams`: the upstream id (<= 0 for unknown), the
      English name the upstream returns, and the Portuguese name. */
  datatype TrackedTeam = TrackedTeam(id: int, name: string, pt: string)

  /** `nt.name.toLowerCase() === name.toLowerCase()`. */
  predicate NameMatches(t: TrackedTeam, name: string) {
    ToLower(t.name) == ToLower(name)
  }

  /** `nationalTeams.find(...)`, as an index. */
  function FindTeam(teams: seq<TrackedTeam>, name: string): (r: Option<nat>)
    ensures r.None? <==> forall i :: 0 <= i < |teams| ==> !NameMatches(teams[i], name)
    ensures r.Some? ==> r.value < |teams| && NameMatches(teams[r.value], name)
    ensures r.Some? ==> forall j :: 0 <= j < r.value ==> !NameMatches(teams[j], name)
  {
    if teams == [] then None
    else if NameMatches(teams[0], name) then Some(0)
    else match FindTeam(teams[1..], name)
      case None => None
      case Some(i) => Some(i + 1)
  }

  /** The Portuguese name of the first tracked team whose name equals the
      display name case-insensitively; otherwise the display name itself. */
  function Translate(teams: seq<TrackedTeam>, name: string): (r: string)
    ensures (forall i :: 0 <= i < |teams| ==> !NameMatches(teams[i], name)) ==> r == name
    ensures (exists i :: 0 <= i < |teams| && NameMatches(teams[i], name)) ==>
              exists i :: 0 <= i < |teams| && NameMatches(teams[i], name) && r == teams[i].pt &&
                forall j :: 0 <= j < i ==> !NameMatches(teams[j], name)
  {
    match FindTeam(teams, name)
    case None => name
    case Some(i) => teams[i].pt
  }

  /** Translation looks at the lower-cased name only. */
  lemma TranslateIgnoresCase(teams: seq<TrackedTeam>, a: string, b: string)
    requires ToLower(a) == ToLower(b)
    requires exists i :: 0 <= i < |teams| && NameMatches(teams[i], a)
    ensures Translate(teams, a) == Translate(teams, b)
  {
    assert forall i :: 0 <= i < |teams| ==> (NameMatches(teams[i], a) <==> NameMatches(teams[i], b));
  }

  /** `entry.team.displayName || ''`. */
  function RawName(t: Team): string {
    OrElse(t.displayName, "")
  }

  /** The body of the per-item `try` in `fetchNationalTeamEvents`, for an
      event detail that was fetched and parsed. None when the item is
      skipped: no first competition, fewer than two competitors, a missing
      team (`team.displayName` throws) or an empty `logos` array. */
  function Extract(teams: seq<TrackedTeam>, ev: Event): (r: Option<Game>)
    ensures r.Some? ==> FirstCompetition(ev).Some? && SelectSides(CompetitorsOf(FirstCompetition(ev).value)).Some?
    ensures r.Some? ==>
              var comp := FirstCompetition(ev).value;
              var sides := SelectSides(CompetitorsOf(comp)).value;
              && sides.home.team.Some? && sides.away.team.Some?
              && r.value.startDate == ev.date
              && r.value.home == Translate(teams, RawName(sides.home.team.value))
              && r.value.away == Translate(teams, RawName(sides.away.team.value))
              && Value(r.value.homeLogo) == NationalLogo(sides.home.team.value)
              && Value(r.value.awayLogo) == NationalLogo(sides.away.team.value)
              && r.value.competition == CompetitionLabel(ev)
              && r.value.broadcast == BroadcastLabel(comp, ev)
    ensures r.None? <==>
              || FirstCompetition(ev).None?
              || SelectSides(CompetitorsOf(FirstCompetition(ev).value)).None?
              || (var sides := SelectSides(CompetitorsOf(FirstCompetition(ev).value)).value;
                  || sides.home.team.None? || sides.away.team.None?
                  || sides.home.team.value.logos == Some([]) || sides.away.team.value.logos == Some([]))
  {
    match FirstCompetition(ev)
    case None => None
    case Some(comp) =>
      match SelectSides(CompetitorsOf(comp))
      case None => None
      case Some(sides) =>
        if sides.home.team.None? || sides.away.team.None? then None
        else
          var ht := sides.home.team.value;
          var at := sides.away.team.value;
          match (NationalLogo(ht), NationalLogo(at))
          case (Value(hl), Value(al)) =>
            Some(Game(ev.date, Translate(teams, RawName(ht)), Translate(teams, RawName(at)),
                      hl, al, CompetitionLabel(ev), BroadcastLabel(comp, ev)))
          case _ => None
  }

  /** The game of one item reference, or none when the item is skipped. */
  function ItemGames(teams: seq<TrackedTeam>, ref: string, detail: string -> Option<Event>): (r: seq<Game>)
    ensures |r| <= 1
    ensures detail(ref).None? || Extract(teams, detail(ref).value).None? ==> r == []
    ensures detail(ref).Some? && Extract(teams, detail(ref).value).Some? ==> r == [Extract(teams, detail(ref).value).value]
  {
    match detail(ref)
    case None => []
    case Some(ev) =>
      match Extract(teams, ev)
      case None => []
      case Some(g) => [g]
  }

  /** `for (const item of items)`: `detail` is the event-detail request of an
      item reference, None when it failed, was not ok or did not parse. */
  function TeamGames(teams: seq<TrackedTeam>, refs: seq<string>, detail: string -> Option<Event>): (r: seq<Game>)
    ensures |r| <= |refs|
  {
    if refs == [] then []
    else ItemGames(teams, refs[0], detail) + TeamGames(teams, refs[1..], detail)
  }

  lemma {:induction false} TeamGamesAppend(teams: seq<TrackedTeam>, a: seq<string>, c: seq<string>, detail: string -> Option<Event>)
    ensures TeamGames(teams, a + c, detail) == TeamGames(teams, a, detail) + TeamGames(teams, c, detail)
  {
    if a == [] {
      assert a + c == c;
    } else {
      assert (a + c)[0] == a[0] && (a + c)[1..] == a[1..] + c;
      assert TeamGames(teams, a + c, detail) == ItemGames(teams, a[0], detail) + TeamGames(teams, a[1..] + c, detail);
      TeamGamesAppend(teams, a[1..], c, detail);
    }
  }

  /** A bad item is skipped alone: the items around it still contribute. */
  lemma BadItemSkippedAlone(teams: seq<TrackedTeam>, a: seq<string>, x: string, c: seq<string>, detail: string -> Option<Event>)
    requires detail(x).None? || Extract(teams, detail(x).value).None?
    ensures TeamGames(teams, a + [x] + c, detail) == TeamGames(teams, a, detail) + TeamGames(teams, c, detail)
  {
    var l := TeamGames(teams, a, detail);
    TeamGamesAppend(teams, a + [x], c, detail);
    TeamGamesAppend(teams, a, [x], detail);
    BadItemYieldsNothing(teams, x, detail);
    assert l + [] == l;
  }

  lemma BadItemYieldsNothing(teams: seq<TrackedTeam>, x: string, detail: string -> Option<Event>)
    requires detail(x).None? || Extract(teams, detail(x).value).None?
    ensures TeamGames(teams, [x], detail) == []
  {
    assert ItemGames(teams, x, detail) == [];
    assert [x][1..] == [];
  }

  /** `g` is the extracted game of the detail of one of `refs`. */
  ghost predicate FromItem(teams: seq<TrackedTeam>, refs: seq<string>, detail: string -> Option<Event>, g: Game) {
    exists ref :: ref in refs && detail(ref).Some? && Extract(teams, detail(ref).value) == Some(g)
  }

  /** Every game of the item loop is the extraction of one item's detail. */
  lemma {:induction false} TeamGamesFromItems(teams: seq<TrackedTeam>, refs: seq<string>, detail: string -> Option<Event>)
    ensures forall g :: g in TeamGames(teams, refs, detail) ==> FromItem(teams, refs, detail, g)
  {
    if refs != [] {
      var own := ItemGames(teams, refs[0], detail);
      var rest := TeamGames(teams, refs[1..], detail);
      TeamGamesFromItems(teams, refs[1..], detail);
      assert TeamGames(teams, refs, detail) == own + rest;
      forall g | g in own + rest ensures FromItem(teams, refs, detail, g) {
        if g in own {
          assert own == [g] && detail(refs[0]).Some? && Extract(teams, detail(refs[0]).value) == Some(g);
          assert refs[0] in refs;
        } else {
          var ref :| ref in refs[1..] && detail(ref).Some? && Extract(teams, detail(ref).value) == Some(g);
          assert ref in refs;
        }
      }
    }
  }

  /** Every item whose detail was fetched and extracts to a game gives that
      game: the item loop loses no good item. */
  lemma {:induction false} TeamGamesCoversItems(teams: seq<TrackedTeam>, refs: seq<string>, detail: string -> Option<Event>)
    ensures forall g :: FromItem(teams, refs, detail, g) ==> g in TeamGames(teams, refs, detail)
  {
    if refs != [] {
      var own := ItemGames(teams, refs[0], detail);
      var rest := TeamGames(teams, refs[1..], detail);
      TeamGamesCoversItems(teams, refs[1..], detail);
      assert TeamGames(teams, refs, detail) == own + rest;
      forall g | FromItem(teams, refs, detail, g) ensures g in own + rest {
        var ref :| ref in refs && detail(ref).Some? && Extract(teams, detail(ref).value) == Some(g);
        if ref == refs[0] {
          assert own == [g];
        } else {
          assert ref in refs[1..];
          assert FromItem(teams, refs[1..], detail, g);
        }
      }
    }
  }

  /** `g` comes from an item of a queried team: one with a known id whose
      team-events request succeeded. */
  ghost predicate FromTeam(teams: seq<TrackedTeam>, queue: seq<TrackedTeam>, teamEvents: int -> Option<seq<string>>,
                           detail: string -> Option<Event>, g: Game) {
    exists t :: t in queue && t.id > 0 && teamEvents(t.id).Some? && FromItem(teams, teamEvents(t.id).value, detail, g)
  }

  /** `fetchNationalTeamEvents` over the teams still to visit; `teams` is the
      whole table, used for translation. `teamEvents` is the team-events
      request of an id, None when it failed, was not ok or did not parse. */
  function TeamsGames(teams: seq<TrackedTeam>, queue: seq<TrackedTeam>, teamEvents: int -> Option<seq<string>>,
                      detail: string -> Option<Event>): seq<Game>
  {
    if queue == [] then []
    else
      var rest := TeamsGames(teams, queue[1..], teamEvents, detail);
      if queue[0].id <= 0 then rest
      else
        match teamEvents(queue[0].id)
        case None => rest
        case Some(refs) => TeamGames(teams, refs, detail) + rest
  }

  /** Every game of the team loop comes from an item of a queried team. */
  lemma {:induction false} TeamsGamesFromTeams(teams: seq<TrackedTeam>, queue: seq<TrackedTeam>,
                                               teamEvents: int -> Option<seq<string>>, detail: string -> Option<Event>)
    ensures forall g :: g in TeamsGames(teams, queue, teamEvents, detail) ==> FromTeam(teams, queue, teamEvents, detail, g)
  {
    if queue != [] {
      TeamsGamesFromTeams(teams, queue[1..], teamEvents, detail);
      var t := queue[0];
      var rest := TeamsGames(teams, queue[1..], teamEvents, detail);
      var own := if t.id > 0 && teamEvents(t.id).Some? then TeamGames(teams, teamEvents(t.id).value, detail) else [];
      assert TeamsGames(teams, queue, teamEvents, detail) == own + rest;
      if t.id > 0 && teamEvents(t.id).Some? {
        TeamGamesFromItems(teams, teamEvents(t.id).value, detail);
      }
      forall g | g in own + rest ensures FromTeam(teams, queue, teamEvents, detail, g) {
        if g in own {
          assert t in queue;
        } else {
          var u :| u in queue[1..] && u.id > 0 && teamEvents(u.id).Some? && FromItem(teams, teamEvents(u.id).value, detail, g);
          assert u in queue;
        }
      }
    }
  }

  /** Every good item of a queried team gives its game: the team loop loses
      no team with a known id whose team-events request succeeded. */
  lemma {:induction false} TeamsGamesCoversTeams(teams: seq<TrackedTeam>, queue: seq<TrackedTeam>,
                                                 teamEvents: int -> Option<seq<string>>, detail: string -> Option<Event>)
    ensures forall g :: FromTeam(teams, queue, teamEvents, detail, g) ==> g in TeamsGames(teams, queue, teamEvents, detail)
  {
    if queue != [] {
      TeamsGamesCoversTeams(teams, queue[1..], teamEvents, detail);
      var t := queue[0];
      var rest := TeamsGames(teams, queue[1..], teamEvents, detail);
      var own := if t.id > 0 && teamEvents(t.id).Some? then TeamGames(teams, teamEvents(t.id).value, detail) else [];
      assert TeamsGames(teams, queue, teamEvents, detail) == own + rest;
      forall g | FromTeam(teams, queue, teamEvents, detail, g) ensures g in own + rest {
        var u :| u in queue && u.id > 0 && teamEvents(u.id).Some? && FromItem(teams, teamEvents(u.id).value, detail, g);
        if u == t {
          TeamGamesCoversItems(teams, teamEvents(t.id).value, detail);
        } else {
          assert u in queue[1..];
          assert FromTeam(teams, queue[1..], teamEvents, detail, g);
        }
      }
    }
  }

  /** The national games of one run: exactly the extracted games of the
      items listed for the tracked teams with a known id. */
  function FetchNationalTeamEvents(teams: seq<TrackedTeam>, teamEvents: int -> Option<seq<string>>,
                                   detail: string -> Option<Event>): (r: seq<Game>)
    ensures forall g :: g in r <==> FromTeam(teams, teams, teamEvents, detail, g)
  {
    TeamsGamesFromTeams(teams, teams, teamEvents, detail);
    TeamsGamesCoversTeams(teams, teams, teamEvents, detail);
    TeamsGames(teams, teams, teamEvents, detail)
  }

  /** Teams with an id <= 0 are never queried: the answers the team-events
      endpoint would give for such ids cannot change the result. */
  lemma {:induction false} UnknownIdsNeverQueried(teams: seq<TrackedTeam>, queue: seq<TrackedTeam>,
                                                  f: int -> Option<seq<string>>, g: int -> Option<seq<string>>,
                                                  detail: string -> Option<Event>)
    requires forall id :: id > 0 ==> f(id) == g(id)
    ensures TeamsGames(teams, queue, f, detail) == TeamsGames(teams, queue, g, detail)
  {
    if queue != [] {
      UnknownIdsNeverQueried(teams, queue[1..], f, g, detail);
    }
  }

  /** The bucket of a national game from its day difference to today (None
      when the date does not parse, which makes the difference NaN). */
  function Classify(diff: Option<int>): (r: Option<Window>)
    ensures r == Some(Today) <==> diff == Some(0)
    ensures r == Some(Future) <==> diff.Some? && 0 < diff.value <= DaysAhead
  {
    match diff
    case None => None
    case Some(d) =>
      if d == 0 then Some(Today)
      else if 0 < d <= DaysAhead then Some(Future)
      else None
  }

  /** The bucket of a national game. `dayDiff` is the whole-day difference
      between a parsed start date and today, None when the date does not
      parse; a missing start date gives `new Date(undefined)`, an invalid
      date, so such a game is never bucketed. */
  function GameWindow(g: Game, dayDiff: string -> Option<int>): (r: Option<Window>)
    ensures g.startDate.None? ==> r.None?
    ensures g.startDate.Some? ==> r == Classify(dayDiff(g.startDate.value))
  {
    match g.startDate
    case None => None
    case Some(d) => Classify(dayDiff(d))
  }

  /** `${g.startDate}-${g.home}-${g.away}`: built from the translated names. */
  function NationalKey(g: Game): string {
    Interpolate(g.startDate) + "-" + g.home + "-" + g.away
  }

  function KeysOfGames(games: seq<Game>): set<string> {
    set g | g in games :: NationalKey(g)
  }

  /** One iteration of the loop over the national games in `main`. */
  function MergeOne(g: Game, dayDiff: string -> Option<int>, b: Buckets): (r: Buckets)
    ensures Consistent(b) ==> Consistent(r)
    // the key is consumed even when the window drops the game
    ensures r.seen == b.seen + {NationalKey(g)}
    // a seen key, or a game outside the window or without a start date, leaves both buckets alone
    ensures NationalKey(g) in b.seen || GameWindow(g, dayDiff).None? ==> r.today == b.today && r.future == b.future
    // otherwise the game is appended under its key to the bucket its day difference selects
    ensures NationalKey(g) !in b.seen && GameWindow(g, dayDiff) == Some(Today) ==>
              r.today == b.today + [Entry(NationalKey(g), g)] && r.future == b.future
    ensures NationalKey(g) !in b.seen && GameWindow(g, dayDiff) == Some(Future) ==>
              r.future == b.future + [Entry(NationalKey(g), g)] && r.today == b.today
  {
    var key := NationalKey(g);
    if key in b.seen then b
    else
      match GameWindow(g, dayDiff)
      case None =>
        ClaimConsistent(b, key);
        Claim(b, key)
      case Some(w) =>
        AdmitConsistent(b, w, Entry(key, g));
        Push(Claim(b, key), w, Entry(key, g))
  }

  /** An entry of the national loop: its key is the national key of its
      game, the game is one of `games`, and its day difference selects `w`. */
  ghost predicate Admitted(e: Entry, games: seq<Game>, dayDiff: string -> Option<int>, w: Window) {
    e.key == NationalKey(e.game) && e.game in games && GameWindow(e.game, dayDiff) == Some(w)
  }

  /** The entries appended over two consecutive stretches of the loop. */
  lemma AppendedAdmitted(s0: seq<Entry>, s1: seq<Entry>, s2: seq<Entry>, g: Game, games: seq<Game>,
                         dayDiff: string -> Option<int>, w: Window)
    requires games != [] && g == games[0]
    requires s1 == s0 || (s1 == s0 + [Entry(NationalKey(g), g)] && GameWindow(g, dayDiff) == Some(w))
    requires s1 <= s2
    requires forall i :: |s1| <= i < |s2| ==> Admitted(s2[i], games[1..], dayDiff, w)
    ensures s0 <= s2
    ensures forall i :: |s0| <= i < |s2| ==> Admitted(s2[i], games, dayDiff, w)
  {
    forall i | |s0| <= i < |s2| ensures Admitted(s2[i], games, dayDiff, w) {
      if i >= |s1| {
        assert s2[i].game in games[1..];
      } else {
        assert s2[i] == s1[i] == Entry(NationalKey(g), g);
      }
    }
  }

  /** The loop over the national games in `main`. */
  function Merge(games: seq<Game>, dayDiff: string -> Option<int>, b: Buckets): (r: Buckets)
    ensures Consistent(b) ==> Consistent(r)
    // every national game consumes its key, including those outside the window
    ensures r.seen == b.seen + KeysOfGames(games)
    // games are only appended, each under its own key, to the bucket its day difference selects
    ensures b.today <= r.today && b.future <= r.future
    ensures forall i :: |b.today| <= i < |r.today| ==> Admitted(r.today[i], games, dayDiff, Today)
    ensures forall i :: |b.future| <= i < |r.future| ==> Admitted(r.future[i], games, dayDiff, Future)
    decreases |games|
  {
    if games == [] then b
    else
      var g := games[0];
      var b1 := MergeOne(g, dayDiff, b);
      var r := Merge(games[1..], dayDiff, b1);
      assert KeysOfGames(games) == {NationalKey(g)} + KeysOfGames(games[1..]) by {
        assert forall h :: h in games <==> h == g || h in games[1..];
      }
      AppendedAdmitted(b.today, b1.today, r.today, g, games, dayDiff, Today);
      AppendedAdmitted(b.future, b1.future, r.future, g, games, dayDiff, Future);
      r
  }

  /** A first game with an unseen key is filed in its window and stays there. */
  lemma MergeHeadBucketed(games: seq<Game>, dayDiff: string -> Option<int>, b: Buckets)
    requires games != [] && NationalKey(games[0]) !in b.seen && GameWindow(games[0], dayDiff).Some?
    ensures Entry(NationalKey(games[0]), games[0]) in Bucket(Merge(games, dayDiff, b), GameWindow(games[0], dayDiff).value)
  {
    var w := GameWindow(games[0], dayDiff).value;
    var e := Entry(NationalKey(games[0]), games[0]);
    var b1 := MergeOne(games[0], dayDiff, b);
    var r := Merge(games[1..], dayDiff, b1);
    assert Merge(games, dayDiff, b) == r;
    assert Bucket(b1, w) == Bucket(b, w) + [e];
    assert Bucket(b1, w) <= Bucket(r, w);
    assert Bucket(r, w)[|Bucket(b, w)|] == e;
  }

  /** No game before position `i` has the national key of `games[i]`. */
  ghost predicate FirstWithKey(games: seq<Game>, i: int)
    requires 0 <= i < |games|
  {
    forall j :: 0 <= j < i ==> NationalKey(games[j]) != NationalKey(games[i])
  }

  /** The first national game with a key not seen before is filed under
      that key in the bucket its day difference selects. */
  lemma {:induction false} MergeFirstKeyIn(games: seq<Game>, dayDiff: string -> Option<int>, b: Buckets, i: nat)
    requires i < |games| && NationalKey(games[i]) !in b.seen && FirstWithKey(games, i)
    requires GameWindow(games[i], dayDiff).Some?
    ensures Entry(NationalKey(games[i]), games[i]) in Bucket(Merge(games, dayDiff, b), GameWindow(games[i], dayDiff).value)
  {
    if i == 0 {
      MergeHeadBucketed(games, dayDiff, b);
    } else {
      var k := NationalKey(games[i]);
      var b1 := MergeOne(games[0], dayDiff, b);
      assert games[1..][i - 1] == games[i];
      assert NationalKey(games[0]) != k;
      assert FirstWithKey(games[1..], i - 1) by {
        forall j | 0 <= j < i - 1 ensures NationalKey(games[1..][j]) != k {
          assert games[1..][j] == games[j + 1];
        }
      }
      MergeFirstKeyIn(games[1..], dayDiff, b1, i - 1);
    }
  }

  /** ... and it is filed there exactly once. */
  lemma MergeFirstKeyBucketed(games: seq<Game>, dayDiff: string -> Option<int>, b: Buckets, i: nat)
    requires Consistent(b) && i < |games|
    requires NationalKey(games[i]) !in b.seen && FirstWithKey(games, i)
    requires GameWindow(games[i], dayDiff).Some?
    ensures var bucket := Bucket(Merge(games, dayDiff, b), GameWindow(games[i], dayDiff).value);
            Entry(NationalKey(games[i]), games[i]) in bucket && KeyCount(bucket, NationalKey(games[i])) == 1
  {
    var r := Merge(games, dayDiff, b);
    var w := GameWindow(games[i], dayDiff).value;
    MergeFirstKeyIn(games, dayDiff, b, i);
    var t :| 0 <= t < |Bucket(r, w)| && Bucket(r, w)[t] == Entry(NationalKey(games[i]), games[i]);
    assert HasKey(Bucket(r, w), NationalKey(games[i]));
    BucketedOnce(r, w, NationalKey(games[i]));
  }

  /** The key does not tell its parts apart: a start date and a home name
      that themselves contain '-' can give the key of another game. So a
      game the first game's window drops, or files elsewhere, hides a later
      game in another window that was never seen. */
  lemma KeySplitCollision(dayDiff: string -> Option<int>)
    requires dayDiff("x") == Some(0) && dayDiff("x-y") == Some(1)
    ensures var g1 := Game(Some("x"), "y-a", "b", "", "", "", "");
            var g2 := Game(Some("x-y"), "a", "b", "", "", "", "");
            && NationalKey(g1) == NationalKey(g2)
            && GameWindow(g1, dayDiff) == Some(Today) && GameWindow(g2, dayDiff) == Some(Future)
            && Merge([g1, g2], dayDiff, Empty).today == [Entry(NationalKey(g1), g1)]
            && Merge([g1, g2], dayDiff, Empty).future == []
  {
    var g1 := Game(Some("x"), "y-a", "b", "", "", "", "");
    var g2 := Game(Some("x-y"), "a", "b", "", "", "", "");
    assert NationalKey(g1) == "x-y-a-b" == NationalKey(g2);
    var b1 := MergeOne(g1, dayDiff, Empty);
    assert Merge([g1, g2], dayDiff, Empty) == Merge([g2], dayDiff, b1);
    assert [g1, g2][1..] == [g2];
    assert Merge([g2], dayDiff, b1) == Merge([], dayDiff, MergeOne(g2, dayDiff, b1));
  }

}
