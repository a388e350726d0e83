/** The upstream sports-data payloads, as far as the fixture scripts read
    them, and the extraction steps both scripts share: first competition,
    home/away selection, competition label, broadcast label and logos. */
module Espn {
  import opened Js

  datatype Logo = Logo(href: Option<string>)

  datatype Team = Team(displayName: Option<string>, logo: Option<string>, logos: Option<seq<Logo>>)

  datatype Competitor = Competitor(homeAway: Option<string>, team: Option<Team>)

  datatype Media = Media(shortName: Option<string>, name: Option<string>)

  datatype Broadcast = Broadcast(
    media: Option<Media>,
    names: Option<seq<string>>,
    shortName: Option<string>,
    name: Option<string>)

  datatype Competition = Competition(
    date: Option<string>,
    competitors: Option<seq<Competitor>>,
    broadcasts: Option<seq<Broadcast>>)

  datatype League = League(name: Option<string>, shortName: Option<string>)

  datatype Event = Event(
    id: Option<string>,
    date: Option<string>,
    competitions: Option<seq<Competition>>,
    leagues: Option<seq<League>>,
    broadcasts: Option<seq<Broadcast>>)

  /** A scoreboard response body: `{ events: [...] }`. */
  datatype ScoreboardBody = ScoreboardBody(events: Option<seq<Event>>)

  /** `ev.competitions && ev.competitions[0]`. */
  function FirstCompetition(ev: Event): Option<Competition> {
    if ev.competitions.Some? && |ev.competitions.value| > 0 then Some(ev.competitions.value[0]) else None
  }

  /** `comp.competitors || []`. */
  function CompetitorsOf(comp: Competition): seq<Competitor> {
    comp.competitors.GetOr([])
  }

  predicate Tagged(c: Competitor, tag: string) {
    c.homeAway == Some(tag)
  }

  /** `competitors.find((c) => c.homeAway === tag)`, as an index. */
  function FindTagged(cs: seq<Competitor>, tag: string): (r: Option<nat>)
    ensures r.None? <==> forall i :: 0 <= i < |cs| ==> !Tagged(cs[i], tag)
    ensures r.Some? ==> r.value < |cs| && Tagged(cs[r.value], tag)
    ensures r.Some? ==> forall j :: 0 <= j < r.value ==> !Tagged(cs[j], tag)
  {
    if cs == [] then None
    else if Tagged(cs[0], tag) then Some(0)
    else match FindTagged(cs[1..], tag)
      case None => None
      case Some(i) => Some(i + 1)
  }

  /** `c` is the first competitor of `cs` tagged with `tag`. */
  ghost predicate IsFirstTagged(cs: seq<Competitor>, tag: string, c: Competitor) {
    exists i :: 0 <= i < |cs| && cs[i] == c && Tagged(c, tag) && forall j :: 0 <= j < i ==> !Tagged(cs[j], tag)
  }

  datatype Sides = Sides(home: Competitor, away: Competitor)

  /** The home/away choice of the newer script: the first 'home'-tagged entry,
      else the first entry; the first 'away'-tagged entry, else the second.
      Fewer than two competitors means the event is skipped. */
  function SelectSides(cs: seq<Competitor>): (r: Option<Sides>)
    ensures r.None? <==> |cs| < 2
    ensures r.Some? && (exists i :: 0 <= i < |cs| && Tagged(cs[i], "home")) ==> IsFirstTagged(cs, "home", r.value.home)
    ensures r.Some? && (forall i :: 0 <= i < |cs| ==> !Tagged(cs[i], "home")) ==> r.value.home == cs[0]
    ensures r.Some? && (exists i :: 0 <= i < |cs| && Tagged(cs[i], "away")) ==> IsFirstTagged(cs, "away", r.value.away)
    ensures r.Some? && (forall i :: 0 <= i < |cs| ==> !Tagged(cs[i], "away")) ==> r.value.away == cs[1]
  {
    if |cs| < 2 then None
    else
      var h := FindTagged(cs, "home");
      var a := FindTagged(cs, "away");
      Some(Sides(if h.Some? then cs[h.value] else cs[0], if a.Some? then cs[a.value] else cs[1]))
  }

  /** The positional fallback can pick one competitor for both sides: with an
      'away'-tagged entry first and an untagged one second, the first entry is
      home (no 'home' tag exists) and also away (it carries the 'away' tag). */
  lemma SameCompetitorBothSides(a: Competitor, b: Competitor)
    requires Tagged(a, "away") && b.homeAway.None?
    ensures SelectSides([a, b]) == Some(Sides(a, a))
  {
  }

  /** `ev.leagues[0].name || ev.leagues[0].shortName || ''`, or '' without leagues. */
  function CompetitionLabel(ev: Event): (r: string)
    ensures (ev.leagues.None? || ev.leagues.value == []) ==> r == ""
    ensures ev.leagues.Some? && ev.leagues.value != [] && Truthy(ev.leagues.value[0].name) ==>
              r == ev.leagues.value[0].name.value
    ensures ev.leagues.Some? && ev.leagues.value != [] && !Truthy(ev.leagues.value[0].name) ==>
              r == OrElse(ev.leagues.value[0].shortName, "")
  {
    if ev.leagues.Some? && |ev.leagues.value| > 0 then
      var l := ev.leagues.value[0];
      OrElse(Or(l.name, l.shortName), "")
    else ""
  }

  /** Only the first league is read. */
  lemma CompetitionLabelFirstLeague(ev: Event, more: seq<League>)
    requires ev.leagues.Some? && ev.leagues.value != []
    ensures CompetitionLabel(ev.(leagues := Some([ev.leagues.value[0]] + more))) == CompetitionLabel(ev)
  {
  }

  /** The broadcast list consulted: the competition's when it is a non-empty
      array, else the event's when it is, else none. */
  function BroadcastList(comp: Competition, ev: Event): (r: seq<Broadcast>)
    ensures comp.broadcasts.Some? && comp.broadcasts.value != [] ==> r == comp.broadcasts.value
    ensures (comp.broadcasts.None? || comp.broadcasts.value == []) ==> r == ev.broadcasts.GetOr([])
  {
    if comp.broadcasts.Some? && |comp.broadcasts.value| > 0 then comp.broadcasts.value
    else if ev.broadcasts.Some? && |ev.broadcasts.value| > 0 then ev.broadcasts.value
    else []
  }

  /** The channel name of one broadcast entry: the media's short name or name,
      else the first alternate name, else the entry's own short name or name,
      else the empty string. */
  function BroadcastName(b: Broadcast): (r: string)
    ensures b.media.Some? && Truthy(Or(b.media.value.shortName, b.media.value.name)) ==>
              r == Or(b.media.value.shortName, b.media.value.name).value
    ensures !(b.media.Some? && Truthy(Or(b.media.value.shortName, b.media.value.name))) && b.names.Some? && b.names.value != [] ==>
              r == b.names.value[0]
    ensures !(b.media.Some? && Truthy(Or(b.media.value.shortName, b.media.value.name))) && (b.names.None? || b.names.value == []) ==>
              r == OrElse(Or(b.shortName, b.name), "")
  {
    if b.media.Some? && Truthy(Or(b.media.value.shortName, b.media.value.name)) then
      Or(b.media.value.shortName, b.media.value.name).value
    else if b.names.Some? && |b.names.value| > 0 then b.names.value[0]
    else OrElse(Or(b.shortName, b.name), "")
  }

  /** The broadcast label: the name of the first entry of the list consulted,
      or '' when the list is empty. */
  function BroadcastLabel(comp: Competition, ev: Event): (r: string)
    ensures BroadcastList(comp, ev) == [] ==> r == ""
    ensures BroadcastList(comp, ev) != [] ==> r == BroadcastName(BroadcastList(comp, ev)[0])
  {
    var bs := BroadcastList(comp, ev);
    if |bs| > 0 then BroadcastName(bs[0]) else ""
  }

  /** Only the first broadcast entry is examined: entries after it never matter. */
  lemma BroadcastOnlyFirst(comp: Competition, ev: Event, more: seq<Broadcast>)
    requires comp.broadcasts.Some? && comp.broadcasts.value != []
    ensures BroadcastLabel(comp.(broadcasts := Some([comp.broadcasts.value[0]] + more)), ev) == BroadcastLabel(comp, ev)
  {
  }

  /** Competition-level broadcasts take priority: when they exist the event's are never read. */
  lemma BroadcastPrefersCompetition(comp: Competition, ev: Event, other: Option<seq<Broadcast>>)
    requires comp.broadcasts.Some? && comp.broadcasts.value != []
    ensures BroadcastLabel(comp, ev.(broadcasts := other)) == BroadcastLabel(comp, ev)
  {
  }

  /** `(team.logos && team.logos[0].href) || ''`: the national-team path.
      An empty `logos` array makes `logos[0].href` throw. */
  function NationalLogo(t: Team): (r: Eval<string>)
    ensures r.Threw? <==> t.logos == Some([])
    ensures t.logos.None? ==> r == Value("")
    ensures t.logos.Some? && t.logos.value != [] ==> r == Value(OrElse(t.logos.value[0].href, ""))
    ensures r.Value? && r.value != "" ==> t.logos.Some? && t.logos.value[0].href == Some(r.value)
  {
    match t.logos
    case None => Value("")
    case Some(ls) => if |ls| == 0 then Threw else Value(OrElse(ls[0].href, ""))
  }

  /** `(team.logos && team.logos[0].href) || team.logo || ''`: the scoreboard path. */
  function ScoreboardLogo(t: Team): (r: Eval<string>)
    ensures r.Threw? <==> t.logos == Some([])
    ensures t.logos.None? ==> r == Value(OrElse(t.logo, ""))
    // a truthy first `href` wins over `team.logo`
    ensures t.logos.Some? && t.logos.value != [] ==>
              r == Value(if Truthy(t.logos.value[0].href) then t.logos.value[0].href.value else OrElse(t.logo, ""))
    ensures r.Value? && r.value != "" ==>
              (t.logos.Some? && t.logos.value[0].href == Some(r.value)) || t.logo == Some(r.value)
  {
    match t.logos
    case None => Value(OrElse(t.logo, ""))
    case Some(ls) =>
      if |ls| == 0 then Threw
      else if Truthy(ls[0].href) then Value(ls[0].href.value)
      else Value(OrElse(t.logo, ""))
  }

  /** The scoreboard logo is the national one with `team.logo` as an extra
      fallback; the national logo never reads `team.logo`. */
  lemma LogoPathsAgree(t: Team, other: Option<string>)
    ensures NationalLogo(t.(logo := other)) == NationalLogo(t)
    ensures NationalLogo(t) == Value("") ==> ScoreboardLogo(t) == Value(OrElse(t.logo, ""))
    ensures NationalLogo(t).Value? && NationalLogo(t).value != "" ==> ScoreboardLogo(t) == NationalLogo(t)
    ensures NationalLogo(t).Threw? <==> ScoreboardLogo(t).Threw?
  {
  }
}
