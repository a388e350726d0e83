/** The team registry of the newer script: the Serie A roster fetched at the
    start of a run (with a static fallback roster) and the popular-club list,
    both compared through normalized names. */
module Registry {
  import opened Js
  import opened Names

  /** A team detail record of the roster endpoint. */
  datatype TeamDetail = TeamDetail(displayName: Option<string>, name: Option<string>)

  /** What the roster fetch produced: None when the list request failed (a
      transport error, a non-ok status or an unparsable body), else one entry
      per listed team reference, in list order, None where that team's own
      request failed. */
  type RosterResponse = Option<seq<Option<TeamDetail>>>

  /** `tData.displayName || tData.name || null`, with null as None. */
  function PickName(d: Option<TeamDetail>): (r: Option<string>)
    ensures d.None? ==> r.None?
    // `displayName` first, then `name`; an empty string counts as missing
    ensures d.Some? && Truthy(d.value.displayName) ==> r == d.value.displayName
    ensures d.Some? && !Truthy(d.value.displayName) && Truthy(d.value.name) ==> r == d.value.name
    ensures d.Some? && !Truthy(d.value.displayName) && !Truthy(d.value.name) ==> r.None?
    ensures r.Some? ==> r.value != ""
  {
    match d
    case None => None
    case Some(t) => if Truthy(Or(t.displayName, t.name)) then Or(t.displayName, t.name) else None
  }

  /** `(await Promise.all(teamPromises)).filter(Boolean)`: the picked names
      of the teams whose detail could be read, in list order. */
  function NamesOf(details: seq<Option<TeamDetail>>): (r: seq<string>)
    ensures |r| <= |details|
    ensures forall i :: 0 <= i < |r| ==> r[i] != ""
    ensures forall s :: s in r <==> exists i :: 0 <= i < |details| && PickName(details[i]) == Some(s)
  {
    if details == [] then []
    else
      var rest := NamesOf(details[1..]);
      assert forall i :: 1 <= i < |details| ==> details[i] == details[1..][i - 1];
      match PickName(details[0])
      case None => rest
      case Some(n) => [n] + rest
  }

  /** The order of the roster is kept: the names of a concatenation are the
      concatenation of the names. */
  lemma {:induction false} NamesOfAppend(a: seq<Option<TeamDetail>>, b: seq<Option<TeamDetail>>)
    ensures NamesOf(a + b) == NamesOf(a) + NamesOf(b)
  {
    if a == [] {
      assert a + b == b;
    } else {
      assert (a + b)[0] == a[0] && (a + b)[1..] == a[1..] + b;
      NamesOfAppend(a[1..], b);
    }
  }

  /** `fetchSerieATeams()`: the empty list when the list request failed. */
  function FetchSerieATeams(resp: RosterResponse): (r: seq<string>)
    ensures resp.None? ==> r == []
    ensures forall i :: 0 <= i < |r| ==> r[i] != ""
    ensures resp.Some? ==> r == NamesOf(resp.value)
  {
    match resp
    case None => []
    case Some(details) => NamesOf(details)
  }

  /** The Serie A list: the dynamic one when it is non-empty, else the fallback. */
  function SerieAList(dynamic: seq<string>, fallback: seq<string>): (r: seq<string>)
    ensures |dynamic| > 0 ==> r == dynamic
    ensures |dynamic| == 0 ==> r == fallback
  {
    if |dynamic| > 0 then dynamic else fallback
  }

  /** `new Set(list.map((n) => normalizeName(n)))`. */
  function NormalizedSet(names: seq<string>): (r: set<string>)
    ensures forall n :: n in names ==> Normalize(n) in r
    ensures forall m :: m in r ==> exists n :: n in names && Normalize(n) == m
  {
    set n | n in names :: Normalize(n)
  }

  datatype Registry = Registry(serieA: set<string>, popular: set<string>)

  /** The registry of one run. */
  function Build(dynamic: seq<string>, fallback: seq<string>, popular: seq<string>): Registry {
    Registry(NormalizedSet(SerieAList(dynamic, fallback)), NormalizedSet(popular))
  }

  /** The scoreboard filter: keep an event when either normalized side name is
      in the Serie A set or in the popular set. */
  predicate Keeps(reg: Registry, home: string, away: string) {
    var h := Normalize(home);
    var a := Normalize(away);
    h in reg.serieA || a in reg.serieA || h in reg.popular || a in reg.popular
  }

  /** A side matches a list when some entry of the list has the same normalized name. */
  ghost predicate Matches(list: seq<string>, name: string) {
    exists n :: n in list && Normalize(n) == Normalize(name)
  }

  /** An event is kept iff one of its sides matches, after normalization, a
      team of the Serie A list in force or a popular team. */
  lemma KeepsIff(dynamic: seq<string>, fallback: seq<string>, popular: seq<string>, home: string, away: string)
    ensures Keeps(Build(dynamic, fallback, popular), home, away) <==>
              Matches(SerieAList(dynamic, fallback), home) || Matches(SerieAList(dynamic, fallback), away)
              || Matches(popular, home) || Matches(popular, away)
  {
    var reg := Build(dynamic, fallback, popular);
    var list := SerieAList(dynamic, fallback);
    if Matches(list, home) {
      var n :| n in list && Normalize(n) == Normalize(home);
      assert Normalize(home) in reg.serieA;
    }
    if Matches(list, away) {
      var n :| n in list && Normalize(n) == Normalize(away);
      assert Normalize(away) in reg.serieA;
    }
    if Matches(popular, home) {
      var n :| n in popular && Normalize(n) == Normalize(home);
      assert Normalize(home) in reg.popular;
    }
    if Matches(popular, away) {
      var n :| n in popular && Normalize(n) == Normalize(away);
      assert Normalize(away) in reg.popular;
    }
  }

  /** The filter only sees normalized names: normalizing the displayed names
      first does not change the decision. */
  lemma KeepsNormalized(reg: Registry, home: string, away: string)
    ensures Keeps(reg, Normalize(home), Normalize(away)) == Keeps(reg, home, away)
  {
    NormalizeIdempotent(home);
    NormalizeIdempotent(away);
  }
}
