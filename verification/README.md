# Fixture builder — a Dafny model

This project models the fixture-building core of the `brasileirao-games` scripts.
They turn loosely shaped sports-data payloads into a flat list of football fixtures.

`fetch_games_new.js` is the current script. It runs these steps:

1. Load the Serie A roster. If the roster comes back empty, a static fallback list is used instead.
2. Fetch the scoreboard of every competition slug for today and each of the next seven days.
3. Keep an event when one of its sides, after name normalization, is a Serie A club or a popular club.
4. Choose the home and away sides. An explicit tag wins; otherwise the position in the list decides.
5. Resolve the logos, the competition label and the broadcast label.
6. Fetch the events of the tracked national teams and translate the team names into Portuguese.
7. Drop duplicates with one seen-key set that both paths share.
8. Put each game in a `today` or a `future` bucket.
9. Sort both buckets by their `startDate` string.

`fetch_games.js` is the older script. It keeps today's events of a fixed set of competitions when any competitor is a Serie A club. It needs both an explicit home tag and an explicit away tag, and it does no dedupe.

The modules follow the structure of the scripts:

- `Js`: the JavaScript semantics the scripts rely on:
  - missing JSON fields (`Option`);
  - a thrown `TypeError` (`Eval.Threw`);
  - string truthiness and `||`;
  - `${…}` interpolation, where a missing value prints "undefined";
  - `<` on strings.
- `Names`: `normalizeName` and the older `normalize`. Both decompose, strip diacritic marks and lower-case, over a small Latin-1 alphabet.
- `Espn`: the upstream payload records, plus the extraction steps both paths share:
  - the first competition;
  - home/away selection;
  - the competition label;
  - the broadcast label;
  - the two logo rules.
- `Registry`: the roster names, the Serie A list in force, and the normalized Serie A and popular sets with their filter.
- `Fixtures`: the written game record, the two buckets and the shared seen-key set. It also holds the `Consistent` invariant: every bucketed key is seen, and no key is bucketed twice across both buckets.
- `Scoreboard`: the scoreboard phase of `main`. A `TypeError` inside one response's event loop is caught outside that loop, so it abandons the rest of that response.
- `National`: `fetchNationalTeamEvents` and the national merge loop of `main`. A failure there loses only the one item.
- `Ordering`: the stable sort of a bucket by `startDate`.
- `Pipeline`: `main` end to end.
- `Legacy`: `fetch_games.js`.

The outside world is a set of parameters:

- every HTTP response, given as an `Option` of the parsed body (None for a failed request, a non-ok status or a body that does not parse). Two requests parse the body without checking `ok`: a roster team detail (fetch_games_new.js:127-128) and the older script's scoreboard (fetch_games.js:50-51). For those, a non-ok JSON body arrives as `Some` of that body;
- the day difference of a national game's start date to today;
- the static tables: the competition slugs, the fallback roster, the popular clubs, the national teams, the slug-to-league map and the older script's Serie A list.

Three things the scripts do not do:

- Nothing fills `today` from another data source when the scan finds no games.
- A broadcast name is used as given; it is never split on a separator.
- Only the first broadcast entry is examined. When it has no usable name the label is '', even if a later entry has one.

## Model

| member | source | states |
|---|---|---|
| Names.Normalize | fetch_games_new.js:107-112 | every character of the result is fully decomposed, is no diacritic mark and is lower case |
| Names.NormalizeIdempotent | fetch_games_new.js:107-112 | normalizing a normalized name changes nothing |
| Names.NormalizeAppend | fetch_games_new.js:107-112 | normalization works character by character: the normalization of a concatenation is the concatenation of the normalizations |
| Names.NormalizeIgnoresCase | fetch_games_new.js:111 | lower-casing a name before normalizing it does not change the result |
| Names.NormalizeIgnoresMarks | fetch_games_new.js:109-110 | decomposing a name and removing its marks before normalizing it does not change the result |
| Names.NormalizeUnaccented | fetch_games_new.js:107-112 | on a name without accented letters or marks, normalization is plain lower-casing |
| Js.StrLessIrreflexive | fetch_games_new.js:375 | no start date sorts before itself |
| Js.StrLessTransitive | fetch_games_new.js:375 | string order is transitive |
| Js.StrLessTrichotomy | fetch_games_new.js:375 | two start-date strings are equal or one sorts before the other |
| Espn.FindTagged | fetch_games_new.js:282-283 | the index of the first competitor carrying the tag; None iff no competitor carries it |
| Espn.SelectSides | fetch_games_new.js:278-283 | skip iff fewer than two competitors; home is the first 'home'-tagged entry or else the first entry; away is the first 'away'-tagged entry or else the second |
| Espn.SameCompetitorBothSides | fetch_games_new.js:164-165 | for [A tagged 'away', B untagged], A is chosen as both home and away |
| Espn.CompetitionLabel | fetch_games_new.js:305-308 | '' without leagues; else the first league's name when non-empty, else its short name, else '' |
| Espn.CompetitionLabelFirstLeague | fetch_games_new.js:183-186 | leagues after the first never change the label |
| Espn.BroadcastList | fetch_games_new.js:310-316 | the competition's broadcasts when that is a non-empty array, else the event's |
| Espn.BroadcastName | fetch_games_new.js:317-326 | the media short name or name, else the first alternate name, else the entry's short name or name, else '' |
| Espn.BroadcastLabel | fetch_games_new.js:188-207 | '' when no list applies; else the channel name of the first entry |
| Espn.BroadcastOnlyFirst | fetch_games_new.js:198-199 | entries after the first never change the broadcast label |
| Espn.BroadcastPrefersCompetition | fetch_games_new.js:190-197 | with competition-level broadcasts, the event's broadcasts are never read |
| Espn.NationalLogo | fetch_games_new.js:178-181 | throws iff `logos` is an empty array; '' without `logos`; else the first logo's href when truthy, else '' |
| Espn.ScoreboardLogo | fetch_games_new.js:301-304 | throws iff `logos` is an empty array; without `logos` it is `team.logo` or ''; else a truthy first href wins over `team.logo`, which wins over '' |
| Espn.LogoPathsAgree | fetch_games_new.js:301-304 | the scoreboard logo is the national logo with `team.logo` as an extra fallback; the national path never reads `team.logo`; both throw on the same teams |
| Registry.PickName | fetch_games_new.js:126-132 | None for a failed team request; else a truthy `displayName`, else a truthy `name`, else None; a picked name is never empty |
| Registry.NamesOf | fetch_games_new.js:125-134 | the names are exactly the truthy picked names of the roster entries, none empty, at most one per entry |
| Registry.NamesOfAppend | fetch_games_new.js:134 | roster order is kept: the names of a concatenation are the concatenated names |
| Registry.FetchSerieATeams | fetch_games_new.js:117-139 | the empty list when the list request fails; else the names of the roster entries |
| Registry.SerieAList | fetch_games_new.js:256 | the dynamic list when it is non-empty, else the fallback list |
| Registry.NormalizedSet | fetch_games_new.js:257-258 | the set holds exactly the normalizations of the list's names |
| Registry.KeepsIff | fetch_games_new.js:286-296 | the filter `Registry.Keeps`: an event is kept iff its normalized home or away name matches, after normalization, a Serie A team of the list in force or a popular team |
| Registry.KeepsNormalized | fetch_games_new.js:286-287 | the filter sees only normalized names, so normalizing the inputs first changes nothing |
| Fixtures.ConsistentEmpty | fetch_games_new.js:260-263 | the empty buckets and the empty seen set satisfy the dedupe invariant |
| Fixtures.Push | fetch_games_new.js:337-338 | a game is appended to the selected bucket only; the other bucket and the seen set are unchanged |
| Fixtures.UnseenNotBucketed | fetch_games_new.js:299-300 | under the invariant, a key not yet seen is filed under no entry of either bucket |
| Fixtures.ClaimConsistent | fetch_games_new.js:300 | marking a key seen keeps the invariant |
| Fixtures.AdmitConsistent | fetch_games_new.js:297-300 | claiming an unseen key and appending its game keeps at most one game per key across both buckets |
| Scoreboard.Offsets | fetch_games_new.js:266 | day offsets 0 through 7 of one slug, in order |
| Scoreboard.Schedule | fetch_games_new.js:265-266 | the requests run slug by slug, each slug through offsets 0..7: request i is slug i div 8 at offset i mod 8 |
| Scoreboard.Inspect | fetch_games_new.js:278-287 | skipped iff there is no first competition or fewer than two competitors; throws iff a chosen side lacks its team or display name; else the candidate holds the teams `SelectSides` chose, both named |
| Scoreboard.MakeGame | fetch_games_new.js:301-336 | throws iff a side's `logos` is an empty array; else the game carries the event date, the raw display names, both scoreboard logos, the competition label and the broadcast label |
| Scoreboard.WindowOf | fetch_games_new.js:337-338 | a scoreboard game goes to `today` iff its offset is 0 |
| Scoreboard.EventStep | fetch_games_new.js:277-338 | an event that throws before its key changes nothing and aborts; filtered-out and already-seen events change nothing; a kept unseen event consumes its key even when its logos throw; a kept unseen event with resolvable logos is appended with its `MakeGame` record, under its key, to the offset's bucket, and nothing else is ever appended; the invariant is kept |
| Scoreboard.EventsRun | fetch_games_new.js:272-342 | the loop over one response keeps the invariant, only grows the seen set and only appends, and touches only the bucket of its offset |
| Scoreboard.EventsRunFromEvents | fetch_games_new.js:277-338 | every entry the loop over one response appends is the key and `MakeGame` record of a kept event of that response |
| Scoreboard.EventsRunBuckets | fetch_games_new.js:277-338 | a loop that is not abandoned claims the key of every kept event, and every key it newly claims is filed in the bucket of its offset |
| Scoreboard.EventsRunComplete | fetch_games_new.js:293-338 | a loop that is not abandoned files every kept event whose key was not seen before exactly once in the bucket of its offset |
| Scoreboard.EventsRunAppend | fetch_games_new.js:277 | running over a concatenation runs the second part only if the first was not abandoned |
| Scoreboard.AbortLosesRest | fetch_games_new.js:340-342 | once an event throws, the events after it in the same response contribute nothing |
| Scoreboard.ScanQueries | fetch_games_new.js:265-343 | the scoreboard phase keeps the invariant, only grows the seen set and only appends; only offset-0 requests add to `today` and only later ones to `future`; which of two same-key events is filed is stated by `Scoreboard.ScanQueriesFirstBucketed` |
| Scoreboard.ScanQueriesFromEvents | fetch_games_new.js:265-343 | every entry the scoreboard phase appends to a bucket is the key and record of a kept event of the response to a query whose offset selects that bucket |
| Scoreboard.CleanContinues | fetch_games_new.js:277-342 | a response with no throwing event is never abandoned |
| Scoreboard.ScanQueriesBuckets | fetch_games_new.js:265-343 | when no event throws, every kept event's key is claimed and every newly claimed key is filed in one of the buckets |
| Scoreboard.ScanQueriesFiles | fetch_games_new.js:265-343 | when no event throws, every kept event of every response whose key was not seen has its key filed in a bucket |
| Scoreboard.ScanQueriesComplete | fetch_games_new.js:265-343 | when no event throws, every kept event of every response whose key was not seen is filed exactly once across the two buckets |
| Scoreboard.EventsRunUnkeyed | fetch_games_new.js:293-300 | a response none of whose kept events carries a key leaves that key unclaimed |
| Scoreboard.EventsRunKeeps | fetch_games_new.js:277-342 | a game filed before a response is read stays filed: the loop never removes or reorders an entry |
| Scoreboard.EventsRunFirstHead | fetch_games_new.js:293-338 | a clean, kept first event with an unseen key is filed, with its own record, in the bucket of the offset |
| Scoreboard.EventsRunFirstIn | fetch_games_new.js:277-342 | the first kept event of a response with a given key, with nothing up to it throwing and its key unseen, is filed with its own record in the offset's bucket; later events with the same key cannot displace it |
| Scoreboard.ScanQueriesKeeps | fetch_games_new.js:265-343 | a game filed before the schedule runs stays filed |
| Scoreboard.ScanQueriesFirstHead | fetch_games_new.js:265-343 | the first query's first kept event with an unseen key is filed and stays filed |
| Scoreboard.ScanQueriesFirstIn | fetch_games_new.js:265-343 | the first kept event of the whole request schedule with a given key is filed, with its own record, in the bucket of its query's offset |
| Scoreboard.ScanQueriesFirstBucketed | fetch_games_new.js:265-343 | only the first-seen instance is kept: the first kept event of the schedule with an unseen key, with nothing before it in its own response throwing, is filed with its own record exactly once in the bucket its offset selects, whatever later duplicates the schedule holds |
| National.FindTeam | fetch_games_new.js:169-171 | the index of the first tracked team whose name equals the display name ignoring case; None iff there is none |
| National.Translate | fetch_games_new.js:169-176 | the Portuguese name of the first case-insensitive match; else the display name unchanged |
| National.TranslateIgnoresCase | fetch_games_new.js:170 | names that agree after lower-casing translate alike when one of them matches a tracked team |
| National.Extract | fetch_games_new.js:160-217 | an item is skipped iff it has no first competition, fewer than two competitors, a missing side team or an empty `logos` array; else the game carries the event date, the translated names, the national logos and both labels |
| National.ItemGames | fetch_games_new.js:155-221 | an item whose detail fails or whose extraction skips gives no game; else exactly its extracted game |
| National.TeamGames | fetch_games_new.js:155-221 | one team's items give at most one game each |
| National.TeamGamesFromItems | fetch_games_new.js:155-221 | every game of the item loop is the extracted game of one listed item's detail |
| National.TeamGamesCoversItems | fetch_games_new.js:155-221 | every listed item whose detail was fetched and extracts to a game gives that game |
| National.TeamsGamesFromTeams | fetch_games_new.js:145-225 | every game of the team loop comes from an item of a team with a known id whose team-events request succeeded |
| National.TeamsGamesCoversTeams | fetch_games_new.js:145-225 | every good item of a team with a known id whose team-events request succeeded gives its game |
| National.FetchNationalTeamEvents | fetch_games_new.js:143-227 | a game is returned iff it is the extracted game of an item listed for a tracked team with a known id |
| National.TeamGamesAppend | fetch_games_new.js:155 | the item loop over a concatenation concatenates the games |
| National.BadItemYieldsNothing | fetch_games_new.js:218-219 | an item whose detail fails or whose extraction fails yields no game |
| National.BadItemSkippedAlone | fetch_games_new.js:218-219 | a bad item is skipped alone: the items before and after it still contribute |
| National.UnknownIdsNeverQueried | fetch_games_new.js:147 | teams with an id <= 0 are never queried: the answers for such ids cannot change the result |
| National.Classify | fetch_games_new.js:361-369 | `today` iff the day difference is 0; `future` iff it is in 1..7; dropped otherwise, including an unparsable date |
| National.GameWindow | fetch_games_new.js:357-369 | a game without `startDate` is never bucketed (`new Date(undefined)` is invalid); else the window its day difference selects |
| National.MergeOne | fetch_games_new.js:357-369 | keeps the invariant; the game's national key is consumed even when the window drops it; a seen key, a missing start date or a day difference outside 0..7 leaves both buckets alone; otherwise the game is appended under its key to `today` (difference 0) or `future` (1..7) |
| National.Merge | fetch_games_new.js:355-370 | keeps the invariant; every national game consumes its key even when the window drops it; games are only appended, each under its national key, to the bucket its day difference selects |
| National.MergeHeadBucketed | fetch_games_new.js:357-367 | a first game with an unseen key and a window is filed in that window's bucket and stays there |
| National.MergeFirstKeyIn | fetch_games_new.js:355-370 | the first national game with a key not seen before, when its day difference selects a bucket, is filed there under its key |
| National.MergeFirstKeyBucketed | fetch_games_new.js:355-370 | that game is filed in that bucket exactly once |
| National.KeySplitCollision | fetch_games_new.js:358 | the key joins its parts with '-', so a game dated "x" with home "y-a" and one dated "x-y" with home "a" share a key; the second, in another window, is never filed |
| Ordering.StartLessIrreflexive | fetch_games_new.js:375 | no game sorts before itself |
| Ordering.StartLessTransitive | fetch_games_new.js:375 | the start-date order is transitive |
| Ordering.StartLessTrichotomy | fetch_games_new.js:375 | two start dates are equal or one sorts before the other |
| Ordering.Insert | fetch_games_new.js:375 | insertion adds exactly the one entry |
| Ordering.InsertSorted | fetch_games_new.js:375 | inserting into a sorted bucket keeps it sorted |
| Ordering.InsertKeys | fetch_games_new.js:375 | insertion files exactly one more entry under the entry's key and changes no other key's count |
| Ordering.InsertGames | fetch_games_new.js:375 | insertion adds exactly the entry's game |
| Ordering.InsertStable | fetch_games_new.js:375 | the inserted entry lands ahead of the entries with its start date, and every start date's entries keep their order |
| Ordering.SortByStart | fetch_games_new.js:375-376 | the sorted bucket is a permutation of the bucket |
| Ordering.SortSorted | fetch_games_new.js:375-376 | the sorted bucket is in start-date order |
| Ordering.SortKeys | fetch_games_new.js:375-376 | sorting keeps the number of entries under every dedupe key |
| Ordering.SortGames | fetch_games_new.js:375-376 | sorting permutes the written games |
| Ordering.SortStable | fetch_games_new.js:375-376 | the sort is stable: games with the same start date keep their bucketing order |
| Ordering.SortKeepsAtMostOnce | fetch_games_new.js:375-376 | sorting both buckets keeps at most one game per key |
| Pipeline.ScoreboardPhase | fetch_games_new.js:259-344 | the scoreboard phase from empty buckets satisfies the dedupe invariant |
| Pipeline.Collect | fetch_games_new.js:346-373 | the invariant holds after both phases; the national phase only appends to the scoreboard buckets; the final seen set is the scoreboard's plus every national key |
| Pipeline.Arrange | fetch_games_new.js:374-376 | both buckets sorted, each a permutation of itself, with the seen set and the invariant kept |
| Pipeline.SortedConsistent | fetch_games_new.js:374-376 | sorting both buckets keeps the dedupe invariant |
| Pipeline.Main | fetch_games_new.js:232-381 | both written arrays are sorted by start date, and each is a permutation of the games collected for it |
| Pipeline.MainHolds | fetch_games_new.js:374-379 | the game of every entry collected for a bucket is in that bucket of the file |
| Pipeline.WrittenWithKey | fetch_games_new.js:374-379 | a key collected in a bucket is written: some entry under it has its game in that bucket of the file |
| Pipeline.MainKeepsScoreboardGames | fetch_games_new.js:265-379 | when no scoreboard event throws, every kept event of every response is written: an entry under its key is collected and its game is in the file |
| Pipeline.MainKeepsFirstScoreboardGame | fetch_games_new.js:265-379 | the first kept scoreboard event of the schedule with its key, with nothing before it in its own response throwing, has its own record written in `today` when its offset is 0 and in `future` otherwise |
| Pipeline.ScoreboardEntryWritten | fetch_games_new.js:344-379 | a game the scoreboard phase files survives the national phase and the sort and is written in the same bucket |
| Pipeline.MainKeepsNationalGames | fetch_games_new.js:355-379 | a national game that is the first with its key, whose key the scoreboard phase did not see and whose day difference selects a bucket, is in that bucket of the file |
| Pipeline.KeysAgree | fetch_games_new.js:358 | with the same names, the scoreboard key and the national key agree iff the national start date prints as the scoreboard's `ev.date`, or `ev.id` when the date is missing or empty |
| Pipeline.FixtureOnScoreboard | fetch_games_new.js:277-338 | a kept fixture with explicit home and away entries is bucketed today, alone, under its raw names and scoreboard key |
| Pipeline.FixtureOnNationalPath | fetch_games_new.js:160-217 | the same fixture, with its home side tracked, comes back from the national path with the home side translated and the away side unchanged |
| Pipeline.TranslatedKeyDiffers | fetch_games_new.js:358 | a translated home name gives a different key, whatever its length |
| Pipeline.FreshNationalToday | fetch_games_new.js:358-366 | a national game with an unseen key and day difference 0 is appended to `today` |
| Pipeline.CrossPathDuplicate | fetch_games_new.js:358 | for a registry that keeps the fixture, a fixture the scoreboard phase buckets today, derived through `EventStep`, comes back from `Extract` with its home side translated (Brazil as "Brasil"), under a key not yet seen, and is bucketed a second time |
| Pipeline.BrazilBrasil | fetch_games_new.js:358 | "Brazil" v "Argentina" with "Brasil" as the translation meets the name conditions of `Pipeline.CrossPathDuplicate`; the duplicate also needs a registry that keeps the fixture, which the script's own tables do not (no national team is a popular club or on the Serie A roster), so with those tables the filter drops it |
| Legacy.NormalizedNames | fetch_games.js:62 | the names throw iff some competitor lacks a team or a display name; else there is one normalized name per competitor |
| Legacy.NormalizedNamesSettled | fetch_games.js:39-41 | every name compared with the Serie A set is already normal, so normalizing it again changes nothing |
| Legacy.LegacyEventSpec | fetch_games.js:57-81 | the loop body `Legacy.LegacyEvent`: skip without a first competition; throw iff a competitor is unnamed; emit iff some competitor, on any side, is a Serie A club and both an explicit home and an explicit away entry exist |
| Legacy.LegacyEventRecord | fetch_games.js:64-80 | a written record takes the first explicit home and away entries, their names and `team.logo`, the slug's league label, and the competition's own date |
| Legacy.LegacyEventsCrash | fetch_games.js:57-81 | the event loop `Legacy.LegacyEvents` of one competition throws iff one of its events throws |
| Legacy.LegacyEventsFromEvents | fetch_games.js:57-81 | every record of one competition's loop is the record one of its events emits |
| Legacy.LegacyEventsComplete | fetch_games.js:57-81 | when the loop is not rejected, the record of every emitting event is in it |
| Legacy.LegacyEventsAppend | fetch_games.js:57 | the records of a concatenation are the concatenated records, in event order |
| Legacy.NoDedupe | fetch_games.js:68 | an event list served twice is written twice |
| Legacy.FetchGamesFromEvents | fetch_games.js:44-84 | every record of `Legacy.FetchGames` is emitted by an event of a served competition |
| Legacy.FetchGamesComplete | fetch_games.js:44-84 | when the run is not rejected, the record of every emitting event of every served competition is written |
| Legacy.FetchGamesRejected | fetch_games.js:44-84 | `Legacy.FetchGames` is rejected iff the event loop of some served competition throws |
| Legacy.CrashRejectsRun | fetch_games.js:62 | one unnamed competitor in any served competition rejects the whole run |
| Legacy.FetchGamesAppend | fetch_games.js:46 | output order is competition order, then event order |
| Legacy.SilentCompetitionIgnored | fetch_games.js:56 | a competition whose response has no `events` contributes nothing |
| Legacy.EmitIsSerieA | fetch_games.js:42-63 | an emitted event has all competitors named and one of them matches a listed Serie A club after normalization |
| Legacy.RunOnlySerieA | fetch_games.js:42-92 | only Serie A fixtures are written: every record of `Legacy.Run` is emitted by an event of a served competition one of whose competitors matches a listed Serie A club |
| Legacy.SerieAIsEmitted | fetch_games.js:57-81 | an event with all competitors named, one of them matching a listed Serie A club, and explicit home and away entries is emitted |
| Legacy.RunWritesSerieAFixtures | fetch_games.js:42-92 | such an event of a served competition is emitted, and its record is written when the run is not rejected; with `Legacy.RunOnlySerieA` the written records are exactly these |
| Legacy.SideSelectionContrast | fetch_games.js:64-66 | for [A tagged 'away', B untagged] the older script skips the event, while the newer one picks A for both sides |

## Left out

- HTTP, `resp.ok`, `json()` and file output: responses are parameters, and the written document is the value `Pipeline.Main` returns.
- `Promise.all` in the roster load: the result order is the order of the list, which is what `Registry.NamesOf` keeps.
- Dates and clocks:
  - `Intl.DateTimeFormat` in `America/Bahia`, `Date` arithmetic and the `setHours` day difference are not modelled.
  - Scoreboard requests carry a day offset, not a date string.
  - A national game's day difference to today is the parameter `dayDiff` of its start date (None for an unparsable date). A game without a start date is never bucketed.
  - The national date range in the team-events request is fixed per run, so it is folded into the `teamEvents` parameter.
- Unicode:
  - `normalize('NFD')` covers the Latin-1 letters.
  - `\p{Diacritic}` covers `^`, `` ` ``, U+00A8, U+00AF, U+00B4, U+00B7, U+00B8 and the ranges U+02B0..U+034E, U+0350..U+0357 and U+035D..U+0362. U+034F and U+0358..U+035C are kept.
  - Lower-casing covers ASCII and Latin-1 capitals.
  - All other characters map to themselves.
- Js.StrLess: compares strings by code point, while JavaScript compares UTF-16 code units. The two differ when a character above U+FFFF meets one in U+E000..U+FFFF: JavaScript puts "\u{10000}" before "\uE000", and the model puts it after.
- Ordering.StartLess: a game without `startDate` sorts before every dated game, which is a deviation from the script. The script's comparator treats `undefined` as equal to every string.
  - When the dated games of a bucket all share one start date, that comparator is consistent and the stable sort keeps collection order. The script then writes [dated, undated] where the model writes [undated, dated].
  - Otherwise the comparator is inconsistent, and the order the engine produces is unspecified.
  - Undated games do reach the buckets: a scoreboard event without `date` gives one.
- Scoreboard.ScanQueriesComplete: stated for runs in which no scoreboard event throws. The window is not pinned: the same key can come back at two offsets. Which one wins is stated by `Scoreboard.ScanQueriesFirstBucketed`: the first in the request schedule.
- National.MergeFirstKeyBucketed: stated for the first game with its key. A later game with the same key is dropped even when its window differs, because the key does not tell its three parts apart (`National.KeySplitCollision`).
- `null` entries in arrays and non-string values in string fields are not modelled. Every field is either missing or of its expected type.
- The static tables (`leagues`, `nationalTeams`, `popularTeams`, `fallbackTeams`, `leagueSlugs`, `serieATeams`) are parameters, not constants.
- Legacy.FetchGamesRejected: the uncaught `TypeError` at fetch_games.js:62 is represented only as a rejected run (None). The unhandled promise rejection and the missing output file are not modelled further.
- Console logging in both scripts.
