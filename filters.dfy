/** The selection rules of `components/filters.py`: the default index and the
    options of the team, season and week selectors, the division/conference
    option list and filter, and the matchup labels the matchup selector
    offers and parses back. The widgets themselves are not modelled; a
    selector's result is the option at the index the user picks. */
module Filters {
  import opened Wrappers
  import opened Text
  import opened Seqs
  import opened Tables

  // ===== render_team_selector and render_season_selector

  /** The selectbox index of the team selector: the first position of the
      default when it is a non-empty name on offer, else 0. `None` when the
      list is empty and no selector is shown. */
  function TeamSelectorIndex(teams: seq<string>, default: Option<string>): (r: Option<nat>)
    ensures r.None? <==> |teams| == 0
    ensures r.Some? ==> r.value < |teams|
    ensures r.Some? && NonEmptyText(default) && default.value in teams ==>
      teams[r.value] == default.value && forall j :: 0 <= j < r.value ==> teams[j] != default.value
    ensures r.Some? && !(NonEmptyText(default) && default.value in teams) ==> r.value == 0
  {
    if |teams| == 0 then None
    else if NonEmptyText(default) && default.value in teams then Some(IndexOf(teams, default.value))
    else Some(0)
  }

  /** The same rule for seasons; the season `0` is falsy in Python. */
  function SeasonSelectorIndex(seasons: seq<int>, default: Option<int>): (r: Option<nat>)
    ensures r.None? <==> |seasons| == 0
    ensures r.Some? ==> r.value < |seasons|
    ensures r.Some? && default.Some? && default.value != 0 && default.value in seasons ==>
      seasons[r.value] == default.value && forall j :: 0 <= j < r.value ==> seasons[j] != default.value
    ensures r.Some? && !(default.Some? && default.value != 0 && default.value in seasons) ==> r.value == 0
  {
    if |seasons| == 0 then None
    else if default.Some? && default.value != 0 && default.value in seasons then Some(IndexOf(seasons, default.value))
    else Some(0)
  }

  // ===== render_week_selector

  /** An entry of the week selector: the `"All Weeks"` entry or a week. */
  datatype WeekChoice = AllWeeks | Week(n: int)

  /** Python truthiness of a default week: `"All Weeks"` is truthy, week `0` is not. */
  predicate Truthy(c: WeekChoice) {
    c.AllWeeks? || c.n != 0
  }

  function WeekOptions(weeks: seq<int>, includeAll: bool): seq<WeekChoice> {
    (if includeAll then [AllWeeks] else []) + seq(|weeks|, i requires 0 <= i < |weeks| => Week(weeks[i]))
  }

  /** The selectbox index of the week selector (lines 100-105). */
  function WeekSelectorIndex(weeks: seq<int>, includeAll: bool, default: Option<WeekChoice>): (r: Option<nat>)
    ensures r.None? <==> |weeks| == 0
    ensures r.Some? ==> r.value < |WeekOptions(weeks, includeAll)|
    ensures r.Some? && default.Some? && Truthy(default.value) && default.value in WeekOptions(weeks, includeAll) ==>
      WeekOptions(weeks, includeAll)[r.value] == default.value &&
      forall j :: 0 <= j < r.value ==> WeekOptions(weeks, includeAll)[j] != default.value
    ensures r.Some? && !(default.Some? && Truthy(default.value) && default.value in WeekOptions(weeks, includeAll)) ==>
      r.value == 0
  {
    if |weeks| == 0 then None
    else
      var options := WeekOptions(weeks, includeAll);
      if default.Some? && Truthy(default.value) then
        if default.value == AllWeeks && includeAll then
          assert options[0] == AllWeeks;
          Some(0)
        else if default.value in options then Some(IndexOf(options, default.value))
        else Some(0)
      else Some(0)
  }

  /** What the week selector returns for the entry picked: `None` for every week. */
  function WeekSelected(c: WeekChoice): Option<int> {
    match c
    case AllWeeks => None
    case Week(n) => Some(n)
  }

  /** The entry at index `i` selects all weeks exactly when it is the leading
      `"All Weeks"` entry; every other entry selects its own week. */
  lemma WeekSelection(weeks: seq<int>, includeAll: bool, i: nat)
    requires i < |WeekOptions(weeks, includeAll)|
    ensures WeekSelected(WeekOptions(weeks, includeAll)[i]).None? <==> includeAll && i == 0
    ensures !includeAll ==> WeekSelected(WeekOptions(weeks, includeAll)[i]) == Some(weeks[i])
    ensures includeAll && i > 0 ==> WeekSelected(WeekOptions(weeks, includeAll)[i]) == Some(weeks[i - 1])
  {
  }

  // ===== render_division_conference_filter

  const ALL_TEAMS := "All Teams"

  /** The two grouping columns of the filter. */
  datatype Grouping = ByConference | ByDivision

  function GroupColumn(g: Grouping): string {
    match g
    case ByConference => CONFERENCE
    case ByDivision => DIVISION
  }

  function GroupOf(x: Row, g: Grouping): Option<string> {
    match g
    case ByConference => x.conference
    case ByDivision => x.division
  }

  /** The non-null values of a grouping column, in row order. */
  function GroupValues(rows: seq<Row>, g: Grouping): (r: seq<string>)
    ensures forall y :: y in r <==> exists x :: x in rows && GroupOf(x, g) == Some(y)
    decreases |rows|
  {
    if |rows| == 0 then []
    else
      assert rows == [rows[0]] + rows[1..];
      (if GroupOf(rows[0], g).Some? then [GroupOf(rows[0], g).value] else []) + GroupValues(rows[1..], g)
  }

  /** `sorted(df[col].dropna().unique())`, or nothing when the table or the column is missing. */
  function GroupOptions(df: Option<Frame>, g: Grouping): (r: seq<string>)
    ensures AscendingStrings(r)
    ensures forall y :: y in r <==>
      df.Some? && GroupColumn(g) in df.value.columns && exists x :: x in df.value.rows && GroupOf(x, g) == Some(y)
  {
    if df.Some? && GroupColumn(g) in df.value.columns then SortedUniqueStrings(GroupValues(df.value.rows, g)) else []
  }

  /** The option list, built by extending `["All Teams"]` with the sorted
      conferences and then the sorted divisions: every option after the first
      names a conference or a division of the table, each group comes out
      ascending, and no option repeats within a group. */
  method DivisionConferenceOptions(df: Option<Frame>) returns (options: seq<string>)
    ensures options == [ALL_TEAMS] + GroupOptions(df, ByConference) + GroupOptions(df, ByDivision)
    ensures options[0] == ALL_TEAMS
    ensures var k := 1 + |GroupOptions(df, ByConference)|;
      AscendingStrings(options[1..k]) && AscendingStrings(options[k..]) &&
      (forall y :: y in options[1..k] <==>
        (df.Some? && CONFERENCE in df.value.columns && exists x :: x in df.value.rows && x.conference == Some(y))) &&
      (forall y :: y in options[k..] <==>
        (df.Some? && DIVISION in df.value.columns && exists x :: x in df.value.rows && x.division == Some(y)))
  {
    options := [ALL_TEAMS];
    if df.Some? && CONFERENCE in df.value.columns {
      options := options + SortedUniqueStrings(GroupValues(df.value.rows, ByConference));
    }
    if df.Some? && DIVISION in df.value.columns {
      options := options + SortedUniqueStrings(GroupValues(df.value.rows, ByDivision));
    }
    var k := 1 + |GroupOptions(df, ByConference)|;
    assert options[1..k] == GroupOptions(df, ByConference);
    assert options[k..] == GroupOptions(df, ByDivision);
  }

  // ===== apply_division_conference_filter

  function GroupFilter(rows: seq<Row>, g: Grouping, value: string): seq<Row> {
    Filter(rows, (x: Row) => GroupOf(x, g) == Some(value))
  }

  /** The filter value names a value of grouping `g` that occurs in the table. */
  predicate Matches(df: Option<Frame>, value: Option<string>, g: Grouping) {
    value.Some? && value.value != ALL_TEAMS && df.Some? && GroupColumn(g) in df.value.columns &&
    exists x :: x in df.value.rows && GroupOf(x, g) == value
  }

  /** `apply_division_conference_filter`: the rows of the named conference
      when it occurs, else of the named division when it occurs, else the
      table unchanged. */
  function ApplyDivisionConferenceFilter(df: Option<Frame>, value: Option<string>): (r: Option<Frame>)
    ensures value.None? || value == Some(ALL_TEAMS) || df.None? ==> r == df
    ensures !Matches(df, value, ByConference) && !Matches(df, value, ByDivision) ==> r == df
    ensures r.Some? <==> df.Some?
    ensures r.Some? ==> r.value.columns == df.value.columns && IsSubsequence(r.value.rows, df.value.rows)
    ensures Matches(df, value, ByConference) ==>
      forall x :: multiset(r.value.rows)[x] == if x.conference == value then multiset(df.value.rows)[x] else 0
    ensures !Matches(df, value, ByConference) && Matches(df, value, ByDivision) ==>
      forall x :: multiset(r.value.rows)[x] == if x.division == value then multiset(df.value.rows)[x] else 0
  {
    if df.None? then df
    else if value.None? || value.value == ALL_TEAMS then
      SubsequenceReflexive(df.value.rows);
      df
    else if Matches(df, value, ByConference) then Some(Frame(df.value.columns, GroupFilter(df.value.rows, ByConference, value.value)))
    else if Matches(df, value, ByDivision) then Some(Frame(df.value.columns, GroupFilter(df.value.rows, ByDivision, value.value)))
    else
      SubsequenceReflexive(df.value.rows);
      df
  }

  lemma {:induction false} GroupFilterKeepsAll(rows: seq<Row>, g: Grouping, value: string)
    requires forall x :: x in rows ==> GroupOf(x, g) == Some(value)
    ensures GroupFilter(rows, g, value) == rows
    decreases |rows|
  {
    if |rows| > 0 {
      assert rows[0] in rows;
      assert forall x :: x in rows[1..] ==> x in rows;
      GroupFilterKeepsAll(rows[1..], g, value);
      assert rows == [rows[0]] + rows[1..];
    }
  }

  /** Filtering twice by the same value filters once: the rows a conference
      match keeps still match it, and the rows a division match keeps still
      miss every conference of that name. */
  lemma ApplyFilterIdempotent(df: Option<Frame>, value: Option<string>)
    ensures ApplyDivisionConferenceFilter(ApplyDivisionConferenceFilter(df, value), value) ==
      ApplyDivisionConferenceFilter(df, value)
  {
    var once := ApplyDivisionConferenceFilter(df, value);
    if Matches(df, value, ByConference) {
      var kept := GroupFilter(df.value.rows, ByConference, value.value);
      var x :| x in df.value.rows && x.conference == value;
      assert x in kept;
      assert Matches(once, value, ByConference);
      GroupFilterKeepsAll(kept, ByConference, value.value);
    } else if Matches(df, value, ByDivision) {
      var kept := GroupFilter(df.value.rows, ByDivision, value.value);
      var x :| x in df.value.rows && x.division == value;
      assert x in kept;
      assert !Matches(once, value, ByConference);
      assert Matches(once, value, ByDivision);
      GroupFilterKeepsAll(kept, ByDivision, value.value);
    }
  }

  // ===== render_matchup_selector

  const AT := " @ "
  const WEEK_OPEN := " (Week "

  /** The option text `"{away} @ {home} (Week {week})"`. */
  function MatchupLabel(away: string, home: string, week: int): string {
    away + AT + home + WEEK_OPEN + IntToString(week) + ")"
  }

  /** Parsing the selection back: the text before the first `" @ "` is the
      away team; the home team is the second `" @ "` piece cut at its first
      `" (Week "`. `IndexError` when there is no `" @ "`, and `None` for an
      empty selection. */
  function ParseMatchup(selected: string): (r: Result<Option<(string, string)>>)
    ensures r.Err? <==> selected != "" && !Contains(selected, AT)
    ensures r == Ok(None) <==> selected == ""
    ensures r.Ok? && r.value.Some? ==>
      Find(selected, AT).Some? &&
      (var i := Find(selected, AT).value;
       r.value.value == (FirstPiece(FirstPiece(selected[i + |AT|..], AT), WEEK_OPEN), selected[..i]))
    ensures r.Ok? && r.value.Some? ==>
      !Contains(r.value.value.0, AT) && !Contains(r.value.value.0, WEEK_OPEN) && !Contains(r.value.value.1, AT)
  {
    if selected == "" then Ok(None)
    else
      match AfterFirst(selected, AT)
      case None => Err(IndexError)
      case Some(rest) =>
        var home := FirstPiece(FirstPiece(rest, AT), WEEK_OPEN);
        FirstPieceLacks(selected, AT);
        FirstPieceLacks(FirstPiece(rest, AT), WEEK_OPEN);
        FirstPieceLacks(rest, AT);
        PrefixLacks(FirstPiece(rest, AT), |home|, AT);
        Ok(Some((home, FirstPiece(selected, AT))))
  }

  /** Team names the label can carry: no separator inside, and none formed
      across the border with the text that follows the name. */
  predicate SafeAway(away: string) {
    !Contains(away, AT) && !EndsWith(away, " @")
  }

  predicate SafeHome(home: string) {
    !Contains(home, AT) && !EndsWith(home, " @") && !Contains(home, WEEK_OPEN) && !EndsWith(home, " (Week")
  }

  /** The first `" @ "` of `away + " @ " + tail` is the one after `away`. */
  lemma AtAfterAway(away: string, tail: string)
    requires SafeAway(away)
    ensures Find(away + AT + tail, AT) == Some(|away|)
  {
    var s := away + AT + tail;
    assert s == away + (AT + tail);
    OccursNowhere(away, AT);
    OccursAfter(away, AT, tail);
    forall j: nat | j < |away| ensures !OccursAt(s, AT, j) {
      if j + 3 <= |away| {
        OccursInPrefix(away, AT + tail, AT, j);
      } else if j + 1 == |away| {
        assert (AT + tail)[..2][0] != AT[1..][0];
        NotAcross(away, AT + tail, AT, j);
      } else {
        assert AT[..2] == " @";
        NotAcross(away, AT + tail, AT, j);
      }
    }
    FindFirstAt(s, AT, |away|);
  }

  /** `home` followed by text that starts with a blank and holds no `@` contains no `" @ "`. */
  lemma NoAtAfterHome(home: string, tail: string)
    requires !Contains(home, AT) && !EndsWith(home, " @")
    requires |tail| > 0 && tail[0] == ' '
    requires forall k :: 0 <= k < |tail| ==> tail[k] != '@'
    ensures Find(home + tail, AT) == None
  {
    var s := home + tail;
    OccursNowhere(home, AT);
    forall j: nat ensures !OccursAt(s, AT, j) {
      if j + 3 <= |home| {
        OccursInPrefix(home, tail, AT, j);
      } else if j + 1 == |home| {
        assert |tail| < 2 || tail[..2][0] != AT[1..][0];
        NotAcross(home, tail, AT, j);
      } else if j + 2 == |home| {
        assert AT[..2] == " @";
        NotAcross(home, tail, AT, j);
      } else if j + 3 <= |s| {
        assert s[j..j + 3][1] == s[j + 1] == tail[j + 1 - |home|];
      }
    }
    FindNowhere(s, AT);
  }

  /** The first `" (Week "` of `home + " (Week " + tail` is the one after `home`. */
  lemma WeekAfterHome(home: string, tail: string)
    requires !Contains(home, WEEK_OPEN) && !EndsWith(home, " (Week")
    ensures Find(home + WEEK_OPEN + tail, WEEK_OPEN) == Some(|home|)
  {
    var s := home + WEEK_OPEN + tail;
    assert s == home + (WEEK_OPEN + tail);
    OccursNowhere(home, WEEK_OPEN);
    OccursAfter(home, WEEK_OPEN, tail);
    forall j: nat | j < |home| ensures !OccursAt(s, WEEK_OPEN, j) {
      if j + 7 <= |home| {
        OccursInPrefix(home, WEEK_OPEN + tail, WEEK_OPEN, j);
      } else if j + 6 == |home| {
        assert WEEK_OPEN[..6] == " (Week";
        NotAcross(home, WEEK_OPEN + tail, WEEK_OPEN, j);
      } else {
        var d := |home| - j;
        assert (WEEK_OPEN + tail)[..7 - d][0] != WEEK_OPEN[d..][0];
        NotAcross(home, WEEK_OPEN + tail, WEEK_OPEN, j);
      }
    }
    FindFirstAt(s, WEEK_OPEN, |home|);
  }

  lemma NoAtInWeekText(week: int)
    ensures forall k :: 0 <= k < |WEEK_OPEN + IntToString(week) + ")"| ==> (WEEK_OPEN + IntToString(week) + ")")[k] != '@'
  {
    var digits := IntToString(week);
    forall k | 0 <= k < |WEEK_OPEN + digits + ")"| ensures (WEEK_OPEN + digits + ")")[k] != '@' {
      if 7 <= k < 7 + |digits| {
        assert (WEEK_OPEN + digits + ")")[k] == digits[k - 7];
      }
    }
  }

  /** The parse of `away + " @ " + home + " (Week " + rest`, for a `rest`
      without `@`: the away team, and the home part cut at its first `" (Week "`. */
  lemma ParseSplit(away: string, home: string, rest: string)
    requires SafeAway(away) && !Contains(home, AT) && !EndsWith(home, " @")
    requires forall k :: 0 <= k < |WEEK_OPEN + rest| ==> (WEEK_OPEN + rest)[k] != '@'
    ensures ParseMatchup(away + AT + (home + (WEEK_OPEN + rest))) ==
      Ok(Some((FirstPiece(home + (WEEK_OPEN + rest), WEEK_OPEN), away)))
  {
    var tail := home + (WEEK_OPEN + rest);
    var s := away + AT + tail;
    AtAfterAway(away, tail);
    assert s[|away| + 3..] == tail;
    assert AfterFirst(s, AT) == Some(tail);
    assert FirstPiece(s, AT) == away;
    NoAtAfterHome(home, WEEK_OPEN + rest);
    assert FirstPiece(tail, AT) == tail;
  }

  lemma ParseLabelText(away: string, home: string, rest: string)
    requires SafeAway(away) && SafeHome(home)
    requires forall k :: 0 <= k < |WEEK_OPEN + rest| ==> (WEEK_OPEN + rest)[k] != '@'
    ensures ParseMatchup(away + AT + (home + (WEEK_OPEN + rest))) == Ok(Some((home, away)))
  {
    ParseSplit(away, home, rest);
    assert home + (WEEK_OPEN + rest) == home + WEEK_OPEN + rest;
    WeekAfterHome(home, rest);
  }

  lemma LabelShape(away: string, home: string, week: int)
    ensures MatchupLabel(away, home, week) == away + AT + (home + (WEEK_OPEN + (IntToString(week) + ")")))
  {
  }

  /** A label parses back to its home and away teams whenever the names are safe. */
  lemma {:induction false} MatchupRoundTrip(away: string, home: string, week: int)
    requires SafeAway(away) && SafeHome(home)
    ensures ParseMatchup(MatchupLabel(away, home, week)) == Ok(Some((home, away)))
  {
    var rest := IntToString(week) + ")";
    NoAtInWeekText(week);
    assert WEEK_OPEN + IntToString(week) + ")" == WEEK_OPEN + rest;
    ParseLabelText(away, home, rest);
    LabelShape(away, home, week);
  }

  /** An away name ending in `" @"` is cut short: `"A @"` at `"B"` reads back
      as `"A"` at `"@ B"`, although neither name contains `" @ "`. */
  lemma AwayEndingInAtMisparses()
    ensures !Contains("A @", AT) && !Contains("B", AT)
    ensures ParseMatchup(MatchupLabel("A @", "B", 1)) == Ok(Some(("@ B", "A")))
  {
    assert Find("A @", AT).None? by {
      forall j: nat ensures !OccursAt("A @", AT, j) {
        if j == 0 {
          assert "A @"[0] != AT[0];
        }
      }
      FindNowhere("A @", AT);
    }
    TooShort("B", AT);
    assert MatchupLabel("A @", "B", 1) == MatchupLabel("A", "@ B", 1);
    TooShort("A", AT);
    TooShort("A", " @");
    assert Find("@ B", AT).None? by {
      forall j: nat ensures !OccursAt("@ B", AT, j) {
        if j == 0 {
          assert "@ B"[0] != AT[0];
        }
      }
      FindNowhere("@ B", AT);
    }
    TooShort("@ B", WEEK_OPEN);
    TooShort("@ B", " (Week");
    assert "@ B"[1..] != "@";
    MatchupRoundTrip("A", "@ B", 1);
  }

  /** A home name ending in `" (Week"` loses that ending: `h + " (Week"`
      reads back as `h`. */
  lemma HomeEndingInWeekCut(away: string, h: string, week: int)
    requires SafeAway(away) && SafeHome(h)
    ensures ParseMatchup(MatchupLabel(away, h + " (Week", week)) == Ok(Some((h, away)))
  {
    var home := h + " (Week";
    var rest := IntToString(week) + ")";
    NoAtAfterHome(h, " (Week");
    assert !EndsWith(home, " @") by {
      assert home[|home| - 1] == 'k';
    }
    NoAtInWeekText(week);
    assert WEEK_OPEN + IntToString(week) + ")" == WEEK_OPEN + rest;
    ParseSplit(away, home, rest);
    LabelShape(away, home, week);
    WeekTwice(h, rest);
    WeekAfterHome(h, "(Week " + rest);
    var t := home + (WEEK_OPEN + rest);
    assert t[..|h|] == h;
    assert FirstPiece(t, WEEK_OPEN) == h;
  }

  lemma WeekTwice(h: string, rest: string)
    ensures h + " (Week" + (WEEK_OPEN + rest) == h + WEEK_OPEN + ("(Week " + rest)
  {
    assert " (Week" + WEEK_OPEN == WEEK_OPEN + "(Week ";
    calc {
      h + " (Week" + (WEEK_OPEN + rest);
      h + (" (Week" + WEEK_OPEN) + rest;
      h + (WEEK_OPEN + "(Week ") + rest;
      h + WEEK_OPEN + ("(Week " + rest);
    }
  }

  /** So `"B (Week"`, a name with neither `" @ "` nor `" (Week "` in it, reads back as `"B"`. */
  lemma HomeEndingInWeekMisparses()
    ensures !Contains("B (Week", AT) && !Contains("B (Week", WEEK_OPEN)
    ensures ParseMatchup(MatchupLabel("A", "B (Week", 1)) == Ok(Some(("B", "A")))
  {
    LacksCharFrom("B (Week", WEEK_OPEN, 6);
    LacksCharFrom("B (Week", AT, 1);
    TooShort("A", AT);
    TooShort("A", " @");
    TooShort("B", AT);
    TooShort("B", " @");
    TooShort("B", WEEK_OPEN);
    TooShort("B", " (Week");
    assert "B" + " (Week" == "B (Week";
    HomeEndingInWeekCut("A", "B", 1);
  }

  /** A game as `drop_duplicates` on home team, away team and week sees it. */
  datatype Matchup = Matchup(home: Option<string>, away: Option<string>, week: Option<int>)

  /** A missing team name is formatted as `nan`. */
  function TeamText(t: Option<string>): string {
    if t.Some? then t.value else "nan"
  }

  /** `game_df[game_df['season'] == season]`, then the week when one is given. */
  function GamesOf(rows: seq<Row>, season: int, week: Option<int>): seq<Row> {
    Filter(rows, (x: Row) => x.season == Some(season) && (week.None? || x.week == week))
  }

  function Matchups(rows: seq<Row>): seq<Matchup> {
    FirstOccurrences(seq(|rows|, i requires 0 <= i < |rows| => Matchup(rows[i].homeTeam, rows[i].awayTeam, rows[i].week)))
  }

  /** The first of the three selected columns the table lacks. */
  function MissingMatchupColumn(columns: set<string>): Option<string> {
    if HOME_TEAM !in columns then Some(HOME_TEAM)
    else if AWAY_TEAM !in columns then Some(AWAY_TEAM)
    else if WEEK !in columns then Some(WEEK)
    else None
  }

  /** The options of the matchup selector (lines 233-252): one label per
      distinct game of the season (and week), in first-seen order. No
      options for a missing or empty table or when no game is selected;
      `int()` of a missing week raises `ValueError`. */
  method MatchupOptions(games: Option<Frame>, season: int, week: Option<int>) returns (r: Result<seq<string>>)
    ensures Absent(games) ==> r == Ok([])
    ensures !Absent(games) && SEASON !in games.value.columns ==> r == Err(KeyError(SEASON))
    ensures !Absent(games) && SEASON in games.value.columns && week.Some? && WEEK !in games.value.columns ==>
      r == Err(KeyError(WEEK))
    ensures !Absent(games) && SEASON in games.value.columns && (week.None? || WEEK in games.value.columns) ==>
      var selected := GamesOf(games.value.rows, season, week);
      (|selected| == 0 ==> r == Ok([])) &&
      (|selected| > 0 && MissingMatchupColumn(games.value.columns).Some? ==>
        r == Err(KeyError(MissingMatchupColumn(games.value.columns).value))) &&
      (|selected| > 0 && MissingMatchupColumn(games.value.columns).None? ==>
        var ms := Matchups(selected);
        (r.Err? <==> exists k :: 0 <= k < |ms| && ms[k].week.None?) &&
        (r.Err? ==> r.error == ValueError) &&
        (r.Ok? ==> |r.value| == |ms| && forall k :: 0 <= k < |ms| ==>
          ms[k].week.Some? && r.value[k] == MatchupLabel(TeamText(ms[k].away), TeamText(ms[k].home), ms[k].week.value)))
  {
    if Absent(games) {
      return Ok([]);
    }
    var f := games.value;
    if SEASON !in f.columns {
      return Err(KeyError(SEASON));
    }
    if week.Some? && WEEK !in f.columns {
      return Err(KeyError(WEEK));
    }
    var selected := GamesOf(f.rows, season, week);
    if |selected| == 0 {
      return Ok([]);
    }
    var missing := MissingMatchupColumn(f.columns);
    if missing.Some? {
      return Err(KeyError(missing.value));
    }
    var ms := Matchups(selected);
    var labels: seq<string> := [];
    var i := 0;
    while i < |ms|
      invariant 0 <= i <= |ms|
      invariant |labels| == i
      invariant forall k :: 0 <= k < i ==>
        ms[k].week.Some? && labels[k] == MatchupLabel(TeamText(ms[k].away), TeamText(ms[k].home), ms[k].week.value)
    {
      if ms[i].week.None? {
        return Err(ValueError);
      }
      labels := labels + [MatchupLabel(TeamText(ms[i].away), TeamText(ms[i].home), ms[i].week.value)];
      i := i + 1;
    }
    return Ok(labels);
  }

  /** Every option offered for a game with safe team names selects that game. */
  lemma MatchupOptionSelects(ms: seq<Matchup>, labels: seq<string>, k: nat)
    requires |labels| == |ms| && k < |ms|
    requires ms[k].week.Some? && labels[k] == MatchupLabel(TeamText(ms[k].away), TeamText(ms[k].home), ms[k].week.value)
    requires SafeAway(TeamText(ms[k].away)) && SafeHome(TeamText(ms[k].home))
    ensures ParseMatchup(labels[k]) == Ok(Some((TeamText(ms[k].home), TeamText(ms[k].away))))
  {
    MatchupRoundTrip(TeamText(ms[k].away), TeamText(ms[k].home), ms[k].week.value);
  }
}
