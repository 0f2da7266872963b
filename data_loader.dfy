/** The value extractors of `utils/data_loader.py`: the sorted distinct teams,
    seasons and weeks of a table, which feed the selectors. */
module DataLoader {
  import opened Wrappers
  import opened Text
  import opened Seqs
  import opened Tables

  /** `df[col].dropna()` of a team column, in row order. */
  function TeamValues(rows: seq<Row>, c: TeamColumn): (r: seq<string>)
    ensures forall t :: t in r <==> exists x :: x in rows && TeamOf(x, c) == Some(t)
    decreases |rows|
  {
    if |rows| == 0 then []
    else
      assert rows == [rows[0]] + rows[1..];
      (if TeamOf(rows[0], c).Some? then [TeamOf(rows[0], c).value] else []) + TeamValues(rows[1..], c)
  }

  /** `get_available_teams`: the sorted distinct non-null values of `team`,
      or of `team_name` when there is no `team` column; nothing for a `None`
      table or one with neither column. */
  function AvailableTeams(df: Option<Frame>): (r: seq<string>)
    ensures df.None? || ResolveTeamColumn(df.value.columns).None? ==> r == []
    ensures AscendingStrings(r)
    ensures forall t :: t in r <==>
      (df.Some? && ResolveTeamColumn(df.value.columns).Some? &&
       exists x :: x in df.value.rows && TeamOf(x, ResolveTeamColumn(df.value.columns).value) == Some(t))
  {
    if df.None? then []
    else
      match ResolveTeamColumn(df.value.columns)
      case Some(c) => SortedUniqueStrings(TeamValues(df.value.rows, c))
      case None => []
  }

  /** The `team` column wins over `team_name` even when both are present. */
  lemma TeamColumnPreferred(df: Option<Frame>, t: string)
    requires df.Some? && TEAM in df.value.columns
    ensures t in AvailableTeams(df) <==> exists x :: x in df.value.rows && x.team == Some(t)
  {
  }

  /** The team list names each team once. */
  lemma {:induction false} AvailableTeamsDistinct(df: Option<Frame>)
    ensures Distinct(AvailableTeams(df))
  {
    var r := AvailableTeams(df);
    forall i, j | 0 <= i < j < |r| ensures r[i] != r[j] {
      StrLtIrreflexive(r[i]);
    }
  }

  /** Any strictly ascending list of exactly the teams of the table is the
      team list: sorting leaves no choice. */
  lemma AvailableTeamsCanonical(df: Option<Frame>, teams: seq<string>)
    requires AscendingStrings(teams)
    requires forall t :: t in teams <==>
      (df.Some? && ResolveTeamColumn(df.value.columns).Some? &&
       exists x :: x in df.value.rows && TeamOf(x, ResolveTeamColumn(df.value.columns).value) == Some(t))
    ensures teams == AvailableTeams(df)
  {
    AscendingStringsUnique(teams, AvailableTeams(df));
  }

  /** The non-null seasons of the rows, in row order. */
  function SeasonValues(rows: seq<Row>): (r: seq<int>)
    ensures forall y :: y in r <==> exists x :: x in rows && x.season == Some(y)
    decreases |rows|
  {
    if |rows| == 0 then []
    else
      assert rows == [rows[0]] + rows[1..];
      (if rows[0].season.Some? then [rows[0].season.value] else []) + SeasonValues(rows[1..])
  }

  /** `get_available_seasons`: the sorted distinct non-null seasons, nothing
      for a `None` table or one without a `season` column. */
  function AvailableSeasons(df: Option<Frame>): (r: seq<int>)
    ensures df.None? || SEASON !in df.value.columns ==> r == []
    ensures AscendingInts(r)
    ensures forall y :: y in r <==>
      (df.Some? && SEASON in df.value.columns && exists x :: x in df.value.rows && x.season == Some(y))
  {
    if df.None? || SEASON !in df.value.columns then [] else SortedUniqueInts(SeasonValues(df.value.rows))
  }

  /** The rows a week list draws from: all of them, or those of one season
      (`df[df['season'] == season]`, where a missing season never matches). */
  function SeasonRows(rows: seq<Row>, season: Option<int>): (r: seq<Row>)
    ensures forall x :: x in r <==> x in rows && (season.None? || x.season == season)
  {
    if season.None? then rows else Filter(rows, (x: Row) => x.season == season)
  }

  /** The non-null weeks of the rows, in row order. */
  function WeekValues(rows: seq<Row>): (r: seq<int>)
    ensures forall w :: w in r <==> exists x :: x in rows && x.week == Some(w)
    decreases |rows|
  {
    if |rows| == 0 then []
    else
      assert rows == [rows[0]] + rows[1..];
      (if rows[0].week.Some? then [rows[0].week.value] else []) + WeekValues(rows[1..])
  }

  /** `get_available_weeks`: the sorted distinct non-null weeks, of one
      season when one is given; nothing for a `None` table or one without a
      `week` column; selecting a season of a table without a `season`
      column raises `KeyError`. */
  function AvailableWeeks(df: Option<Frame>, season: Option<int>): (r: Result<seq<int>>)
    ensures df.None? || WEEK !in df.value.columns ==> r == Ok([])
    ensures r.Err? <==> df.Some? && WEEK in df.value.columns && season.Some? && SEASON !in df.value.columns
    ensures r.Err? ==> r.error == KeyError(SEASON)
    ensures r.Ok? ==> AscendingInts(r.value)
    ensures r.Ok? ==> forall w :: w in r.value <==>
      (df.Some? && WEEK in df.value.columns &&
       exists x :: x in df.value.rows && x.week == Some(w) && (season.None? || x.season == season))
  {
    if df.None? || WEEK !in df.value.columns then Ok([])
    else if season.Some? && SEASON !in df.value.columns then Err(KeyError(SEASON))
    else Ok(SortedUniqueInts(WeekValues(SeasonRows(df.value.rows, season))))
  }

  /** Choosing a season can only narrow the week list, and every week of a
      season's list belongs to a season the season list offers. */
  lemma {:induction false} WeeksOfSeasonNarrow(df: Option<Frame>, season: int, w: int)
    requires AvailableWeeks(df, Some(season)).Ok?
    requires w in AvailableWeeks(df, Some(season)).value
    ensures AvailableWeeks(df, None).Ok? && w in AvailableWeeks(df, None).value
    ensures season in AvailableSeasons(df)
  {
    var x :| x in df.value.rows && x.week == Some(w) && x.season == Some(season);
    assert exists x :: x in df.value.rows && x.week == Some(w);
    assert exists x :: x in df.value.rows && x.season == Some(season);
  }
}
