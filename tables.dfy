/** The dashboard's tables. A pandas DataFrame is a set of column names and a
    sequence of rows; each row has a cell for every column the dashboard reads,
    `None` standing for a missing, `None` or NaN value (and for every cell of a
    column the table does not have). Cells of other columns are kept, when not
    null, in `extra`. Game rows (one team in one game), team-week rows and
    division/conference rows all use this one row type, as pandas does. */
module Tables {
  import opened Wrappers

  /** A numeric cell; `None` is NaN. Spreads, totals and EPA values are exact. */
  type Cell = Option<real>

  const SEASON := "season"
  const WEEK := "week"
  const TEAM := "team"
  const TEAM_NAME := "team_name"
  const SCORE := "score"
  const AGAINST_SCORE := "against_score"
  const SPREAD := "spread"
  const TOTAL_LINE := "total_line"
  const ATS_RESULT := "ats_result"
  const DIV_GAME := "div_game"
  const OFFENSE_EPA := "epa_per_play_offense"
  const DEFENSE_EPA := "epa_per_play_defense"
  const CONFERENCE := "conference"
  const DIVISION := "division"
  const HOME_TEAM := "home_team"
  const AWAY_TEAM := "away_team"

  datatype Row = Row(
    season: Option<int>,
    week: Option<int>,
    team: Option<string>,
    teamName: Option<string>,
    score: Cell,
    againstScore: Cell,
    spread: Cell,
    totalLine: Cell,
    atsResult: Option<string>,
    divGame: Option<bool>,
    offenseEpa: Cell,
    defenseEpa: Cell,
    conference: Option<string>,
    division: Option<string>,
    homeTeam: Option<string>,
    awayTeam: Option<string>,
    extra: map<string, string>)

  datatype Frame = Frame(columns: set<string>, rows: seq<Row>)

  /** pandas' `df.empty`: no rows, or no columns. */
  predicate IsEmpty(f: Frame) {
    |f.columns| == 0 || |f.rows| == 0
  }

  /** The frame, or `None` for a table the caller passed as `None`, is missing
      or empty (the guard `df is None or df.empty`). */
  predicate Absent(df: Option<Frame>) {
    df.None? || IsEmpty(df.value)
  }

  /** The two generations of team-identifier column. */
  datatype TeamColumn = TeamCol | TeamNameCol

  /** The team column of a table: `team` when present, else `team_name`,
      else none. */
  function ResolveTeamColumn(columns: set<string>): (r: Option<TeamColumn>)
    ensures r == Some(TeamCol) <==> TEAM in columns
    ensures r == Some(TeamNameCol) <==> TEAM !in columns && TEAM_NAME in columns
    ensures r.None? <==> TEAM !in columns && TEAM_NAME !in columns
  {
    if TEAM in columns then Some(TeamCol)
    else if TEAM_NAME in columns then Some(TeamNameCol)
    else None
  }

  /** The team column a grouping reads: `team` when present, else
      `team_name`; reading it raises `KeyError('team_name')` when neither
      column exists. */
  function RequireTeamColumn(columns: set<string>): (r: Result<TeamColumn>)
    ensures r.Ok? <==> ResolveTeamColumn(columns).Some?
    ensures r.Ok? ==> r.value == ResolveTeamColumn(columns).value
    ensures r.Err? ==> r.error == KeyError(TEAM_NAME)
  {
    match ResolveTeamColumn(columns)
    case Some(c) => Ok(c)
    case None => Err(KeyError(TEAM_NAME))
  }

  function TeamOf(row: Row, c: TeamColumn): Option<string> {
    match c
    case TeamCol => row.team
    case TeamNameCol => row.teamName
  }

  /** A Python value used as a condition: `if team:` is false for `None` and ''. */
  predicate NonEmptyText(s: Option<string>) {
    s.Some? && s.value != ""
  }
}
