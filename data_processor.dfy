/** The analytics of `utils/data_processor.py`: the current week, row
    selection by season, week and team, against-the-spread (ATS) and
    over/under records, situational ATS splits, EPA-based betting edges, the
    head-to-head EPA differential, recent trends and the injury scan. Each
    pandas call becomes a function over `Frame`s; a `KeyError` or `ValueError`
    that pandas would raise becomes an `Err` result. */
module DataProcessor {
  import opened Wrappers
  import opened Text
  import opened Seqs
  import opened Tables

  /** The last week of the regular season; the current week is held there. */
  const FINAL_WEEK := 18

  // ===== get_current_week

  /** `m` is the largest present value of `xs`, or `None` when every value is missing. */
  ghost predicate IsMaxOf(m: Option<int>, xs: seq<Option<int>>) {
    (m.None? <==> forall i :: 0 <= i < |xs| ==> xs[i].None?) &&
    (m.Some? ==> m in xs && forall i :: 0 <= i < |xs| && xs[i].Some? ==> xs[i].value <= m.value)
  }

  /** pandas' `Series.max()`, which skips missing values. */
  function MaxPresent(xs: seq<Option<int>>): (r: Option<int>)
    ensures IsMaxOf(r, xs)
    decreases |xs|
  {
    if |xs| == 0 then None
    else
      var rest := MaxPresent(xs[1..]);
      assert xs == [xs[0]] + xs[1..];
      assert forall i :: 1 <= i < |xs| ==> xs[i] == xs[1..][i - 1];
      if xs[0].None? then rest
      else if rest.None? || rest.value <= xs[0].value then xs[0]
      else rest
  }

  function Seasons(rows: seq<Row>): seq<Option<int>> {
    seq(|rows|, i requires 0 <= i < |rows| => rows[i].season)
  }

  predicate InSeason(row: Row, s: int) {
    row.season == Some(s)
  }

  /** The week column of the rows of season `s`. */
  function WeeksOfSeason(rows: seq<Row>, s: int): seq<Option<int>> {
    var played := Filter(rows, (row: Row) => InSeason(row, s));
    seq(|played|, i requires 0 <= i < |played| => played[i].week)
  }

  /** The week after `latest`, held at `FINAL_WEEK`; week 1 when no week is known. */
  function NextWeek(latest: Option<int>): int {
    match latest
    case None => 1
    case Some(w) => if w < FINAL_WEEK then w + 1 else w
  }

  /** `get_current_week`: the latest season and the week after the latest week
      played in it. `year` is the calendar year the source reads from the clock
      when there is no data. */
  function GetCurrentWeek(df: Option<Frame>, year: int): (r: Result<(int, int)>)
    ensures Absent(df) ==> r == Ok((year, 1))
    ensures !Absent(df) && SEASON !in df.value.columns ==> r == Err(KeyError(SEASON))
    ensures !Absent(df) && SEASON in df.value.columns && WEEK !in df.value.columns ==> r == Err(KeyError(WEEK))
    ensures !Absent(df) && SEASON in df.value.columns && WEEK in df.value.columns ==>
      (r == Err(ValueError) <==> forall i :: 0 <= i < |df.value.rows| ==> df.value.rows[i].season.None?)
    ensures r.Ok? && !Absent(df) ==>
      IsMaxOf(Some(r.value.0), Seasons(df.value.rows)) &&
      r.value.1 == NextWeek(MaxPresent(WeeksOfSeason(df.value.rows, r.value.0)))
  {
    if Absent(df) then Ok((year, 1))
    else if SEASON !in df.value.columns then Err(KeyError(SEASON))
    else if WEEK !in df.value.columns then Err(KeyError(WEEK))
    else
      var rows := df.value.rows;
      match MaxPresent(Seasons(rows))
      case None =>
        // int(NaN) raises
        assert forall i :: 0 <= i < |rows| ==> Seasons(rows)[i] == rows[i].season;
        Err(ValueError)
      case Some(s) =>
        assert exists i :: 0 <= i < |rows| && Seasons(rows)[i] == Some(s);
        Ok((s, NextWeek(MaxPresent(WeeksOfSeason(rows, s)))))
  }

  /** The current week follows every week played in the latest season, except
      that it stays at the latest week once that reaches `FINAL_WEEK`; it is
      week 1 when that season has no week; it never passes `FINAL_WEEK` when
      the data does not. */
  lemma {:induction false} CurrentWeekBounds(df: Frame, year: int)
    requires !IsEmpty(df) && GetCurrentWeek(Some(df), year).Ok?
    ensures var (season, week) := GetCurrentWeek(Some(df), year).value;
      var weeks := WeeksOfSeason(df.rows, season);
      ((forall i :: 0 <= i < |weeks| ==> weeks[i].None?) ==> week == 1) &&
      (forall i :: 0 <= i < |weeks| && weeks[i].Some? ==>
         weeks[i].value < week || (weeks[i].value <= week && week >= FINAL_WEEK)) &&
      ((forall i :: 0 <= i < |weeks| && weeks[i].Some? ==> weeks[i].value <= FINAL_WEEK) ==> week <= FINAL_WEEK)
  {
    var (season, week) := GetCurrentWeek(Some(df), year).value;
    var weeks := WeeksOfSeason(df.rows, season);
    var latest := MaxPresent(weeks);
    assert week == NextWeek(latest);
    if latest.Some? {
      var k :| 0 <= k < |weeks| && weeks[k] == latest;
      assert weeks[k].Some?;
    }
  }

  // ===== filter_by_season_week

  /** The `weeks` argument: `None`, a `(min, max)` tuple, a list, or a value of
      any other type (which filters nothing). */
  datatype WeekSpec = NoWeekFilter | WeekRange(lo: int, hi: int) | WeekList(weeks: seq<int>) | OtherWeekValue

  predicate SeasonFilterOn(seasons: Option<seq<int>>) {
    seasons.Some? && |seasons.value| > 0
  }

  predicate WeekFilterOn(weeks: WeekSpec) {
    weeks.WeekRange? || weeks.WeekList?
  }

  predicate TeamFilterOn(teams: Option<seq<string>>) {
    teams.Some? && |teams.value| > 0
  }

  /** A missing season is never `isin` a list. */
  predicate SeasonKept(row: Row, seasons: Option<seq<int>>) {
    !SeasonFilterOn(seasons) || (row.season.Some? && row.season.value in seasons.value)
  }

  /** A missing week fails both range comparisons; an empty list keeps nothing. */
  predicate WeekKept(row: Row, weeks: WeekSpec) {
    match weeks
    case WeekRange(lo, hi) => row.week.Some? && lo <= row.week.value <= hi
    case WeekList(ws) => row.week.Some? && row.week.value in ws
    case _ => true
  }

  /** Without a team column the team filter is skipped. */
  predicate TeamKept(columns: set<string>, row: Row, teams: Option<seq<string>>) {
    !TeamFilterOn(teams) ||
    match ResolveTeamColumn(columns)
    case None => true
    case Some(c) => TeamOf(row, c).Some? && TeamOf(row, c).value in teams.value
  }

  predicate Selected(columns: set<string>, row: Row, seasons: Option<seq<int>>, weeks: WeekSpec, teams: Option<seq<string>>) {
    SeasonKept(row, seasons) && WeekKept(row, weeks) && TeamKept(columns, row, teams)
  }

  /** `filter_by_season_week`: the rows meeting every requested condition, in
      their original order, with the columns unchanged. */
  function FilterBySeasonWeek(df: Option<Frame>, seasons: Option<seq<int>>, weeks: WeekSpec, teams: Option<seq<string>>): (r: Result<Option<Frame>>)
    ensures Absent(df) ==> r == Ok(df)
    ensures !Absent(df) && SeasonFilterOn(seasons) && SEASON !in df.value.columns ==> r == Err(KeyError(SEASON))
    ensures !Absent(df) && r.Err? ==> (SeasonFilterOn(seasons) && SEASON !in df.value.columns) || (WeekFilterOn(weeks) && WEEK !in df.value.columns && r == Err(KeyError(WEEK)))
    ensures !Absent(df) && (!SeasonFilterOn(seasons) || SEASON in df.value.columns) && (!WeekFilterOn(weeks) || WEEK in df.value.columns) ==> r.Ok?
    ensures r.Ok? && !Absent(df) ==>
      r.value.Some? && r.value.value.columns == df.value.columns &&
      IsSubsequence(r.value.value.rows, df.value.rows) &&
      forall x :: multiset(r.value.value.rows)[x] ==
        if Selected(df.value.columns, x, seasons, weeks, teams) then multiset(df.value.rows)[x] else 0
  {
    if Absent(df) then Ok(df)
    else
      var f := df.value;
      if SeasonFilterOn(seasons) && SEASON !in f.columns then Err(KeyError(SEASON))
      else if WeekFilterOn(weeks) && WEEK !in f.columns then Err(KeyError(WEEK))
      else
        var bySeason := Filter(f.rows, (row: Row) => SeasonKept(row, seasons));
        var byWeek := Filter(bySeason, (row: Row) => WeekKept(row, weeks));
        var byTeam := Filter(byWeek, (row: Row) => TeamKept(f.columns, row, teams));
        SubsequenceTransitive(byTeam, byWeek, bySeason);
        SubsequenceTransitive(byTeam, bySeason, f.rows);
        Ok(Some(Frame(f.columns, byTeam)))
  }

  // ===== the ATS and over/under letters

  const WIN := "W"
  const LOSS := "L"
  const PUSH := "P"
  const OVER := "O"
  const UNDER := "U"

  /** `margin + spread`, with `margin = score - against_score`: positive when
      the team covered. `None` (NaN) when any of the three is missing. */
  function CoverMargin(row: Row): Cell {
    if row.score.Some? && row.againstScore.Some? && row.spread.Some? then
      Some(row.score.value - row.againstScore.value + row.spread.value)
    else None
  }

  /** The ATS letter of lines 110-115. Both comparisons fail on NaN, so a row
      with a missing score or spread is a push. */
  function AtsLetter(row: Row): (r: string)
    ensures r == WIN <==> CoverMargin(row).Some? && CoverMargin(row).value > 0.0
    ensures r == LOSS <==> CoverMargin(row).Some? && CoverMargin(row).value < 0.0
    ensures r == PUSH <==> CoverMargin(row).None? || CoverMargin(row).value == 0.0
  {
    var m := CoverMargin(row);
    if m.Some? && m.value > 0.0 then WIN
    else if m.Some? && m.value < 0.0 then LOSS
    else PUSH
  }

  /** `score + against_score`, `None` when either is missing. */
  function TotalPoints(row: Row): Cell {
    if row.score.Some? && row.againstScore.Some? then Some(row.score.value + row.againstScore.value) else None
  }

  /** The over/under letter of lines 261-266; a NaN total or line is a push. */
  function TotalLetter(row: Row): (r: string)
    ensures r == OVER <==> TotalPoints(row).Some? && row.totalLine.Some? && TotalPoints(row).value > row.totalLine.value
    ensures r == UNDER <==> TotalPoints(row).Some? && row.totalLine.Some? && TotalPoints(row).value < row.totalLine.value
    ensures r == PUSH <==> TotalPoints(row).None? || row.totalLine.None? || TotalPoints(row).value == row.totalLine.value
  {
    var t := TotalPoints(row);
    if t.Some? && row.totalLine.Some? && t.value > row.totalLine.value then OVER
    else if t.Some? && row.totalLine.Some? && t.value < row.totalLine.value then UNDER
    else PUSH
  }

  // ===== groupby(team).agg(count, (x == 'W').sum(), ...)

  /** Where each row's result letter comes from: the stored `ats_result`
      column, the ATS letter computed from the scores, or the over/under letter. */
  datatype Labeling = StoredAts | RecomputedAts | OverUnder

  function Label(row: Row, how: Labeling): Option<string> {
    match how
    case StoredAts => row.atsResult
    case RecomputedAts => Some(AtsLetter(row))
    case OverUnder => Some(TotalLetter(row))
  }

  /** One row of the two columns handed to `groupby`: the group key and the result. */
  datatype Tagged = Tagged(team: Option<string>, outcome: Option<string>)

  function Tag(rows: seq<Row>, c: TeamColumn, how: Labeling): seq<Tagged> {
    seq(|rows|, i requires 0 <= i < |rows| => Tagged(TeamOf(rows[i], c), Label(rows[i], how)))
  }

  /** `count`: the team's rows with a non-null result. */
  function Games(tags: seq<Tagged>, t: string): nat
    decreases |tags|
  {
    if |tags| == 0 then 0
    else (if tags[0].team == Some(t) && tags[0].outcome.Some? then 1 else 0) + Games(tags[1..], t)
  }

  /** `(x == letter).sum()` within the team's group. */
  function CountLabel(tags: seq<Tagged>, t: string, letter: string): nat
    decreases |tags|
  {
    if |tags| == 0 then 0
    else (if tags[0].team == Some(t) && tags[0].outcome == Some(letter) then 1 else 0) + CountLabel(tags[1..], t, letter)
  }

  /** Three different letters never count more than the team's games, and
      count all of them when every result of the team is one of the three. */
  lemma {:induction false} LetterCountsAddUp(tags: seq<Tagged>, t: string, a: string, b: string, c: string)
    requires a != b && b != c && a != c
    ensures CountLabel(tags, t, a) + CountLabel(tags, t, b) + CountLabel(tags, t, c) <= Games(tags, t)
    ensures (forall i :: 0 <= i < |tags| && tags[i].team == Some(t) ==>
               tags[i].outcome == Some(a) || tags[i].outcome == Some(b) || tags[i].outcome == Some(c)) ==>
            CountLabel(tags, t, a) + CountLabel(tags, t, b) + CountLabel(tags, t, c) == Games(tags, t)
    decreases |tags|
  {
    if |tags| > 0 {
      LetterCountsAddUp(tags[1..], t, a, b, c);
      assert forall i :: 1 <= i < |tags| ==> tags[1..][i - 1] == tags[i];
    }
  }

  function LetterTotal(tags: seq<Tagged>, t: string, win: string, loss: string): nat {
    CountLabel(tags, t, win) + CountLabel(tags, t, loss) + CountLabel(tags, t, PUSH)
  }

  /** The non-null group keys, in row order. */
  function PresentTeams(tags: seq<Tagged>): (r: seq<string>)
    ensures forall t :: t in r <==> exists i :: 0 <= i < |tags| && tags[i].team == Some(t)
    decreases |tags|
  {
    if |tags| == 0 then []
    else
      var rest := PresentTeams(tags[1..]);
      assert forall i :: 1 <= i < |tags| ==> tags[1..][i - 1] == tags[i];
      assert forall t :: (exists i :: 0 <= i < |tags| - 1 && tags[1..][i].team == Some(t)) ==>
        exists i :: 0 <= i < |tags| && tags[i].team == Some(t);
      if tags[0].team.Some? then [tags[0].team.value] + rest else rest
  }

  // ===== the record string and the win percentage

  /** `f"{wins}-{losses}"`, followed by `-{pushes}` when pushes are shown and there are some. */
  function RecordString(wins: nat, losses: nat, pushes: nat, withPushes: bool): string {
    NatToString(wins) + "-" + NatToString(losses) + (if withPushes && pushes > 0 then "-" + NatToString(pushes) else "")
  }

  /** Python's `s.split('-')`. */
  function SplitDash(s: string): (r: seq<string>)
    ensures |r| > 0
    decreases |s|
  {
    match Find(s, "-")
    case None => [s]
    case Some(i) => [s[..i]] + SplitDash(s[i + 1..])
  }

  /** Reads a record string back: two or three dash-separated numbers, the
      pushes being 0 when there is no third. */
  function ParseRecord(s: string): Option<(nat, nat, nat)> {
    var parts := SplitDash(s);
    if (|parts| == 2 || |parts| == 3) && forall k :: 0 <= k < |parts| ==> parts[k] != "" && AllDigits(parts[k]) then
      Some((ParseNat(parts[0]), ParseNat(parts[1]), if |parts| == 3 then ParseNat(parts[2]) else 0))
    else None
  }

  lemma SplitDigitsAlone(a: string)
    requires AllDigits(a)
    ensures SplitDash(a) == [a]
  {
    forall j: nat ensures !OccursAt(a, "-", j) {
      if j + 1 <= |a| {
        assert a[j..j + 1] == [a[j]];
      }
    }
    FindNowhere(a, "-");
  }

  lemma SplitDigitsFirst(a: string, b: string)
    requires AllDigits(a)
    ensures SplitDash(a + "-" + b) == [a] + SplitDash(b)
  {
    var s := a + "-" + b;
    assert s[|a|..|a| + 1] == "-";
    forall j: nat | j < |a| ensures !OccursAt(s, "-", j) {
      assert s[j..j + 1] == [a[j]];
    }
    FindFirstAt(s, "-", |a|);
    assert s[..|a|] == a && s[|a| + 1..] == b;
  }

  /** Two or three non-empty digit pieces read back as their numbers. */
  lemma ParseOfPieces(s: string, parts: seq<string>)
    requires SplitDash(s) == parts && (|parts| == 2 || |parts| == 3)
    requires forall k :: 0 <= k < |parts| ==> parts[k] != "" && AllDigits(parts[k])
    ensures ParseRecord(s) == Some((ParseNat(parts[0]), ParseNat(parts[1]), if |parts| == 3 then ParseNat(parts[2]) else 0))
  {
  }

  lemma ParseTwoParts(wins: nat, losses: nat)
    ensures ParseRecord(NatToString(wins) + "-" + NatToString(losses)) == Some((wins, losses, 0))
  {
    var w, l := NatToString(wins), NatToString(losses);
    ParseNatToString(wins);
    ParseNatToString(losses);
    SplitDigitsFirst(w, l);
    SplitDigitsAlone(l);
    ParseOfPieces(w + "-" + l, [w, l]);
  }

  lemma ParseThreeParts(wins: nat, losses: nat, pushes: nat)
    ensures ParseRecord(NatToString(wins) + "-" + (NatToString(losses) + "-" + NatToString(pushes))) == Some((wins, losses, pushes))
  {
    var w, l, p := NatToString(wins), NatToString(losses), NatToString(pushes);
    ParseNatToString(wins);
    ParseNatToString(losses);
    ParseNatToString(pushes);
    SplitDigitsFirst(l, p);
    SplitDigitsAlone(p);
    assert SplitDash(l + "-" + p) == [l, p];
    SplitDigitsFirst(w, l + "-" + p);
    ParseOfPieces(w + "-" + (l + "-" + p), [w, l, p]);
  }

  /** The record string round-trips: it shows the wins, the losses and, when
      pushes are shown, the pushes. */
  lemma RecordStringParses(wins: nat, losses: nat, pushes: nat, withPushes: bool)
    ensures ParseRecord(RecordString(wins, losses, pushes, withPushes)) == Some((wins, losses, if withPushes then pushes else 0))
  {
    if withPushes && pushes > 0 {
      var w, l, p := NatToString(wins), NatToString(losses), NatToString(pushes);
      assert RecordString(wins, losses, pushes, withPushes) == w + "-" + (l + "-" + p);
      ParseThreeParts(wins, losses, pushes);
    } else {
      assert RecordString(wins, losses, pushes, withPushes) == NatToString(wins) + "-" + NatToString(losses);
      ParseTwoParts(wins, losses);
    }
  }

  /** `pct` is the share of decisions won: undefined without decisions,
      otherwise a value in [0, 1] that times the decisions gives the wins. */
  predicate IsWinShare(pct: Cell, wins: nat, losses: nat) {
    (pct.None? <==> wins + losses == 0) &&
    (pct.Some? ==> 0.0 <= pct.value <= 1.0 && pct.value * (wins + losses) as real == wins as real)
  }

  /** `wins / (wins + losses)` before rounding; NaN when there are neither. */
  function WinPct(wins: nat, losses: nat): (r: Cell)
    ensures IsWinShare(r, wins, losses)
  {
    if wins + losses == 0 then None else Some(wins as real / (wins + losses) as real)
  }

  /** One line of an ATS or over/under summary. */
  datatype RecordLine = RecordLine(team: string, games: nat, wins: nat, losses: nat, pushes: nat, record: string, pct: Cell)

  /** What every summary line satisfies. */
  predicate WellFormedLine(l: RecordLine, withPushes: bool) {
    l.wins + l.losses + l.pushes <= l.games &&
    ParseRecord(l.record) == Some((l.wins, l.losses, if withPushes then l.pushes else 0)) &&
    IsWinShare(l.pct, l.wins, l.losses)
  }

  function TeamsOf(lines: seq<RecordLine>): seq<string> {
    seq(|lines|, i requires 0 <= i < |lines| => lines[i].team)
  }

  lemma LineWellFormed(t: string, games: nat, w: nat, l: nat, p: nat, withPushes: bool)
    requires w + l + p <= games
    ensures WellFormedLine(RecordLine(t, games, w, l, p, RecordString(w, l, p, withPushes), WinPct(w, l)), withPushes)
  {
    var line := RecordLine(t, games, w, l, p, RecordString(w, l, p, withPushes), WinPct(w, l));
    RecordStringParses(w, l, p, withPushes);
    assert ParseRecord(line.record) == Some((w, l, if withPushes then p else 0));
  }

  /** The summary line of team `t`. */
  function Line(tags: seq<Tagged>, t: string, win: string, loss: string, withPushes: bool): (l: RecordLine)
    requires win != loss && win != PUSH && loss != PUSH
    ensures l.team == t && l.games == Games(tags, t)
    ensures l.wins == CountLabel(tags, t, win) && l.losses == CountLabel(tags, t, loss) && l.pushes == CountLabel(tags, t, PUSH)
    ensures WellFormedLine(l, withPushes)
  {
    var w, lo, p := CountLabel(tags, t, win), CountLabel(tags, t, loss), CountLabel(tags, t, PUSH);
    LetterCountsAddUp(tags, t, win, loss, PUSH);
    LineWellFormed(t, Games(tags, t), w, lo, p, withPushes);
    RecordLine(t, Games(tags, t), w, lo, p, RecordString(w, lo, p, withPushes), WinPct(w, lo))
  }

  /** `groupby(team_col).agg(...).reset_index()`: one line per non-null team,
      in ascending team order, each tallying that team's rows. */
  function Tabulate(tags: seq<Tagged>, win: string, loss: string, withPushes: bool): (r: seq<RecordLine>)
    requires win != loss && win != PUSH && loss != PUSH
    ensures AscendingStrings(TeamsOf(r))
    ensures forall t :: t in TeamsOf(r) <==> exists i :: 0 <= i < |tags| && tags[i].team == Some(t)
    ensures forall l :: l in r ==> l == Line(tags, l.team, win, loss, withPushes)
  {
    var keys := SortedUniqueStrings(PresentTeams(tags));
    var r := seq(|keys|, i requires 0 <= i < |keys| => Line(tags, keys[i], win, loss, withPushes));
    assert TeamsOf(r) == keys;
    r
  }

  // ===== calculate_ats_record

  /** `df[df['team'] == team]` when a team is given; a frame without a `team`
      column raises. */
  function TeamScope(f: Frame, team: Option<string>): (r: Result<seq<Row>>)
    ensures r.Err? <==> NonEmptyText(team) && TEAM !in f.columns
    ensures r.Err? ==> r.error == KeyError(TEAM)
    ensures r.Ok? ==> IsSubsequence(r.value, f.rows)
    ensures r.Ok? ==> forall x :: x in r.value <==> x in f.rows && (!NonEmptyText(team) || x.team == team)
  {
    if !NonEmptyText(team) then
      SubsequenceReflexive(f.rows);
      Ok(f.rows)
    else if TEAM !in f.columns then Err(KeyError(TEAM))
    else Ok(Filter(f.rows, (row: Row) => row.team == team))
  }

  predicate RecomputesAts(columns: set<string>) {
    SPREAD in columns && SCORE in columns && AGAINST_SCORE in columns
  }

  /** Where the ATS letters come from, if anywhere: recomputed when the spread
      and both scores are there (line 108), else a stored `ats_result` column. */
  function AtsLabeling(columns: set<string>): (r: Option<Labeling>)
    ensures r == Some(RecomputedAts) <==> RecomputesAts(columns)
    ensures r == Some(StoredAts) <==> !RecomputesAts(columns) && ATS_RESULT in columns
    ensures r.None? <==> !RecomputesAts(columns) && ATS_RESULT !in columns
  {
    if RecomputesAts(columns) then Some(RecomputedAts)
    else if ATS_RESULT in columns then Some(StoredAts)
    else None
  }

  function PctKey(l: RecordLine): Key {
    [l.pct]
  }

  /** Lines in descending win-percentage order, NaN percentages last. */
  predicate PctDescending(lines: seq<RecordLine>) {
    forall i, j :: 0 <= i < j < |lines| ==>
      lines[j].pct.None? || (lines[i].pct.Some? && lines[i].pct.value >= lines[j].pct.value)
  }

  predicate DistinctTeams(lines: seq<RecordLine>) {
    forall i, j :: 0 <= i < j < |lines| ==> lines[i].team != lines[j].team
  }

  lemma SortedByPct(lines: seq<RecordLine>)
    requires SortedBy(lines, PctKey, true)
    ensures PctDescending(lines)
  {
    forall i, j | 0 <= i < j < |lines|
      ensures lines[j].pct.None? || (lines[i].pct.Some? && lines[i].pct.value >= lines[j].pct.value)
    {
      assert KeyLe(PctKey(lines[i]), PctKey(lines[j]), true);
      assert PctKey(lines[i])[1..] == [] && PctKey(lines[j])[1..] == [];
    }
  }

  lemma {:induction false} AscendingTeamsDistinct(lines: seq<RecordLine>)
    requires AscendingStrings(TeamsOf(lines))
    ensures DistinctTeams(lines) && Distinct(lines)
  {
    forall i, j | 0 <= i < j < |lines| ensures lines[i].team != lines[j].team {
      assert TeamsOf(lines)[i] == lines[i].team && TeamsOf(lines)[j] == lines[j].team;
      StrLtIrreflexive(lines[i].team);
    }
  }

  /** Reordering lines with distinct teams keeps the teams distinct. */
  lemma {:induction false} PermutedTeamsDistinct(a: seq<RecordLine>, b: seq<RecordLine>)
    requires DistinctTeams(a) && multiset(a) == multiset(b)
    ensures DistinctTeams(b)
  {
    assert Distinct(a) by {
      forall i, j | 0 <= i < j < |a| ensures a[i] != a[j] {
        assert a[i].team != a[j].team;
      }
    }
    forall i, j | 0 <= i < j < |b| ensures b[i].team != b[j].team {
      assert b[i] in multiset(a) && b[j] in multiset(a);
      var p :| 0 <= p < |a| && a[p] == b[i];
      var q :| 0 <= q < |a| && a[q] == b[j];
      if p == q {
        RepeatCountsTwice(b, i, j);
        DistinctCountsOnce(a, b[i]);
        assert false;
      } else if p < q {
        assert a[p].team != a[q].team;
      } else {
        assert a[q].team != a[p].team;
      }
    }
  }

  /** Sorting summary lines by percentage keeps the lines and their teams. */
  lemma SortedSummary(lines: seq<RecordLine>, sorted: seq<RecordLine>)
    requires AscendingStrings(TeamsOf(lines))
    requires SortedBy(sorted, PctKey, true) && multiset(sorted) == multiset(lines)
    ensures PctDescending(sorted) && DistinctTeams(sorted)
    ensures forall l :: l in sorted <==> l in lines
    ensures forall t :: t in TeamsOf(sorted) <==> t in TeamsOf(lines)
  {
    SortedByPct(sorted);
    AscendingTeamsDistinct(lines);
    PermutedTeamsDistinct(lines, sorted);
    forall l ensures l in sorted <==> l in lines {
      assert l in sorted <==> l in multiset(sorted);
    }
    forall t ensures t in TeamsOf(sorted) <==> t in TeamsOf(lines) {
      if t in TeamsOf(sorted) {
        var k :| 0 <= k < |sorted| && TeamsOf(sorted)[k] == t;
        assert sorted[k] in lines;
        var m :| 0 <= m < |lines| && lines[m] == sorted[k];
        assert TeamsOf(lines)[m] == t;
      }
      if t in TeamsOf(lines) {
        var k :| 0 <= k < |lines| && TeamsOf(lines)[k] == t;
        assert lines[k] in sorted;
        var m :| 0 <= m < |sorted| && sorted[m] == lines[k];
        assert TeamsOf(sorted)[m] == t;
      }
    }
  }

  /** The group keys of the tagged rows are the teams of the rows. */
  lemma TagTeams(rows: seq<Row>, c: TeamColumn, how: Labeling)
    ensures forall t :: (exists i :: 0 <= i < |Tag(rows, c, how)| && Tag(rows, c, how)[i].team == Some(t)) <==>
      exists x :: x in rows && TeamOf(x, c) == Some(t)
  {
    var tags := Tag(rows, c, how);
    forall t | exists x :: x in rows && TeamOf(x, c) == Some(t)
      ensures exists i :: 0 <= i < |tags| && tags[i].team == Some(t)
    {
      var x :| x in rows && TeamOf(x, c) == Some(t);
      var i :| 0 <= i < |rows| && rows[i] == x;
      assert tags[i].team == Some(t);
    }
  }

  /** A computed letter is always one of the three, so the counts add up to the games. */
  lemma ComputedLettersAddUp(rows: seq<Row>, c: TeamColumn, how: Labeling, win: string, loss: string)
    requires (how == RecomputedAts && win == WIN && loss == LOSS) || (how == OverUnder && win == OVER && loss == UNDER)
    ensures forall t :: LetterTotal(Tag(rows, c, how), t, win, loss) == Games(Tag(rows, c, how), t)
  {
    forall t ensures LetterTotal(Tag(rows, c, how), t, win, loss) == Games(Tag(rows, c, how), t) {
      LetterCountsAddUp(Tag(rows, c, how), t, win, loss, PUSH);
    }
  }

  /** `calculate_ats_record` on the already scoped rows. */
  function AtsSummary(rows: seq<Row>, c: TeamColumn, how: Labeling): (r: seq<RecordLine>)
    ensures PctDescending(r) && DistinctTeams(r)
    ensures forall l :: l in r ==> l == Line(Tag(rows, c, how), l.team, WIN, LOSS, true)
    ensures forall t :: t in TeamsOf(r) <==> exists x :: x in rows && TeamOf(x, c) == Some(t)
  {
    var lines := Tabulate(Tag(rows, c, how), WIN, LOSS, true);
    var sorted := SortBy(lines, PctKey, true);
    SortedSummary(lines, sorted);
    TagTeams(rows, c, how);
    sorted
  }

  /** `calculate_ats_record`: one line per team of the (team-filtered) rows,
      sorted by win percentage, highest first. `location` is not used by the
      source and is not a parameter here. */
  function CalculateAtsRecord(df: Option<Frame>, team: Option<string>): (r: Result<seq<RecordLine>>)
    ensures Absent(df) ==> r == Ok([])
    ensures !Absent(df) && NonEmptyText(team) && TEAM !in df.value.columns ==> r == Err(KeyError(TEAM))
    ensures !Absent(df) && !(NonEmptyText(team) && TEAM !in df.value.columns) ==>
      (r.Err? <==> AtsLabeling(df.value.columns).Some? && ResolveTeamColumn(df.value.columns).None?) &&
      (r.Err? ==> r.error == KeyError(TEAM_NAME))
    ensures !Absent(df) && AtsLabeling(df.value.columns).None? && r.Ok? ==> r.value == []
    ensures r.Ok? ==> PctDescending(r.value) && DistinctTeams(r.value)
    ensures r.Ok? ==> forall l :: l in r.value ==> WellFormedLine(l, true)
    ensures r.Ok? && !Absent(df) && RecomputesAts(df.value.columns) ==>
      forall l :: l in r.value ==> l.games == l.wins + l.losses + l.pushes
    ensures r.Ok? && !Absent(df) && AtsLabeling(df.value.columns).Some? ==>
      var c := ResolveTeamColumn(df.value.columns).value;
      forall t :: t in TeamsOf(r.value) <==>
        exists x :: x in df.value.rows && (!NonEmptyText(team) || x.team == team) && TeamOf(x, c) == Some(t)
    ensures r.Ok? && !Absent(df) && AtsLabeling(df.value.columns).Some? ==>
      forall l :: l in r.value ==>
        l == Line(Tag(TeamScope(df.value, team).value, ResolveTeamColumn(df.value.columns).value,
                      AtsLabeling(df.value.columns).value), l.team, WIN, LOSS, true)
  {
    if Absent(df) then Ok([])
    else
      var rows :- TeamScope(df.value, team);
      match AtsLabeling(df.value.columns)
      case None => Ok([])
      case Some(how) =>
        var c :- RequireTeamColumn(df.value.columns);
        if how == RecomputedAts then
          ComputedLettersAddUp(rows, c, how, WIN, LOSS);
          Ok(AtsSummary(rows, c, how))
        else
          Ok(AtsSummary(rows, c, how))
  }

  /** Each recomputed ATS line counts exactly the team's games it reports:
      the wins are the rows whose score margin plus spread is positive, the
      losses those where it is negative, the pushes the rest. */
  lemma {:induction false} AtsCountsGames(rows: seq<Row>, c: TeamColumn, t: string)
    ensures CountLabel(Tag(rows, c, RecomputedAts), t, WIN) ==
      Count(rows, (x: Row) => TeamOf(x, c) == Some(t) && CoverMargin(x).Some? && CoverMargin(x).value > 0.0)
    ensures CountLabel(Tag(rows, c, RecomputedAts), t, LOSS) ==
      Count(rows, (x: Row) => TeamOf(x, c) == Some(t) && CoverMargin(x).Some? && CoverMargin(x).value < 0.0)
    ensures CountLabel(Tag(rows, c, RecomputedAts), t, PUSH) ==
      Count(rows, (x: Row) => TeamOf(x, c) == Some(t) && (CoverMargin(x).None? || CoverMargin(x).value == 0.0))
    ensures Games(Tag(rows, c, RecomputedAts), t) == Count(rows, (x: Row) => TeamOf(x, c) == Some(t))
    decreases |rows|
  {
    if |rows| > 0 {
      assert Tag(rows, c, RecomputedAts)[1..] == Tag(rows[1..], c, RecomputedAts);
      AtsCountsGames(rows[1..], c, t);
    }
  }

  /** Each over/under line counts exactly the team's games it reports: the
      overs are the rows whose points exceed the line, the unders those that
      fall short of it, the pushes the rest, a missing score or line included. */
  lemma {:induction false} OverUnderCountsGames(rows: seq<Row>, c: TeamColumn, t: string)
    ensures CountLabel(Tag(rows, c, OverUnder), t, OVER) ==
      Count(rows, (x: Row) => TeamOf(x, c) == Some(t) && TotalPoints(x).Some? && x.totalLine.Some? &&
        TotalPoints(x).value > x.totalLine.value)
    ensures CountLabel(Tag(rows, c, OverUnder), t, UNDER) ==
      Count(rows, (x: Row) => TeamOf(x, c) == Some(t) && TotalPoints(x).Some? && x.totalLine.Some? &&
        TotalPoints(x).value < x.totalLine.value)
    ensures CountLabel(Tag(rows, c, OverUnder), t, PUSH) ==
      Count(rows, (x: Row) => TeamOf(x, c) == Some(t) &&
        (TotalPoints(x).None? || x.totalLine.None? || TotalPoints(x).value == x.totalLine.value))
    ensures Games(Tag(rows, c, OverUnder), t) == Count(rows, (x: Row) => TeamOf(x, c) == Some(t))
    decreases |rows|
  {
    if |rows| > 0 {
      assert Tag(rows, c, OverUnder)[1..] == Tag(rows[1..], c, OverUnder);
      OverUnderCountsGames(rows[1..], c, t);
    }
  }

  // ===== calculate_over_under_record

  predicate HasTotals(columns: set<string>) {
    SCORE in columns && AGAINST_SCORE in columns && TOTAL_LINE in columns
  }

  /** `calculate_over_under_record`: one line per team in ascending team order
      (the order `groupby` leaves them in); the record shows overs and unders only. */
  function CalculateOverUnderRecord(df: Option<Frame>, team: Option<string>): (r: Result<seq<RecordLine>>)
    ensures Absent(df) ==> r == Ok([])
    ensures !Absent(df) && NonEmptyText(team) && TEAM !in df.value.columns ==> r == Err(KeyError(TEAM))
    ensures !Absent(df) && !(NonEmptyText(team) && TEAM !in df.value.columns) ==>
      (r.Err? <==> HasTotals(df.value.columns) && ResolveTeamColumn(df.value.columns).None?) &&
      (r.Err? ==> r.error == KeyError(TEAM_NAME))
    ensures !Absent(df) && !HasTotals(df.value.columns) && r.Ok? ==> r.value == []
    ensures r.Ok? ==> AscendingStrings(TeamsOf(r.value))
    ensures r.Ok? ==> forall l :: l in r.value ==> WellFormedLine(l, false) && l.games == l.wins + l.losses + l.pushes
    ensures r.Ok? && !Absent(df) && HasTotals(df.value.columns) ==>
      var c := ResolveTeamColumn(df.value.columns).value;
      forall t :: t in TeamsOf(r.value) <==>
        exists x :: x in df.value.rows && (!NonEmptyText(team) || x.team == team) && TeamOf(x, c) == Some(t)
    ensures r.Ok? && !Absent(df) && HasTotals(df.value.columns) ==>
      forall l :: l in r.value ==>
        l == Line(Tag(TeamScope(df.value, team).value, ResolveTeamColumn(df.value.columns).value, OverUnder),
                  l.team, OVER, UNDER, false)
  {
    if Absent(df) then Ok([])
    else
      var rows :- TeamScope(df.value, team);
      if !HasTotals(df.value.columns) then Ok([])
      else
        var c :- RequireTeamColumn(df.value.columns);
        ComputedLettersAddUp(rows, c, OverUnder, OVER, UNDER);
        TagTeams(rows, c, OverUnder);
        Ok(Tabulate(Tag(rows, c, OverUnder), OVER, UNDER, false))
  }

  // ===== calculate_situational_ats

  /** The situations split out by `calculate_situational_ats`. */
  datatype Situation = AsFavorite | AsUnderdog | Divisional

  /** A favourite has a negative spread, an underdog a positive one; a
      pick'em game (spread 0 or missing) is neither. */
  predicate InSituation(row: Row, s: Situation) {
    match s
    case AsFavorite => row.spread.Some? && row.spread.value < 0.0
    case AsUnderdog => row.spread.Some? && row.spread.value > 0.0
    case Divisional => row.divGame == Some(true)
  }

  /** The column whose presence makes the split appear in the result. */
  function SituationColumn(s: Situation): string {
    match s
    case AsFavorite => SPREAD
    case AsUnderdog => SPREAD
    case Divisional => DIV_GAME
  }

  /** The result dictionary; `None` stands for a key it does not have. */
  datatype Situational = Situational(overall: Option<seq<RecordLine>>, asFavorite: Option<seq<RecordLine>>,
                                     asUnderdog: Option<seq<RecordLine>>, divisional: Option<seq<RecordLine>>)

  function SplitOf(r: Situational, s: Situation): Option<seq<RecordLine>> {
    match s
    case AsFavorite => r.asFavorite
    case AsUnderdog => r.asUnderdog
    case Divisional => r.divisional
  }

  const MARGIN := "margin"

  /** Lines 206-213: without an `ats_result` column but with the scores and
      the spread, every row gets its ATS letter stored. */
  function WithAtsResult(f: Frame): Frame {
    if ATS_RESULT !in f.columns && RecomputesAts(f.columns) then
      Frame(f.columns + {MARGIN, ATS_RESULT},
            seq(|f.rows|, i requires 0 <= i < |f.rows| => f.rows[i].(atsResult := Some(AtsLetter(f.rows[i])))))
    else f
  }

  function SituationFrame(f: Frame, s: Situation): Frame {
    Frame(f.columns, Filter(f.rows, (x: Row) => InSituation(x, s)))
  }

  /** Storing the letters adds two columns and changes nothing but `ats_result`. */
  lemma WithAtsResultShape(f: Frame)
    ensures var g := WithAtsResult(f);
      f.columns <= g.columns && g.columns <= f.columns + {MARGIN, ATS_RESULT} && |g.rows| == |f.rows| &&
      forall i :: 0 <= i < |f.rows| ==> g.rows[i] == f.rows[i].(atsResult := g.rows[i].atsResult)
  {
  }

  predicate AtsFails(columns: set<string>) {
    AtsLabeling(columns).Some? && ResolveTeamColumn(columns).None?
  }

  /** With no team given, an ATS record fails only for want of a team column. */
  lemma AtsFailsByColumns(f: Frame)
    ensures CalculateAtsRecord(Some(f), None).Err? <==> !IsEmpty(f) && AtsFails(f.columns)
  {
  }

  function SplitRecord(f: Frame, s: Situation): (r: Result<Option<seq<RecordLine>>>)
    requires !AtsFails(f.columns)
    ensures r.Ok? && (r.value.Some? <==> SituationColumn(s) in f.columns)
    ensures r.value.Some? ==> CalculateAtsRecord(Some(SituationFrame(f, s)), None) == Ok(r.value.value)
  {
    if SituationColumn(s) !in f.columns then Ok(None)
    else
      AtsFailsByColumns(SituationFrame(f, s));
      Ok(Some(CalculateAtsRecord(Some(SituationFrame(f, s)), None).value))
  }

  /** Storing the ATS letters first changes no ATS record: with the scores and
      the spread present they are recomputed anyway. */
  lemma {:induction false} StoredLettersSameRecord(f: Frame)
    requires !IsEmpty(f)
    ensures CalculateAtsRecord(Some(WithAtsResult(f)), None) == CalculateAtsRecord(Some(f), None)
  {
    var g := WithAtsResult(f);
    if g != f {
      assert ResolveTeamColumn(g.columns) == ResolveTeamColumn(f.columns);
      assert AtsLabeling(g.columns) == AtsLabeling(f.columns) == Some(RecomputedAts);
      match ResolveTeamColumn(f.columns)
      case None =>
      case Some(c) =>
        assert Tag(g.rows, c, RecomputedAts) == Tag(f.rows, c, RecomputedAts);
    }
  }

  /** The split is there exactly when its column is, and is the ATS record
      of the games in that situation. */
  predicate SplitMatches(split: Option<seq<RecordLine>>, f: Frame, s: Situation) {
    (split.Some? <==> SituationColumn(s) in f.columns) &&
    (split.Some? ==> CalculateAtsRecord(Some(SituationFrame(WithAtsResult(f), s)), None) == Ok(split.value))
  }

  /** `calculate_situational_ats`; what each split holds is stated by
      `SituationalSplits`. */
  function CalculateSituationalAts(df: Option<Frame>): (r: Result<Situational>)
    ensures Absent(df) ==> r == Ok(Situational(None, None, None, None))
    ensures !Absent(df) ==> (r.Err? <==> CalculateAtsRecord(df, None).Err?)
    ensures r.Err? ==> r.error == KeyError(TEAM_NAME)
  {
    if Absent(df) then Ok(Situational(None, None, None, None))
    else
      var g := WithAtsResult(df.value);
      StoredLettersSameRecord(df.value);
      WithAtsResultShape(df.value);
      AtsFailsByColumns(g);
      var overall :- CalculateAtsRecord(Some(g), None);
      var favorite := SplitRecord(g, AsFavorite).value;
      var underdog := SplitRecord(g, AsUnderdog).value;
      var divisional := SplitRecord(g, Divisional).value;
      Ok(Situational(Some(overall), favorite, underdog, divisional))
  }

  /** The overall split is the plain ATS record. */
  lemma SituationalOverall(f: Frame)
    requires !IsEmpty(f) && CalculateSituationalAts(Some(f)).Ok?
    ensures CalculateSituationalAts(Some(f)).value.overall == Some(CalculateAtsRecord(Some(f), None).value)
  {
    StoredLettersSameRecord(f);
  }

  lemma StoredLettersKeepColumns(f: Frame)
    requires !IsEmpty(f) && CalculateSituationalAts(Some(f)).Ok?
    ensures !AtsFails(WithAtsResult(f).columns)
  {
    StoredLettersSameRecord(f);
    AtsFailsByColumns(WithAtsResult(f));
  }

  lemma SplitIsRecord(f: Frame, s: Situation)
    requires !IsEmpty(f) && CalculateSituationalAts(Some(f)).Ok? && !AtsFails(WithAtsResult(f).columns)
    ensures SplitOf(CalculateSituationalAts(Some(f)).value, s) == SplitRecord(WithAtsResult(f), s).value
  {
    match s
    case AsFavorite =>
    case AsUnderdog =>
    case Divisional =>
  }

  /** Each other split is there exactly when its column is, and is the ATS
      record of the games in that situation. */
  lemma SituationalSplit(f: Frame, s: Situation)
    requires !IsEmpty(f) && CalculateSituationalAts(Some(f)).Ok?
    ensures SplitMatches(SplitOf(CalculateSituationalAts(Some(f)).value, s), f, s)
  {
    StoredLettersKeepColumns(f);
    SplitIsRecord(f, s);
    WithAtsResultShape(f);
    assert SituationColumn(s) != MARGIN && SituationColumn(s) != ATS_RESULT;
  }

  /** A split counts a team exactly when the team has a game in that
      situation: only favourites' games feed `as_favorite`, only underdogs'
      games `as_underdog`, and a pick'em game feeds neither. With
      `SituationalSplit` this describes the splits of `CalculateSituationalAts`. */
  lemma SplitTeams(f: Frame, s: Situation, lines: seq<RecordLine>, t: string)
    requires CalculateAtsRecord(Some(SituationFrame(WithAtsResult(f), s)), None) == Ok(lines)
    requires AtsLabeling(f.columns).Some? && ResolveTeamColumn(f.columns).Some?
    ensures var c := ResolveTeamColumn(f.columns).value;
      t in TeamsOf(lines) <==>
        exists i :: 0 <= i < |f.rows| && InSituation(f.rows[i], s) && TeamOf(f.rows[i], c) == Some(t)
  {
    var g := WithAtsResult(f);
    var h := SituationFrame(g, s);
    var c := ResolveTeamColumn(f.columns).value;
    WithAtsResultShape(f);
    assert AtsLabeling(h.columns).Some? && ResolveTeamColumn(h.columns) == Some(c);
    AtsRecordTeams(h, c, lines, t);
    SplitTeamsRows(f.rows, g.rows, s, c, t);
  }

  lemma AtsRecordTeams(h: Frame, c: TeamColumn, lines: seq<RecordLine>, t: string)
    requires CalculateAtsRecord(Some(h), None) == Ok(lines)
    requires AtsLabeling(h.columns).Some? && ResolveTeamColumn(h.columns) == Some(c)
    ensures t in TeamsOf(lines) <==> exists x :: x in h.rows && TeamOf(x, c) == Some(t)
  {
    if IsEmpty(h) {
      assert |h.rows| == 0;
    }
  }

  lemma SplitTeamsRows(rows: seq<Row>, stored: seq<Row>, s: Situation, c: TeamColumn, t: string)
    requires |stored| == |rows|
    requires forall i :: 0 <= i < |rows| ==> stored[i] == rows[i].(atsResult := stored[i].atsResult)
    ensures (exists x :: x in Filter(stored, (x: Row) => InSituation(x, s)) && TeamOf(x, c) == Some(t)) <==>
      exists i :: 0 <= i < |rows| && InSituation(rows[i], s) && TeamOf(rows[i], c) == Some(t)
  {
    var h := Filter(stored, (x: Row) => InSituation(x, s));
    if exists i :: 0 <= i < |rows| && InSituation(rows[i], s) && TeamOf(rows[i], c) == Some(t) {
      var i :| 0 <= i < |rows| && InSituation(rows[i], s) && TeamOf(rows[i], c) == Some(t);
      assert stored[i] in h;
    }
    if exists x :: x in h && TeamOf(x, c) == Some(t) {
      var x :| x in h && TeamOf(x, c) == Some(t);
      var i :| 0 <= i < |stored| && stored[i] == x;
      assert InSituation(rows[i], s) && TeamOf(rows[i], c) == Some(t);
    }
  }

  // ===== calculate_betting_edges

  /** `x` ranks strictly ahead of `y`: higher when ranking descending. */
  predicate Better(x: real, y: real, descending: bool) {
    if descending then x > y else x < y
  }

  /** The present values of `xs` ranking strictly ahead of `x`. */
  function CountBetter(xs: seq<Cell>, x: real, descending: bool): nat
    decreases |xs|
  {
    if |xs| == 0 then 0
    else (if xs[0].Some? && Better(xs[0].value, x, descending) then 1 else 0) + CountBetter(xs[1..], x, descending)
  }

  /** The values of `xs` equal to `x`. */
  function CountEqual(xs: seq<Cell>, x: real): nat
    decreases |xs|
  {
    if |xs| == 0 then 0 else (if xs[0] == Some(x) then 1 else 0) + CountEqual(xs[1..], x)
  }

  function CountPresent(xs: seq<Cell>): nat
    decreases |xs|
  {
    if |xs| == 0 then 0 else (if xs[0].Some? then 1 else 0) + CountPresent(xs[1..])
  }

  /** pandas' default `rank()` of the value `x` among `xs`: ties share the
      average of the positions they occupy, missing values are not ranked. */
  function AverageRank(xs: seq<Cell>, x: real, descending: bool): real {
    CountBetter(xs, x, descending) as real + (CountEqual(xs, x) + 1) as real / 2.0
  }

  lemma {:induction false} RankCounts(xs: seq<Cell>, a: real, b: real, descending: bool)
    ensures CountBetter(xs, a, descending) + CountEqual(xs, a) <= CountPresent(xs) <= |xs|
    ensures Some(a) in xs ==> CountEqual(xs, a) >= 1
    ensures Better(a, b, descending) ==> CountBetter(xs, a, descending) + CountEqual(xs, a) <= CountBetter(xs, b, descending)
    decreases |xs|
  {
    if |xs| > 0 {
      RankCounts(xs[1..], a, b, descending);
      assert xs == [xs[0]] + xs[1..];
    }
  }

  /** The rank of a value that occurs lies in [1, number of present values]. */
  lemma RankBounds(xs: seq<Cell>, x: real, descending: bool)
    requires Some(x) in xs
    ensures 1.0 <= AverageRank(xs, x, descending) <= CountPresent(xs) as real <= |xs| as real
  {
    RankCounts(xs, x, x, descending);
  }

  /** A value that ranks strictly ahead gets a strictly smaller rank. */
  lemma RankOrder(xs: seq<Cell>, a: real, b: real, descending: bool)
    requires Some(a) in xs && Better(a, b, descending)
    ensures AverageRank(xs, a, descending) < AverageRank(xs, b, descending)
  {
    RankCounts(xs, a, b, descending);
  }

  function Offenses(rows: seq<Row>): seq<Cell> {
    seq(|rows|, i requires 0 <= i < |rows| => rows[i].offenseEpa)
  }

  function Defenses(rows: seq<Row>): seq<Cell> {
    seq(|rows|, i requires 0 <= i < |rows| => rows[i].defenseEpa)
  }

  /** A team-week row with the columns `calculate_betting_edges` adds; `None`
      for NaN and for a column that is not added. */
  datatype EdgeRow = EdgeRow(row: Row, offRank: Cell, defRank: Cell, edgeScore: Cell)

  /** The team-week rows of the week before `week` in `season`. */
  function PreviousWeek(rows: seq<Row>, season: int, week: int): seq<Row> {
    Filter(rows, (x: Row) => x.season == Some(season) && x.week == Some(week - 1))
  }

  function Ranked(x: Row, latest: seq<Row>, hasOff: bool, hasDef: bool): EdgeRow {
    var off := if hasOff && x.offenseEpa.Some? then Some(AverageRank(Offenses(latest), x.offenseEpa.value, true)) else None;
    var def := if hasDef && x.defenseEpa.Some? then Some(AverageRank(Defenses(latest), x.defenseEpa.value, false)) else None;
    var edge := if hasOff && hasDef && off.Some? && def.Some? then Some((off.value + def.value) / 2.0) else None;
    EdgeRow(x, off, def, edge)
  }

  function EdgeKey(e: EdgeRow): Key {
    [e.edgeScore]
  }

  function RowsOf(es: seq<EdgeRow>): seq<Row> {
    seq(|es|, i requires 0 <= i < |es| => es[i].row)
  }

  /** `calculate_betting_edges`: the previous week's team rows, each ranked by
      offensive EPA (highest first) and defensive EPA (lowest first) with the
      mean of the two ranks as `edge_score`, in ascending `edge_score` order
      when both EPA columns exist and in the previous week's row order
      otherwise. `training` is only checked for `None`. */
  function CalculateBettingEdges(training: Option<Frame>, averages: Option<Frame>, season: int, week: int): (r: Result<seq<EdgeRow>>)
    ensures training.None? || averages.None? ==> r == Ok([])
    ensures training.Some? && averages.Some? && SEASON !in averages.value.columns ==> r == Err(KeyError(SEASON))
    ensures training.Some? && averages.Some? && SEASON in averages.value.columns && WEEK !in averages.value.columns ==> r == Err(KeyError(WEEK))
    ensures training.Some? && averages.Some? && SEASON in averages.value.columns && WEEK in averages.value.columns ==> r.Ok?
    ensures r.Ok? && training.Some? && averages.Some? ==>
      multiset(RowsOf(r.value)) == multiset(PreviousWeek(averages.value.rows, season, week))
    ensures r.Ok? && training.Some? && averages.Some? ==>
      var latest := PreviousWeek(averages.value.rows, season, week);
      var cols := averages.value.columns;
      forall e :: e in r.value ==>
        (e.offRank.Some? <==> OFFENSE_EPA in cols && e.row.offenseEpa.Some?) &&
        (e.offRank.Some? ==> e.offRank.value == AverageRank(Offenses(latest), e.row.offenseEpa.value, true)) &&
        (e.defRank.Some? <==> DEFENSE_EPA in cols && e.row.defenseEpa.Some?) &&
        (e.defRank.Some? ==> e.defRank.value == AverageRank(Defenses(latest), e.row.defenseEpa.value, false)) &&
        (e.edgeScore.Some? <==> OFFENSE_EPA in cols && DEFENSE_EPA in cols && e.offRank.Some? && e.defRank.Some?) &&
        (e.edgeScore.Some? ==> e.edgeScore.value == (e.offRank.value + e.defRank.value) / 2.0)
    ensures r.Ok? && averages.Some? && OFFENSE_EPA in averages.value.columns && DEFENSE_EPA in averages.value.columns ==>
      forall i, j :: 0 <= i < j < |r.value| ==>
        r.value[j].edgeScore.None? || (r.value[i].edgeScore.Some? && r.value[i].edgeScore.value <= r.value[j].edgeScore.value)
    ensures (r.Ok? && training.Some? && averages.Some? &&
             !(OFFENSE_EPA in averages.value.columns && DEFENSE_EPA in averages.value.columns)) ==>
      RowsOf(r.value) == PreviousWeek(averages.value.rows, season, week)
  {
    if training.None? || averages.None? then Ok([])
    else
      var f := averages.value;
      if SEASON !in f.columns then Err(KeyError(SEASON))
      else if WEEK !in f.columns then Err(KeyError(WEEK))
      else
        var latest := PreviousWeek(f.rows, season, week);
        var hasOff, hasDef := OFFENSE_EPA in f.columns, DEFENSE_EPA in f.columns;
        var ranked := seq(|latest|, i requires 0 <= i < |latest| => Ranked(latest[i], latest, hasOff, hasDef));
        assert RowsOf(ranked) == latest;
        if hasOff && hasDef then
          var sorted := SortBy(ranked, EdgeKey, false);
          EdgeSortFacts(ranked, sorted);
          Ok(sorted)
        else
          Ok(ranked)
  }

  lemma EdgeSortFacts(ranked: seq<EdgeRow>, sorted: seq<EdgeRow>)
    requires SortedBy(sorted, EdgeKey, false) && multiset(sorted) == multiset(ranked)
    ensures multiset(RowsOf(sorted)) == multiset(RowsOf(ranked))
    ensures forall e :: e in sorted <==> e in ranked
    ensures forall i, j :: 0 <= i < j < |sorted| ==>
      sorted[j].edgeScore.None? || (sorted[i].edgeScore.Some? && sorted[i].edgeScore.value <= sorted[j].edgeScore.value)
  {
    MapPreservesMultiset(sorted, ranked, (e: EdgeRow) => e.row);
    assert RowsOf(sorted) == Map(sorted, (e: EdgeRow) => e.row);
    assert RowsOf(ranked) == Map(ranked, (e: EdgeRow) => e.row);
    forall e ensures e in sorted <==> e in ranked {
      assert e in sorted <==> e in multiset(sorted);
    }
    forall i, j | 0 <= i < j < |sorted|
      ensures sorted[j].edgeScore.None? || (sorted[i].edgeScore.Some? && sorted[i].edgeScore.value <= sorted[j].edgeScore.value)
    {
      assert KeyLe(EdgeKey(sorted[i]), EdgeKey(sorted[j]), false);
      assert EdgeKey(sorted[i])[1..] == [] && EdgeKey(sorted[j])[1..] == [];
    }
  }

  /** A row of the ranked list is one of the previous week's rows, so its EPA
      values are among those it is ranked against. */
  lemma RankedMember(es: seq<EdgeRow>, latest: seq<Row>, e: EdgeRow)
    requires multiset(RowsOf(es)) == multiset(latest) && e in es
    ensures |es| == |latest|
    ensures e.row.offenseEpa.Some? ==> e.row.offenseEpa in Offenses(latest)
    ensures e.row.defenseEpa.Some? ==> e.row.defenseEpa in Defenses(latest)
  {
    assert |es| == |RowsOf(es)| == |multiset(RowsOf(es))| == |multiset(latest)| == |latest|;
    assert e.row in RowsOf(es) by {
      var k :| 0 <= k < |es| && es[k] == e;
      assert RowsOf(es)[k] == e.row;
    }
    assert e.row in multiset(latest);
    var k :| 0 <= k < |latest| && latest[k] == e.row;
    assert Offenses(latest)[k] == e.row.offenseEpa;
    assert Defenses(latest)[k] == e.row.defenseEpa;
  }

  /** Every rank of a ranked team lies in [1, number of teams that week]. */
  lemma EdgeRanksBounded(training: Option<Frame>, averages: Option<Frame>, season: int, week: int, e: EdgeRow)
    requires CalculateBettingEdges(training, averages, season, week).Ok?
    requires e in CalculateBettingEdges(training, averages, season, week).value
    ensures var n := |CalculateBettingEdges(training, averages, season, week).value| as real;
      (e.offRank.Some? ==> 1.0 <= e.offRank.value <= n) && (e.defRank.Some? ==> 1.0 <= e.defRank.value <= n)
  {
    var es := CalculateBettingEdges(training, averages, season, week).value;
    var latest := PreviousWeek(averages.value.rows, season, week);
    RankedMember(es, latest, e);
    if e.offRank.Some? {
      RankBounds(Offenses(latest), e.row.offenseEpa.value, true);
    }
    if e.defRank.Some? {
      RankBounds(Defenses(latest), e.row.defenseEpa.value, false);
    }
  }

  /** A team strictly better on both sides of the ball (more offensive EPA,
      less defensive EPA allowed) gets a strictly lower edge score; teams
      equal on both get equal scores. */
  lemma EdgeScoreOrder(training: Option<Frame>, averages: Option<Frame>, season: int, week: int, e1: EdgeRow, e2: EdgeRow)
    requires CalculateBettingEdges(training, averages, season, week).Ok?
    requires e1 in CalculateBettingEdges(training, averages, season, week).value
    requires e2 in CalculateBettingEdges(training, averages, season, week).value
    requires e1.edgeScore.Some? && e2.edgeScore.Some?
    ensures e1.row.offenseEpa == e2.row.offenseEpa && e1.row.defenseEpa == e2.row.defenseEpa ==>
      e1.edgeScore == e2.edgeScore
    ensures e1.row.offenseEpa.value > e2.row.offenseEpa.value && e1.row.defenseEpa.value < e2.row.defenseEpa.value ==>
      e1.edgeScore.value < e2.edgeScore.value
  {
    var es := CalculateBettingEdges(training, averages, season, week).value;
    var latest := PreviousWeek(averages.value.rows, season, week);
    if e1.row.offenseEpa.value > e2.row.offenseEpa.value && e1.row.defenseEpa.value < e2.row.defenseEpa.value {
      RankedMember(es, latest, e1);
      RankOrder(Offenses(latest), e1.row.offenseEpa.value, e2.row.offenseEpa.value, true);
      RankOrder(Defenses(latest), e1.row.defenseEpa.value, e2.row.defenseEpa.value, false);
    }
  }

  // ===== calculate_epa_differential

  /** A week number as a sort cell. */
  function IntCell(v: Option<int>): Cell {
    if v.Some? then Some(v.value as real) else None
  }

  function WeekKey(x: Row): Key {
    [IntCell(x.week)]
  }

  /** `x` is a row of `rows` whose week is no earlier than any present week of `rows`. */
  ghost predicate IsLatest(x: Row, rows: seq<Row>) {
    x in rows && forall y :: y in rows && y.week.Some? ==> x.week.Some? && y.week.value <= x.week.value
  }

  /** `.sort_values('week', ascending=False).head(1)`: a row of the latest week. */
  function LatestRow(rows: seq<Row>): (r: Option<Row>)
    ensures r.None? <==> |rows| == 0
    ensures r.Some? ==> IsLatest(r.value, rows)
  {
    if |rows| == 0 then None
    else
      var sorted := SortBy(rows, WeekKey, true);
      LatestFirst(sorted, rows);
      Some(sorted[0])
  }

  lemma LatestFirst(sorted: seq<Row>, rows: seq<Row>)
    requires |sorted| > 0 && SortedBy(sorted, WeekKey, true) && multiset(sorted) == multiset(rows)
    ensures IsLatest(sorted[0], rows)
  {
    assert sorted[0] in multiset(rows);
    forall y | y in rows && y.week.Some?
      ensures sorted[0].week.Some? && y.week.value <= sorted[0].week.value
    {
      assert y in multiset(sorted);
      var j :| 0 <= j < |sorted| && sorted[j] == y;
      if j > 0 {
        assert KeyLe(WeekKey(sorted[0]), WeekKey(sorted[j]), true);
      }
    }
  }

  /** The rows of `team` in `season` up to and including `week`; a missing
      week fails the comparison. */
  function Candidates(rows: seq<Row>, c: TeamColumn, team: string, season: int, week: int): seq<Row> {
    Filter(rows, (x: Row) => TeamOf(x, c) == Some(team) && x.season == Some(season) && x.week.Some? && x.week.value <= week)
  }

  /** The differential dictionary; `None` for a key the dictionary lacks, and
      `Some(None)` for a key holding NaN. */
  datatype EpaDiff = EpaDiff(offDiff: Option<Cell>, defDiff: Option<Cell>, totalEdge: Option<Cell>)

  /** The empty dictionary `{}`. */
  const NO_DIFF := EpaDiff(None, None, None)

  /** Subtraction and addition with NaN propagating. */
  function Minus(a: Cell, b: Cell): Cell {
    if a.Some? && b.Some? then Some(a.value - b.value) else None
  }

  function Plus(a: Cell, b: Cell): Cell {
    if a.Some? && b.Some? then Some(a.value + b.value) else None
  }

  function Negated(a: Cell): Cell {
    if a.Some? then Some(-a.value) else None
  }

  /** `calculate_epa_differential`: team 1's latest offensive EPA minus team
      2's, team 2's latest defensive EPA minus team 1's (positive when team 1
      allows less), and their sum. The three masks index the team, `season`
      and `week` columns in that order; `{}` when either team has no row. */
  function CalculateEpaDifferential(df: Option<Frame>, team1: string, team2: string, season: int, week: int): (r: Result<EpaDiff>)
    ensures Absent(df) ==> r == Ok(NO_DIFF)
    ensures !Absent(df) && ResolveTeamColumn(df.value.columns).None? ==> r == Err(KeyError(TEAM_NAME))
    ensures !Absent(df) && ResolveTeamColumn(df.value.columns).Some? && SEASON !in df.value.columns ==> r == Err(KeyError(SEASON))
    ensures !Absent(df) && ResolveTeamColumn(df.value.columns).Some? && SEASON in df.value.columns && WEEK !in df.value.columns ==>
      r == Err(KeyError(WEEK))
    ensures !Absent(df) && ResolveTeamColumn(df.value.columns).Some? && SEASON in df.value.columns && WEEK in df.value.columns ==> r.Ok?
    ensures r.Ok? && !Absent(df) ==>
      var cols := df.value.columns;
      var c := ResolveTeamColumn(cols).value;
      var one := Candidates(df.value.rows, c, team1, season, week);
      var two := Candidates(df.value.rows, c, team2, season, week);
      (|one| == 0 || |two| == 0 ==> r.value == NO_DIFF) &&
      (|one| > 0 && |two| > 0 ==>
        (r.value.offDiff.Some? <==> OFFENSE_EPA in cols) &&
        (r.value.offDiff.Some? ==> r.value.offDiff.value == Minus(LatestRow(one).value.offenseEpa, LatestRow(two).value.offenseEpa)) &&
        (r.value.defDiff.Some? <==> DEFENSE_EPA in cols) &&
        (r.value.defDiff.Some? ==> r.value.defDiff.value == Minus(LatestRow(two).value.defenseEpa, LatestRow(one).value.defenseEpa)) &&
        (r.value.totalEdge.Some? <==> r.value.offDiff.Some? && r.value.defDiff.Some?) &&
        (r.value.totalEdge.Some? ==> r.value.totalEdge.value == Plus(r.value.offDiff.value, r.value.defDiff.value)))
  {
    if Absent(df) then Ok(NO_DIFF)
    else
      var f := df.value;
      var c :- RequireTeamColumn(f.columns);
      if SEASON !in f.columns then Err(KeyError(SEASON))
      else if WEEK !in f.columns then Err(KeyError(WEEK))
      else
        var one := LatestRow(Candidates(f.rows, c, team1, season, week));
        var two := LatestRow(Candidates(f.rows, c, team2, season, week));
        if one.None? || two.None? then Ok(NO_DIFF)
        else Ok(RowDifferential(one.value, two.value, f.columns))
  }

  /** The dictionary built from the two teams' latest rows. */
  function RowDifferential(one: Row, two: Row, columns: set<string>): EpaDiff {
    var off := if OFFENSE_EPA in columns then Some(Minus(one.offenseEpa, two.offenseEpa)) else None;
    var def := if DEFENSE_EPA in columns then Some(Minus(two.defenseEpa, one.defenseEpa)) else None;
    var total := if off.Some? && def.Some? then Some(Plus(off.value, def.value)) else None;
    EpaDiff(off, def, total)
  }

  /** The dictionary with every value negated and the same keys. */
  function NegatedDiff(d: EpaDiff): EpaDiff {
    EpaDiff(
      if d.offDiff.Some? then Some(Negated(d.offDiff.value)) else None,
      if d.defDiff.Some? then Some(Negated(d.defDiff.value)) else None,
      if d.totalEdge.Some? then Some(Negated(d.totalEdge.value)) else None)
  }

  lemma RowDifferentialSwap(one: Row, two: Row, columns: set<string>)
    ensures RowDifferential(two, one, columns) == NegatedDiff(RowDifferential(one, two, columns))
  {
  }

  /** Swapping the two teams negates every differential and keeps the same keys. */
  lemma {:induction false} EpaDifferentialSwap(df: Option<Frame>, team1: string, team2: string, season: int, week: int)
    requires CalculateEpaDifferential(df, team1, team2, season, week).Ok?
    ensures CalculateEpaDifferential(df, team2, team1, season, week) ==
      Ok(NegatedDiff(CalculateEpaDifferential(df, team1, team2, season, week).value))
  {
    if !Absent(df) {
      var f := df.value;
      var c := ResolveTeamColumn(f.columns).value;
      var one := LatestRow(Candidates(f.rows, c, team1, season, week));
      var two := LatestRow(Candidates(f.rows, c, team2, season, week));
      if one.Some? && two.Some? {
        RowDifferentialSwap(one.value, two.value, f.columns);
      }
    }
  }

  // ===== get_team_trends

  function SeasonWeekKey(x: Row): Key {
    [IntCell(x.season), IntCell(x.week)]
  }

  /** How many rows `df.head(n)` keeps of `len`: the first `n`, or all but
      the last `-n` when `n` is negative. */
  function HeadCount(n: int, len: nat): (k: nat)
    ensures k <= len
  {
    if n >= 0 then (if n <= len then n else len)
    else if len + n >= 0 then len + n else 0
  }

  function TeamRows(rows: seq<Row>, c: TeamColumn, team: string): seq<Row> {
    Filter(rows, (x: Row) => TeamOf(x, c) == Some(team))
  }

  /** `get_team_trends`: the team's rows, latest season and week first, cut to
      the first `n`. A missing team column raises on the mask, a missing
      `season` or `week` column on the sort. */
  function GetTeamTrends(df: Option<Frame>, team: string, n: int): (r: Result<Frame>)
    ensures Absent(df) ==> r == Ok(Frame({}, []))
    ensures !Absent(df) && ResolveTeamColumn(df.value.columns).None? ==> r == Err(KeyError(TEAM_NAME))
    ensures !Absent(df) && ResolveTeamColumn(df.value.columns).Some? && SEASON !in df.value.columns ==> r == Err(KeyError(SEASON))
    ensures !Absent(df) && ResolveTeamColumn(df.value.columns).Some? && SEASON in df.value.columns && WEEK !in df.value.columns ==>
      r == Err(KeyError(WEEK))
    ensures !Absent(df) && ResolveTeamColumn(df.value.columns).Some? && SEASON in df.value.columns && WEEK in df.value.columns ==> r.Ok?
    ensures r.Ok? && !Absent(df) ==>
      var mine := TeamRows(df.value.rows, ResolveTeamColumn(df.value.columns).value, team);
      r.value.columns == df.value.columns &&
      (n >= 0 ==> |r.value.rows| == if n <= |mine| then n else |mine|) &&
      (n < 0 ==> |r.value.rows| == if |mine| + n >= 0 then |mine| + n else 0) &&
      multiset(r.value.rows) <= multiset(mine) &&
      SortedBy(r.value.rows, SeasonWeekKey, true) &&
      forall x, y :: x in r.value.rows && y in multiset(mine) - multiset(r.value.rows) ==>
        KeyLe(SeasonWeekKey(x), SeasonWeekKey(y), true)
  {
    if Absent(df) then Ok(Frame({}, []))
    else
      var f := df.value;
      var c :- RequireTeamColumn(f.columns);
      if SEASON !in f.columns then Err(KeyError(SEASON))
      else if WEEK !in f.columns then Err(KeyError(WEEK))
      else
        var mine := TeamRows(f.rows, c, team);
        var sorted := SortBy(mine, SeasonWeekKey, true);
        var k := HeadCount(n, |sorted|);
        HeadFacts(sorted, mine, k);
        Ok(Frame(f.columns, sorted[..k]))
  }

  /** The first `k` rows of a sort of `mine` are sorted, drawn from `mine`, and
      sort no later than the rows left out. */
  lemma HeadFacts(sorted: seq<Row>, mine: seq<Row>, k: nat)
    requires SortedBy(sorted, SeasonWeekKey, true) && multiset(sorted) == multiset(mine) && k <= |sorted|
    ensures |sorted[..k]| == k
    ensures multiset(sorted[..k]) <= multiset(mine)
    ensures SortedBy(sorted[..k], SeasonWeekKey, true)
    ensures forall x, y :: x in sorted[..k] && y in multiset(mine) - multiset(sorted[..k]) ==>
      KeyLe(SeasonWeekKey(x), SeasonWeekKey(y), true)
  {
    assert sorted == sorted[..k] + sorted[k..];
    assert multiset(mine) - multiset(sorted[..k]) == multiset(sorted[k..]);
    forall x, y | x in sorted[..k] && y in multiset(mine) - multiset(sorted[..k])
      ensures KeyLe(SeasonWeekKey(x), SeasonWeekKey(y), true)
    {
      SortedPrefixFirst(sorted, k, SeasonWeekKey, true, x, y);
    }
  }

  // ===== identify_injury_impacts

  /** The columns whose lower-cased name contains `injury`. */
  function InjuryColumns(columns: set<string>): set<string> {
    set c | c in columns && Contains(AsciiLower(c), "injury")
  }

  /** Some injury column of the row holds a value. */
  predicate HasInjuryFlag(row: Row, injuryCols: set<string>) {
    injuryCols * row.extra.Keys != {}
  }

  /** `identify_injury_impacts`: the plays with a value in some injury
      column, in order and with every column; an empty frame when the table
      is missing or has no injury column. The depth charts are not read. */
  function IdentifyInjuryImpacts(plays: Option<Frame>, depthCharts: Option<Frame>): (r: Frame)
    ensures Absent(plays) || InjuryColumns(plays.value.columns) == {} ==> r == Frame({}, [])
    ensures !Absent(plays) && InjuryColumns(plays.value.columns) != {} ==>
      r.columns == plays.value.columns && IsSubsequence(r.rows, plays.value.rows) &&
      forall x :: multiset(r.rows)[x] ==
        if HasInjuryFlag(x, InjuryColumns(plays.value.columns)) then multiset(plays.value.rows)[x] else 0
  {
    if Absent(plays) then Frame({}, [])
    else
      var f := plays.value;
      var injuryCols := InjuryColumns(f.columns);
      if injuryCols == {} then Frame({}, [])
      else Frame(f.columns, Filter(f.rows, (x: Row) => HasInjuryFlag(x, injuryCols)))
  }
}
