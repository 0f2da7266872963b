/** The table-building rules of `components/metrics_cards.py`: the metric
    comparison with its advantage column, the player-grade comparison, the
    injury impact table with its five status bands, the team stats table and
    the column layout of the key metrics. Each table is built by a loop over
    a fixed list of keys, one row per key; the rows are returned instead of
    being handed to Streamlit, and number formatting is not modelled, so a
    cell holds the value it would display. */
module MetricsCards {
  import opened Wrappers
  import opened Text

  /** A value of a metrics dictionary: a number, NaN, a string or `None`. */
  datatype Value = Number(x: real) | NotANumber | Str(s: string) | Null

  const NA := "N/A"

  /** `d.get(key, 'N/A')`. */
  function Lookup(d: map<string, Value>, key: string): (r: Value)
    ensures key !in d ==> r == Str(NA)
    ensures key in d ==> r == d[key]
  {
    if key in d then d[key] else Str(NA)
  }

  // ===== render_metrics_comparison_table

  /** The metric keys and their labels, in table order (lines 128-137). */
  const METRICS: seq<(string, string)> := [
    ("avg_points_scored", "Avg Points Scored"),
    ("avg_points_allowed", "Avg Points Allowed"),
    ("avg_offensive_epa", "Avg Offensive EPA"),
    ("avg_defensive_epa", "Avg Defensive EPA"),
    ("avg_pass_epa", "Avg Pass EPA"),
    ("avg_run_epa", "Avg Run EPA"),
    ("avg_opp_offensive_epa", "Avg Opp Offensive EPA"),
    ("avg_opp_defensive_epa", "Avg Opp Defensive EPA")
  ]

  /** A metric where the smaller value is the better one (line 151). */
  predicate LowerIsBetter(key: string) {
    Contains(AsciiLower(key), "allowed") || Contains(AsciiLower(key), "against") || Contains(AsciiLower(key), "defensive")
  }

  /** A key without capital letters in which, for each of the three words,
      some character of the word is missing from the matching position on,
      is a higher-is-better metric. */
  lemma HigherIsBetterKey(key: string, k1: nat, k2: nat, k3: nat)
    requires k1 < |"allowed"| && k2 < |"against"| && k3 < |"defensive"|
    requires forall j :: 0 <= j < |key| ==> !('A' <= key[j] <= 'Z')
    requires forall j :: k1 <= j < |key| ==> key[j] != "allowed"[k1]
    requires forall j :: k2 <= j < |key| ==> key[j] != "against"[k2]
    requires forall j :: k3 <= j < |key| ==> key[j] != "defensive"[k3]
    ensures !LowerIsBetter(key)
  {
    AsciiLowerOfLower(key);
    LacksCharFrom(key, "allowed", k1);
    LacksCharFrom(key, "against", k2);
    LacksCharFrom(key, "defensive", k3);
  }

  /** A key without capital letters holding one of the three words is a
      lower-is-better metric. */
  lemma LowerIsBetterKey(key: string, word: string, i: nat)
    requires word == "allowed" || word == "against" || word == "defensive"
    requires forall j :: 0 <= j < |key| ==> !('A' <= key[j] <= 'Z')
    requires OccursAt(key, word, i)
    ensures LowerIsBetter(key)
  {
    AsciiLowerOfLower(key);
  }

  /** Points allowed and both defensive EPA metrics, the opponents' one
      included, count lower as better; the other five count higher as better. */
  lemma MetricDirections()
    ensures !LowerIsBetter(METRICS[0].0)
    ensures LowerIsBetter(METRICS[1].0)
    ensures !LowerIsBetter(METRICS[2].0)
    ensures LowerIsBetter(METRICS[3].0)
    ensures !LowerIsBetter(METRICS[4].0)
    ensures !LowerIsBetter(METRICS[5].0)
    ensures !LowerIsBetter(METRICS[6].0)
    ensures LowerIsBetter(METRICS[7].0)
  {
    ScoredDirection();
    AllowedDirection();
    OffensiveDirection();
    DefensiveDirection();
    PassDirection();
    RunDirection();
    OppOffensiveDirection();
    OppDefensiveDirection();
  }

  lemma ScoredDirection() ensures !LowerIsBetter(METRICS[0].0) {
    HigherIsBetterKey(METRICS[0].0, 4, 2, 2);
  }

  lemma AllowedDirection() ensures LowerIsBetter(METRICS[1].0) {
    LowerIsBetterKey(METRICS[1].0, "allowed", 11);
  }

  lemma OffensiveDirection() ensures !LowerIsBetter(METRICS[2].0) {
    HigherIsBetterKey(METRICS[2].0, 4, 6, 0);
  }

  lemma DefensiveDirection() ensures LowerIsBetter(METRICS[3].0) {
    LowerIsBetterKey(METRICS[3].0, "defensive", 4);
  }

  lemma PassDirection() ensures !LowerIsBetter(METRICS[4].0) {
    HigherIsBetterKey(METRICS[4].0, 4, 3, 0);
  }

  lemma RunDirection() ensures !LowerIsBetter(METRICS[5].0) {
    HigherIsBetterKey(METRICS[5].0, 4, 3, 0);
  }

  lemma OppOffensiveDirection() ensures !LowerIsBetter(METRICS[6].0) {
    HigherIsBetterKey(METRICS[6].0, 4, 6, 0);
  }

  lemma OppDefensiveDirection() ensures LowerIsBetter(METRICS[7].0) {
    LowerIsBetterKey(METRICS[7].0, "defensive", 8);
  }

  /** `float(v)` of a value other than the string 'N/A': `Some(None)` for NaN,
      `None` where the conversion is skipped or raises (a string, `None`). */
  function AsFloat(v: Value): Option<Option<real>> {
    match v
    case Number(x) => Some(Some(x))
    case NotANumber => Some(None)
    case _ => None
  }

  /** Which team a metric favours. */
  datatype Verdict = TeamA | TeamB | Even | NotAvailable

  /** The advantage decision of lines 145-170: the strictly better number
      under the metric's direction; `"Even"` when neither is better, which
      includes any comparison with NaN; `"N/A"` when a side is not a number. */
  function Advantage(key: string, a: Value, b: Value): (r: Verdict)
    ensures r == NotAvailable <==> AsFloat(a).None? || AsFloat(b).None?
    ensures r == TeamA <==> a.Number? && b.Number? && (if LowerIsBetter(key) then a.x < b.x else a.x > b.x)
    ensures r == TeamB <==> a.Number? && b.Number? && (if LowerIsBetter(key) then b.x < a.x else b.x > a.x)
    ensures r == Even <==> AsFloat(a).Some? && AsFloat(b).Some? && (a.NotANumber? || b.NotANumber? || a.x == b.x)
  {
    match (AsFloat(a), AsFloat(b))
    case (Some(Some(p)), Some(Some(q))) =>
      if LowerIsBetter(key) then
        if p < q then TeamA else if q < p then TeamB else Even
      else
        if p > q then TeamA else if q > p then TeamB else Even
    case (Some(_), Some(_)) => Even
    case _ => NotAvailable
  }

  function Mirror(v: Verdict): Verdict {
    match v
    case TeamA => TeamB
    case TeamB => TeamA
    case other => other
  }

  /** Swapping the two teams swaps the verdict. */
  lemma AdvantageSwap(key: string, a: Value, b: Value)
    ensures Advantage(key, b, a) == Mirror(Advantage(key, a, b))
  {
  }

  /** The text of the Advantage column. */
  function VerdictText(v: Verdict, teamA: string, teamB: string): string {
    match v
    case TeamA => teamA
    case TeamB => teamB
    case Even => "Even"
    case NotAvailable => NA
  }

  datatype ComparisonRow = ComparisonRow(metric: string, aValue: Value, bValue: Value, advantage: string)

  /** The rows of `render_metrics_comparison_table`, one per metric in order. */
  method MetricsComparison(teamA: string, dataA: map<string, Value>, teamB: string, dataB: map<string, Value>)
    returns (rows: seq<ComparisonRow>)
    ensures |rows| == |METRICS|
    ensures forall i :: 0 <= i < |METRICS| ==>
      var key := METRICS[i].0;
      rows[i] == ComparisonRow(METRICS[i].1, Lookup(dataA, key), Lookup(dataB, key),
        VerdictText(Advantage(key, Lookup(dataA, key), Lookup(dataB, key)), teamA, teamB))
  {
    rows := [];
    var i := 0;
    while i < |METRICS|
      invariant 0 <= i <= |METRICS|
      invariant |rows| == i
      invariant forall k :: 0 <= k < i ==>
        var key := METRICS[k].0;
        rows[k] == ComparisonRow(METRICS[k].1, Lookup(dataA, key), Lookup(dataB, key),
          VerdictText(Advantage(key, Lookup(dataA, key), Lookup(dataB, key)), teamA, teamB))
    {
      var (key, caption) := METRICS[i];
      var a := Lookup(dataA, key);
      var b := Lookup(dataB, key);
      rows := rows + [ComparisonRow(caption, a, b, VerdictText(Advantage(key, a, b), teamA, teamB))];
      i := i + 1;
    }
  }

  // ===== render_player_grades_comparison

  /** The eleven position groups and their labels, in table order (lines 197-209). */
  const CATEGORIES: seq<(string, string)> := [
    ("pass_blocking", "Pass Blocking"),
    ("run_blocking", "Run Blocking"),
    ("qb_passing", "QB Passing"),
    ("qb_running", "QB Running"),
    ("receiving", "Receiving"),
    ("rb_rushing", "RB Rushing"),
    ("run_defense", "Run Defense"),
    ("pass_defense", "Pass Defense"),
    ("overall_defense", "Overall Defense"),
    ("pass_rush", "Pass Rush"),
    ("coverage", "Coverage")
  ]

  /** `grades.get(key, 0) or 0` followed by NaN to 0; `None` in the map is
      a `None` or NaN grade. */
  function GradeOf(grades: map<string, Option<real>>, key: string): (g: real)
    ensures key !in grades || grades[key].None? ==> g == 0.0
    ensures key in grades && grades[key].Some? ==> g == grades[key].value
  {
    if key in grades && grades[key].Some? then grades[key].value else 0.0
  }

  /** A grade cell: `"N/A"` for a grade of 0, else the grade. */
  datatype GradeCell = NoGrade | Graded(g: real)

  function GradeCellOf(g: real): (c: GradeCell)
    ensures c == NoGrade <==> g == 0.0
    ensures c.Graded? ==> c.g == g
  {
    if g != 0.0 then Graded(g) else NoGrade
  }

  /** The Advantage column of the grades table: the team ahead and by how much. */
  datatype GradeEdge = CreditA(margin: real) | CreditB(margin: real) | Level

  /** `diff = a - b`: a positive difference credits team A with it, a
      negative one credits team B with its absolute value. */
  function GradeEdgeOf(a: real, b: real): (r: GradeEdge)
    ensures r.CreditA? <==> a > b
    ensures r.CreditB? <==> a < b
    ensures r.Level? <==> a == b
    ensures r.CreditA? ==> r.margin > 0.0 && a == b + r.margin
    ensures r.CreditB? ==> r.margin > 0.0 && b == a + r.margin
  {
    var diff := a - b;
    if diff > 0.0 then CreditA(diff)
    else if diff < 0.0 then CreditB(-diff)
    else Level
  }

  function MirrorEdge(e: GradeEdge): GradeEdge {
    match e
    case CreditA(d) => CreditB(d)
    case CreditB(d) => CreditA(d)
    case Level => Level
  }

  /** Swapping the teams credits the other team by the same margin. */
  lemma GradeEdgeSwap(a: real, b: real)
    ensures GradeEdgeOf(b, a) == MirrorEdge(GradeEdgeOf(a, b))
  {
  }

  datatype GradeRow = GradeRow(group: string, aGrade: GradeCell, bGrade: GradeCell, edge: GradeEdge)

  /** The rows of `render_player_grades_comparison`, one per position group in order. */
  method PlayerGradesComparison(gradesA: map<string, Option<real>>, gradesB: map<string, Option<real>>)
    returns (rows: seq<GradeRow>)
    ensures |rows| == |CATEGORIES|
    ensures forall i :: 0 <= i < |CATEGORIES| ==>
      var a := GradeOf(gradesA, CATEGORIES[i].0);
      var b := GradeOf(gradesB, CATEGORIES[i].0);
      rows[i] == GradeRow(CATEGORIES[i].1, GradeCellOf(a), GradeCellOf(b), GradeEdgeOf(a, b))
  {
    rows := [];
    var i := 0;
    while i < |CATEGORIES|
      invariant 0 <= i <= |CATEGORIES|
      invariant |rows| == i
      invariant forall k :: 0 <= k < i ==>
        var a := GradeOf(gradesA, CATEGORIES[k].0);
        var b := GradeOf(gradesB, CATEGORIES[k].0);
        rows[k] == GradeRow(CATEGORIES[k].1, GradeCellOf(a), GradeCellOf(b), GradeEdgeOf(a, b))
    {
      var (key, caption) := CATEGORIES[i];
      var a := 0.0;
      if key in gradesA && gradesA[key].Some? {
        a := gradesA[key].value;
      }
      var b := 0.0;
      if key in gradesB && gradesB[key].Some? {
        b := gradesB[key].value;
      }
      rows := rows + [GradeRow(caption, GradeCellOf(a), GradeCellOf(b), GradeEdgeOf(a, b))];
      i := i + 1;
    }
  }

  // ===== render_injury_impact_table

  datatype Status = MajorImpact | MinorImpact | NoChange | SlightUpgrade | Upgrade

  /** The five bands of `diff = weekly - healthy` (lines 279-293). */
  function InjuryStatus(diff: real): (r: Status)
    ensures r == MajorImpact <==> diff < -3.0
    ensures r == MinorImpact <==> -3.0 <= diff < 0.0
    ensures r == NoChange <==> diff == 0.0
    ensures r == SlightUpgrade <==> 0.0 < diff <= 3.0
    ensures r == Upgrade <==> diff > 3.0
  {
    if diff < -3.0 then MajorImpact
    else if diff < 0.0 then MinorImpact
    else if diff > 3.0 then Upgrade
    else if diff > 0.0 then SlightUpgrade
    else NoChange
  }

  /** The bands in order, from the worst loss to the best gain. */
  function Severity(s: Status): nat {
    match s
    case MajorImpact => 0
    case MinorImpact => 1
    case NoChange => 2
    case SlightUpgrade => 3
    case Upgrade => 4
  }

  /** A larger difference never falls in a worse band. */
  lemma InjuryStatusMonotone(d1: real, d2: real)
    requires d1 <= d2
    ensures Severity(InjuryStatus(d1)) <= Severity(InjuryStatus(d2))
  {
  }

  datatype InjuryRow = InjuryRow(group: string, healthy: GradeCell, weekly: GradeCell, difference: real, status: Status)

  /** The rows of `render_injury_impact_table`, one per position group in the
      order of the label dictionary, which is the grades table's order. */
  method InjuryImpactTable(healthyGrades: map<string, Option<real>>, weeklyGrades: map<string, Option<real>>)
    returns (rows: seq<InjuryRow>)
    ensures |rows| == |CATEGORIES|
    ensures forall i :: 0 <= i < |CATEGORIES| ==>
      var h := GradeOf(healthyGrades, CATEGORIES[i].0);
      var w := GradeOf(weeklyGrades, CATEGORIES[i].0);
      rows[i] == InjuryRow(CATEGORIES[i].1, GradeCellOf(h), GradeCellOf(w), w - h, InjuryStatus(w - h))
  {
    rows := [];
    var i := 0;
    while i < |CATEGORIES|
      invariant 0 <= i <= |CATEGORIES|
      invariant |rows| == i
      invariant forall k :: 0 <= k < i ==>
        var h := GradeOf(healthyGrades, CATEGORIES[k].0);
        var w := GradeOf(weeklyGrades, CATEGORIES[k].0);
        rows[k] == InjuryRow(CATEGORIES[k].1, GradeCellOf(h), GradeCellOf(w), w - h, InjuryStatus(w - h))
    {
      var (key, caption) := CATEGORIES[i];
      var healthy := GradeOf(healthyGrades, key);
      var weekly := GradeOf(weeklyGrades, key);
      var diff := weekly - healthy;
      rows := rows + [InjuryRow(caption, GradeCellOf(healthy), GradeCellOf(weekly), diff, InjuryStatus(diff))];
      i := i + 1;
    }
  }

  /** A position group whose starters are all healthy shows no change, and one
      that lost more than three grade points shows a major impact. */
  lemma InjuryRowMeaning(row: InjuryRow, h: real, w: real)
    requires row.difference == w - h && row.status == InjuryStatus(w - h)
    ensures w == h ==> row.status == NoChange
    ensures w < h - 3.0 <==> row.status == MajorImpact
    ensures w > h <==> Severity(row.status) > Severity(NoChange)
  {
  }

  // ===== render_team_stats_table

  /** The stats and their labels, in table order (lines 314-327). */
  const STATS: seq<(string, string)> := [
    ("avg_points_scored", "Avg Points Scored"),
    ("avg_points_allowed", "Avg Points Allowed"),
    ("avg_offensive_epa", "Avg Offensive EPA"),
    ("avg_defensive_epa", "Avg Defensive EPA"),
    ("avg_pass_epa", "Avg Pass EPA"),
    ("avg_run_epa", "Avg Run EPA"),
    ("avg_pass_epa_allowed", "Avg Pass EPA Allowed"),
    ("avg_run_epa_allowed", "Avg Run EPA Allowed"),
    ("favorite_record", "Record as Favorite"),
    ("underdog_record", "Record as Underdog"),
    ("home_record", "Home Record"),
    ("road_record", "Road Record")
  ]

  /** The rows of `render_team_stats_table`: each stat's label and value,
      `"N/A"` for a stat the dictionary lacks. */
  method TeamStatsTable(data: map<string, Value>) returns (rows: seq<(string, Value)>)
    ensures |rows| == |STATS|
    ensures forall i :: 0 <= i < |STATS| ==> rows[i].0 == STATS[i].1
    ensures forall i :: 0 <= i < |STATS| && STATS[i].0 !in data ==> rows[i].1 == Str(NA)
    ensures forall i :: 0 <= i < |STATS| && STATS[i].0 in data ==> rows[i].1 == data[STATS[i].0]
  {
    rows := [];
    var i := 0;
    while i < |STATS|
      invariant 0 <= i <= |STATS|
      invariant |rows| == i
      invariant forall k :: 0 <= k < i ==> rows[k] == (STATS[k].1, Lookup(data, STATS[k].0))
    {
      rows := rows + [(STATS[i].1, Lookup(data, STATS[i].0))];
      i := i + 1;
    }
  }

  // ===== render_key_metrics

  /** A dictionary value of the key metrics: a plain value, or a tuple read
      as (value, delta). */
  datatype Entry = Single(v: Value) | Tuple(items: seq<Value>)

  /** One `st.metric` call: the column it is drawn in, the label, the value and the delta. */
  datatype Placement = Placement(column: nat, title: string, value: Value, delta: Option<Value>)

  /** The calls `render_key_metrics` makes, in order: item `i` in column
      `i % cols`, a tuple split into value and delta. A tuple with fewer than
      two elements raises `IndexError`; the columns are created first, which
      Streamlit refuses for fewer than one column. */
  method KeyMetricsLayout(items: seq<(string, Entry)>, cols: int) returns (r: Result<seq<Placement>>)
    requires cols > 0
    ensures r.Err? <==> exists i :: 0 <= i < |items| && items[i].1.Tuple? && |items[i].1.items| < 2
    ensures r.Err? ==> r.error == IndexError
    ensures r.Ok? ==> |r.value| == |items|
    ensures r.Ok? ==> forall i :: 0 <= i < |items| ==>
      r.value[i].column == i % cols && r.value[i].column < cols && r.value[i].title == items[i].0
    ensures r.Ok? ==> forall i :: 0 <= i < |items| ==>
      (items[i].1.Single? ==> r.value[i].value == items[i].1.v && r.value[i].delta.None?) &&
      (items[i].1.Tuple? ==> r.value[i].value == items[i].1.items[0] && r.value[i].delta == Some(items[i].1.items[1]))
  {
    var placed: seq<Placement> := [];
    var i := 0;
    while i < |items|
      invariant 0 <= i <= |items|
      invariant |placed| == i
      invariant forall k :: 0 <= k < i ==> !(items[k].1.Tuple? && |items[k].1.items| < 2)
      invariant forall k :: 0 <= k < i ==>
        placed[k].column == k % cols && placed[k].column < cols && placed[k].title == items[k].0
      invariant forall k :: 0 <= k < i ==>
        (items[k].1.Single? ==> placed[k].value == items[k].1.v && placed[k].delta.None?) &&
        (items[k].1.Tuple? ==> placed[k].value == items[k].1.items[0] && placed[k].delta == Some(items[k].1.items[1]))
    {
      var (name, entry) := items[i];
      var p: Placement;
      match entry {
        case Single(v) =>
          p := Placement(i % cols, name, v, None);
        case Tuple(vs) =>
          if |vs| < 2 {
            return Err(IndexError);
          }
          p := Placement(i % cols, name, vs[0], Some(vs[1]));
      }
      placed := placed + [p];
      i := i + 1;
    }
    return Ok(placed);
  }
}
