/** The metrics, and what a rule set makes of them. */
module Scoring {
  import opened Options
  import opened Sums
  import opened Rounding
  import opened MatchResults

  datatype Metric =
    | Appearance
    | SelfBanned
    | OpponentBanned
    | Win
    | Loss
    | HealthRemaining
    | HealthDifferential
    | HealthDifferentialTwoWay
    | Shutout

  // ---------------------------------------------------------------- the extractors

  function FirstBan(bans: seq<Ban>, hero: int): (r: Option<BanType>)
    ensures r.None? <==> forall b :: b in bans ==> b.hero != hero
  {
    if bans == [] then None
    else if bans[0].hero == hero then Some(bans[0].banType)
    else FirstBan(bans[1..], hero)
  }

  /** A hero struck more than once counts under the first of its bans. */
  lemma {:induction false} FirstBanIsFirst(bans: seq<Ban>, i: nat)
    requires i < |bans| && forall k :: 0 <= k < i ==> bans[k].hero != bans[i].hero
    ensures FirstBan(bans, bans[i].hero) == Some(bans[i].banType)
  {
    if i > 0 {
      FirstBanIsFirst(bans[1..], i - 1);
    }
  }

  function BanOfType(c: Context, banType: BanType): int {
    if c.role.Banned? && FirstBan(c.result.bans, c.hero) == Some(banType) then 1 else 0
  }

  function Healthiest(participants: seq<GameParticipant>): (best: int)
    requires participants != []
    ensures exists p :: p in participants && p.health == best
    ensures forall p :: p in participants ==> p.health <= best
  {
    var last := participants[|participants| - 1];
    if |participants| == 1 then last.health
    else
      var before := Healthiest(participants[..|participants| - 1]);
      if before < last.health then last.health else before
  }

  /** How far a hero finished ahead of the best of those it played, if it played anyone. */
  function HealthGap(c: Context): Option<int> {
    if c.role.Played? && c.Opponents() != [] then Some(c.role.participant.health - Healthiest(c.Opponents()))
    else None
  }

  function GapOrZero(c: Context): int {
    match HealthGap(c)
    case None => 0
    case Some(gap) => gap
  }

  /** The gap is to the best of the opponents: no smaller to any of them, and just that to one. */
  lemma GapIsToTheBest(c: Context)
    requires c.role.Played? && c.Opponents() != []
    ensures forall p :: p in c.Opponents() ==> GapOrZero(c) <= c.role.participant.health - p.health
    ensures exists p :: p in c.Opponents() && GapOrZero(c) == c.role.participant.health - p.health
  {
    var best := Healthiest(c.Opponents());
    var p :| p in c.Opponents() && p.health == best;
  }

  function Measure(metric: Metric, c: Context): int {
    match metric
    case Appearance => if c.role.Drafted? then 1 else 0
    case SelfBanned => BanOfType(c, SelfBan)
    case OpponentBanned => BanOfType(c, OpponentBan)
    case Win => if c.role.Played? && c.role.participant.isWinner then 1 else 0
    case Loss => if c.role.Played? && !c.role.participant.isWinner then 1 else 0
    case HealthRemaining => if c.role.Played? then c.role.participant.health else 0
    case HealthDifferential => if c.role.Played? && c.role.participant.isWinner then GapOrZero(c) else 0
    case HealthDifferentialTwoWay => GapOrZero(c)
    case Shutout =>
      if c.role.Played? && c.Opponents() != [] && (forall p | p in c.Opponents() :: p.health == 0) then 1 else 0
  }

  // ---------------------------------------------------------------- the rule set

  /** A configured row: a metric this build implements, or a name nothing measures. */
  datatype Key = Known(metric: Metric) | Unknown(name: string)

  datatype Weighting = Weighting(key: Key, coefficient: int)

  datatype Rules = Rules(scored: seq<Metric>, coefficients: map<Metric, int>) {
    ghost predicate Valid() {
      && (forall i, j :: 0 <= i < j < |scored| ==> scored[i] != scored[j])
      && (forall metric :: metric in scored <==> metric in coefficients)
    }

    function CoefficientOf(metric: Metric): int {
      if metric in coefficients then coefficients[metric] else 0
    }
  }

  /** The last row to configure a metric. */
  function LastRow(rows: seq<Weighting>, metric: Metric): Option<int> {
    if rows == [] then None
    else if rows[|rows| - 1].key == Known(metric) then Some(rows[|rows| - 1].coefficient)
    else LastRow(rows[..|rows| - 1], metric)
  }

  /** The known metrics, in the order their names first appear. */
  function FirstSeen(rows: seq<Weighting>): seq<Metric> {
    if rows == [] then []
    else
      var before, key := FirstSeen(rows[..|rows| - 1]), rows[|rows| - 1].key;
      if key.Known? && key.metric !in before then before + [key.metric] else before
  }

  /**
  Builds the rule set from rows whose names are already normalised.  A row for a metric already
  seen overwrites its weight and keeps its place; unknown names score nothing.
  */
  method NewRules(rows: seq<Weighting>) returns (rules: Rules)
    ensures rules.Valid() && rules.scored == FirstSeen(rows)
    ensures forall metric :: metric in rules.scored <==> LastRow(rows, metric).Some?
    ensures forall metric :: LastRow(rows, metric).Some? ==> rules.CoefficientOf(metric) == LastRow(rows, metric).value
    ensures forall metric :: LastRow(rows, metric).None? ==> rules.CoefficientOf(metric) == 0
  {
    rules := Rules([], map[]);
    for i := 0 to |rows|
      invariant rules.Valid() && rules.scored == FirstSeen(rows[..i])
      invariant forall metric :: metric in rules.scored <==> LastRow(rows[..i], metric).Some?
      invariant forall metric :: metric in rules.coefficients ==>
                  Some(rules.coefficients[metric]) == LastRow(rows[..i], metric)
    {
      assert rows[..i + 1][..i] == rows[..i];
      if rows[i].key.Known? {
        var metric := rows[i].key.metric;
        var scored := if metric in rules.scored then rules.scored else rules.scored + [metric];
        rules := Rules(scored, rules.coefficients[metric := rows[i].coefficient]);
      }
    }
    assert rows[..|rows|] == rows;
  }

  /** The first row that configures a metric. */
  ghost predicate FirstRow(rows: seq<Weighting>, metric: Metric, i: nat) {
    i < |rows| && rows[i].key == Known(metric) && forall k :: 0 <= k < i ==> rows[k].key != Known(metric)
  }

  /** Columns come in the order of the rows that first name them. */
  lemma {:induction false} ColumnsKeepTheirPlaces(rows: seq<Weighting>, a: Metric, b: Metric, i: nat, j: nat)
    requires FirstRow(rows, a, i) && FirstRow(rows, b, j) && i < j
    ensures exists p, q :: 0 <= p < q < |FirstSeen(rows)| && FirstSeen(rows)[p] == a && FirstSeen(rows)[q] == b
  {
    var n := |rows| - 1;
    var before := FirstSeen(rows[..n]);
    if j < n {
      ColumnsKeepTheirPlaces(rows[..n], a, b, i, j);
      var p, q :| 0 <= p < q < |before| && before[p] == a && before[q] == b;
      assert FirstSeen(rows)[p] == a && FirstSeen(rows)[q] == b;
    } else {
      SeenIsNamed(rows[..n], a);
      SeenIsNamed(rows[..n], b);
      assert rows[..n][i].key == Known(a);
      var p :| 0 <= p < |before| && before[p] == a;
      assert FirstSeen(rows) == before + [b];
      assert FirstSeen(rows)[p] == a && FirstSeen(rows)[|before|] == b;
    }
  }

  lemma {:induction false} SeenIsNamed(rows: seq<Weighting>, metric: Metric)
    ensures metric in FirstSeen(rows) <==> exists i :: 0 <= i < |rows| && rows[i].key == Known(metric)
  {
    if rows != [] {
      var n := |rows| - 1;
      SeenIsNamed(rows[..n], metric);
      assert forall i :: 0 <= i < n ==> rows[..n][i] == rows[i];
    }
  }

  /** A metric configured more than once has the weight of its last row. */
  lemma {:induction false} LastRowCounts(rows: seq<Weighting>, i: nat)
    requires i < |rows| && rows[i].key.Known?
    requires forall k :: i < k < |rows| ==> rows[k].key != rows[i].key
    ensures LastRow(rows, rows[i].key.metric) == Some(rows[i].coefficient)
    decreases |rows|
  {
    if i < |rows| - 1 {
      LastRowCounts(rows[..|rows| - 1], i);
    }
  }

  // ---------------------------------------------------------------- pricing a context

  datatype Entry = Entry(metric: Metric, points: int)

  /** What one metric is worth to one context, rounded on its own. */
  function Contribution(c: Context, rules: Rules, metric: Metric): int {
    if metric in rules.scored then Round2(Measure(metric, c) * rules.CoefficientOf(metric)) else 0
  }

  function PointsIn(entries: seq<Entry>, metric: Metric): int {
    if entries == [] then 0
    else
      var last := entries[|entries| - 1];
      PointsIn(entries[..|entries| - 1], metric) + (if last.metric == metric then last.points else 0)
  }

  function Total(entries: seq<Entry>): int {
    Sum(entries, (e: Entry) => e.points)
  }

  function BreakdownOf(c: Context, rules: Rules, scored: seq<Metric>): seq<Entry> {
    if scored == [] then []
    else
      var before, metric := BreakdownOf(c, rules, scored[..|scored| - 1]), scored[|scored| - 1];
      var points := Round2(Measure(metric, c) * rules.CoefficientOf(metric));
      if points == 0 then before else before + [Entry(metric, points)]
  }

  function Breakdown(c: Context, rules: Rules): seq<Entry> {
    BreakdownOf(c, rules, rules.scored)
  }

  function Score(c: Context, rules: Rules): int {
    Round2(Total(Breakdown(c, rules)))
  }

  lemma NothingMeasured()
    ensures Round2(0) == 0
  {
  }

  /** Column by column; what is worth nothing is left out. */
  method ComputeBreakdown(c: Context, rules: Rules) returns (result: seq<Entry>)
    ensures result == Breakdown(c, rules)
  {
    NothingMeasured();
    hide Round2, Measure;
    result := [];
    for i := 0 to |rules.scored|
      invariant result == BreakdownOf(c, rules, rules.scored[..i])
    {
      assert rules.scored[..i + 1][..i] == rules.scored[..i];
      var metric := rules.scored[i];
      var measured := Measure(metric, c);
      assert measured == 0 ==> measured * rules.CoefficientOf(metric) == 0;
      if measured != 0 {
        var points := Round2(measured * rules.CoefficientOf(metric));
        if points != 0 {
          result := result + [Entry(metric, points)];
        }
      }
    }
    assert rules.scored[..|rules.scored|] == rules.scored;
  }

  /** At a coefficient of one point a metric earns what it measures, and at minus a half it costs half of that. */
  lemma CoefficientsOfOneAndAHalf(c: Context, rules: Rules, metric: Metric)
    requires metric in rules.scored
    ensures rules.CoefficientOf(metric) == 10000 ==> Contribution(c, rules, metric) == 10000 * Measure(metric, c)
    ensures rules.CoefficientOf(metric) == -5000 ==> Contribution(c, rules, metric) == -5000 * Measure(metric, c)
  {
    var x := Measure(metric, c);
    assert 10000 * x == HUNDREDTH * (100 * x) && -5000 * x == HUNDREDTH * (-50 * x);
    hide Round2, Measure;
    RoundingKeepsHundredths(10000 * x);
    RoundingKeepsHundredths(-5000 * x);
  }

  lemma {:induction false} BreakdownPoints(c: Context, rules: Rules, scored: seq<Metric>, metric: Metric)
    requires forall i, j :: 0 <= i < j < |scored| ==> scored[i] != scored[j]
    ensures PointsIn(BreakdownOf(c, rules, scored), metric)
            == (if metric in scored then Round2(Measure(metric, c) * rules.CoefficientOf(metric)) else 0)
  {
    if scored != [] {
      var init, last := scored[..|scored| - 1], scored[|scored| - 1];
      BreakdownPoints(c, rules, init, metric);
      assert metric in scored <==> metric in init || metric == last;
      var before := BreakdownOf(c, rules, init);
      var points := Round2(Measure(last, c) * rules.CoefficientOf(last));
      if points != 0 {
        assert (before + [Entry(last, points)])[..|before|] == before;
      }
    }
  }

  /** A breakdown holds each metric's contribution, and the total is theirs. */
  lemma BreakdownHoldsContributions(c: Context, rules: Rules, metric: Metric)
    requires rules.Valid()
    ensures PointsIn(Breakdown(c, rules), metric) == Contribution(c, rules, metric)
    ensures IsHundredths(Contribution(c, rules, metric))
  {
    BreakdownPoints(c, rules, rules.scored, metric);
    RoundingErrs(Measure(metric, c) * rules.CoefficientOf(metric));
  }

  lemma {:induction false} BreakdownTotal(c: Context, rules: Rules, scored: seq<Metric>)
    requires forall metric :: metric in scored ==> metric in rules.scored
    ensures Total(BreakdownOf(c, rules, scored)) == Sum(scored, metric => Contribution(c, rules, metric))
    ensures forall e :: e in BreakdownOf(c, rules, scored) ==> IsHundredths(e.points)
  {
    if scored != [] {
      var init, last := scored[..|scored| - 1], scored[|scored| - 1];
      BreakdownTotal(c, rules, init);
      RoundingErrs(Measure(last, c) * rules.CoefficientOf(last));
      var before := BreakdownOf(c, rules, init);
      if Contribution(c, rules, last) != 0 {
        var entry := Entry(last, Contribution(c, rules, last));
        assert (before + [entry])[..|before|] == before;
      }
    }
  }

  /** Rounding the total of a breakdown changes nothing: a score is its contributions added up. */
  lemma ScoreIsTheSum(c: Context, rules: Rules)
    requires rules.Valid()
    ensures Score(c, rules) == Sum(rules.scored, metric => Contribution(c, rules, metric))
    ensures Score(c, rules) == Total(Breakdown(c, rules)) && IsHundredths(Score(c, rules))
  {
    BreakdownTotal(c, rules, rules.scored);
    SumOfHundredths(Breakdown(c, rules), (e: Entry) => e.points);
  }

  /** What a breakdown shows: metrics' own contributions, never nothing. */
  lemma {:induction false} BreakdownShows(c: Context, rules: Rules, scored: seq<Metric>, e: Entry)
    requires e in BreakdownOf(c, rules, scored) && forall metric :: metric in scored ==> metric in rules.scored
    ensures e.metric in scored && e.points == Contribution(c, rules, e.metric) != 0
  {
    hide Round2, Measure, Rules.CoefficientOf;
    var n := |scored| - 1;
    if e in BreakdownOf(c, rules, scored[..n]) {
      BreakdownShows(c, rules, scored[..n], e);
    } else {
      assert scored[n] in rules.scored;
    }
  }

  /** And no contribution that is something is left out. */
  lemma {:induction false} BreakdownHasThemAll(c: Context, rules: Rules, scored: seq<Metric>, metric: Metric)
    requires metric in scored && forall other :: other in scored ==> other in rules.scored
    requires Contribution(c, rules, metric) != 0
    ensures Entry(metric, Contribution(c, rules, metric)) in BreakdownOf(c, rules, scored)
  {
    hide Round2, Measure, Rules.CoefficientOf;
    var n := |scored| - 1;
    if metric in scored[..n] {
      BreakdownHasThemAll(c, rules, scored[..n], metric);
    }
  }

  /** And what is shown of the first columns comes before what is shown of the rest. */
  lemma {:induction false} BreakdownInColumnOrder(c: Context, rules: Rules, front: seq<Metric>, back: seq<Metric>)
    ensures BreakdownOf(c, rules, front + back) == BreakdownOf(c, rules, front) + BreakdownOf(c, rules, back)
  {
    if back == [] {
      assert front + back == front;
    } else {
      assert (front + back)[..|front + back| - 1] == front + back[..|back| - 1];
      BreakdownInColumnOrder(c, rules, front, back[..|back| - 1]);
    }
  }
}
