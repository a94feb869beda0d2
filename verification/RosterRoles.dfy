/** Roles assigned from a round on, which one is in force, and what it adds to a game. */
module RosterRoles {
  import opened Options
  import opened Sums
  import opened Rounding

  datatype Assignment = Assignment(hero: int, fromRound: int, role: int)

  datatype Weight = Weight(stat: string, value: int)

  datatype RosterRole = RosterRole(weights: seq<Weight>)

  /** No book at all stands for a tournament without roles. */
  type RoleBook = map<int, RosterRole>

  /** The assignment in force: the greatest round not past this one, the later row on a tie. */
  function InForce(assignments: seq<Assignment>, hero: int, round: int): (r: Option<Assignment>)
    ensures r.None? <==> forall a :: a in assignments ==> !(a.hero == hero && a.fromRound <= round)
    ensures r.Some? ==> r.value in assignments && r.value.hero == hero && r.value.fromRound <= round
    ensures r.Some? ==>
              forall a :: a in assignments && a.hero == hero && a.fromRound <= round ==>
                a.fromRound <= r.value.fromRound
  {
    if assignments == [] then None
    else
      var init, last := assignments[..|assignments| - 1], assignments[|assignments| - 1];
      var before := InForce(init, hero, round);
      assert forall a :: a in assignments <==> a in init || a == last;
      if last.hero == hero && last.fromRound <= round && (before.None? || before.value.fromRound <= last.fromRound)
      then Some(last)
      else before
  }

  function RoleAt(assignments: seq<Assignment>, hero: int, round: int): Option<int> {
    match InForce(assignments, hero, round)
    case None => None
    case Some(a) => Some(a.role)
  }

  /** Not overtaken by another row of its hero: none of a later round reached, nor a later row of the same round. */
  ghost predicate IsLatest(assignments: seq<Assignment>, round: int, i: nat)
    requires i < |assignments|
  {
    var a := assignments[i];
    forall k :: 0 <= k < |assignments| && assignments[k].hero == a.hero && assignments[k].fromRound <= round ==>
      assignments[k].fromRound < a.fromRound || (assignments[k].fromRound == a.fromRound && k <= i)
  }

  lemma InForceIsARow(assignments: seq<Assignment>, hero: int, round: int) returns (k: nat)
    requires InForce(assignments, hero, round).Some?
    ensures k < |assignments| && assignments[k] == InForce(assignments, hero, round).value
    ensures assignments[k].hero == hero && assignments[k].fromRound <= round
  {
    k :| 0 <= k < |assignments| && assignments[k] == InForce(assignments, hero, round).value;
  }

  /** Of the assignments of the greatest round reached, the last row counts. */
  lemma {:induction false} LastOfTheLatest(assignments: seq<Assignment>, round: int, i: nat)
    requires i < |assignments| && assignments[i].fromRound <= round && IsLatest(assignments, round, i)
    ensures InForce(assignments, assignments[i].hero, round) == Some(assignments[i])
    ensures RoleAt(assignments, assignments[i].hero, round) == Some(assignments[i].role)
    decreases |assignments|
  {
    var n, a := |assignments| - 1, assignments[i];
    var init, last := assignments[..n], assignments[n];
    var before := InForce(init, a.hero, round);
    if i < n {
      assert IsLatest(init, round, i);
      LastOfTheLatest(init, round, i);
      assert last.hero == a.hero && last.fromRound <= round ==> last.fromRound < a.fromRound;
    } else if before.Some? {
      var k := InForceIsARow(init, a.hero, round);
      assert assignments[k] == init[k];
    }
  }

  ghost predicate AllBy(assignments: seq<Assignment>, round: int) {
    forall a :: a in assignments ==> a.fromRound <= round
  }

  /**
  One pass over the log, later rows replacing earlier ones.  From the last logged round on, what is
  left for a hero is the role in force, rows of the same round included.
  */
  method CurrentRoles(assignments: seq<Assignment>) returns (roles: map<int, int>)
    ensures forall hero :: hero in roles <==> exists a :: a in assignments && a.hero == hero
    ensures forall hero, round :: AllBy(assignments, round) ==>
              RoleAt(assignments, hero, round) == (if hero in roles then Some(roles[hero]) else None)
  {
    var latest: map<int, Assignment> := map[];
    for i := 0 to |assignments|
      invariant forall hero :: hero in latest <==> exists a :: a in assignments[..i] && a.hero == hero
      invariant forall hero, round :: AllBy(assignments[..i], round) ==>
                  InForce(assignments[..i], hero, round) == (if hero in latest then Some(latest[hero]) else None)
    {
      ghost var init := assignments[..i];
      var a := assignments[i];
      assert assignments[..i + 1][..i] == init;
      assert forall b :: b in assignments[..i + 1] <==> b in init || b == a;
      forall round | AllBy(assignments[..i + 1], round) ensures AllBy(init, round) && a.fromRound <= round {
        assert a in assignments[..i + 1];
        assert forall b :: b in init ==> b in assignments[..i + 1];
      }
      if a.hero !in latest || a.fromRound >= latest[a.hero].fromRound {
        latest := latest[a.hero := a];
      }
    }
    assert assignments[..|assignments|] == assignments;
    roles := map hero | hero in latest :: latest[hero].role;
  }

  /** A re-assignment from round `q` on leaves every earlier round's role as it was. */
  lemma {:induction false} ReassignmentsNeverRewriteHistory(
      assignments: seq<Assignment>, more: seq<Assignment>, hero: int, round: int)
    requires forall a :: a in more ==> round < a.fromRound
    ensures RoleAt(assignments + more, hero, round) == RoleAt(assignments, hero, round)
    decreases |more|
  {
    if more == [] {
      assert assignments + more == assignments;
    } else {
      var n := |more| - 1;
      assert (assignments + more)[..|assignments| + n] == assignments + more[..n];
      assert more[n] in more;
      ReassignmentsNeverRewriteHistory(assignments, more[..n], hero, round);
    }
  }

  // ---------------------------------------------------------------- the bonus

  function StatPoints(stats: map<string, int>, weight: Weight): int {
    if weight.stat in stats then Round2(stats[weight.stat] * weight.value) else 0
  }

  /** Each stat rounded on its own, then floored at nothing: a role never takes points away. */
  function RoleBonus(role: RosterRole, stats: map<string, int>): (bonus: int)
    ensures bonus >= 0 && IsHundredths(bonus)
    ensures bonus >= Sum(role.weights, (w: Weight) => StatPoints(stats, w))
    ensures bonus > 0 ==> bonus == Sum(role.weights, (w: Weight) => StatPoints(stats, w))
  {
    StatPointsAreHundredths(role.weights, stats);
    var total := Round2(Sum(role.weights, (w: Weight) => StatPoints(stats, w)));
    if total > 0 then total else 0
  }

  /** At a weight of one point a stat earns itself, and at a weight of minus a half it costs half of itself. */
  lemma WeightsOfOneAndAHalf(stats: map<string, int>, stat: string)
    requires stat in stats
    ensures StatPoints(stats, Weight(stat, 10000)) == 10000 * stats[stat]
    ensures StatPoints(stats, Weight(stat, -5000)) == -5000 * stats[stat]
  {
    var x := stats[stat];
    assert 10000 * x == HUNDREDTH * (100 * x) && -5000 * x == HUNDREDTH * (-50 * x);
    hide Round2;
    RoundingKeepsHundredths(10000 * x);
    RoundingKeepsHundredths(-5000 * x);
  }

  lemma StatPointsAreHundredths(weights: seq<Weight>, stats: map<string, int>)
    ensures var total := Sum(weights, (w: Weight) => StatPoints(stats, w));
      IsHundredths(total) && Round2(total) == total
  {
    forall w | w in weights ensures IsHundredths(StatPoints(stats, w)) {
      if w.stat in stats {
        RoundingErrs(stats[w.stat] * w.value);
      }
    }
    SumOfHundredths(weights, (w: Weight) => StatPoints(stats, w));
  }
}
