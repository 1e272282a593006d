/**
  Detection: for the agent whose turn it is, scan the population and enqueue one
  combat intent per other living agent that it can reach and is allowed to
  attack. The visitor's double dispatch becomes a match on the species.
*/
module Detection {
  import opened Options
  import opened Npcs
  import opened BattleQueues

  /** Reference definition of a target that detection must report: a different,
      living agent within the living attacker's range that the attacker may attack. */
  predicate Eligible(pop: Population, cur: nat, j: nat)
    requires cur < |pop| && j < |pop|
  {
    && j != cur
    && pop[cur].alive
    && pop[j].alive
    && Preys(pop[cur].species, pop[j].species)
    && DistSq(pop[cur], pop[j]) <= ReachSq(pop[cur].species)
  }

  /** The eligible targets among the first `n` agents, in population order. */
  function EligibleDefenders(pop: Population, cur: nat, n: nat): (r: seq<nat>)
    requires cur < |pop| && n <= |pop|
    ensures forall k :: 0 <= k < |r| ==> r[k] < n
    ensures forall j :: 0 <= j < n ==> (j in r <==> Eligible(pop, cur, j))
    ensures forall k, l :: 0 <= k < l < |r| ==> r[k] < r[l]
    ensures pop[cur].species == Druid || !pop[cur].alive ==> r == []
  {
    if n == 0 then []
    else
      var prefix := EligibleDefenders(pop, cur, n - 1);
      if Eligible(pop, cur, n - 1) then prefix + [n - 1] else prefix
  }

  /** One intent per listed defender, with `cur` as the attacker. */
  function Intents(cur: nat, defenders: seq<nat>): (r: seq<BattleTask>)
    ensures |r| == |defenders|
    ensures forall k :: 0 <= k < |r| ==> r[k] == BattleTask(cur, defenders[k])
  {
    seq(|defenders|, k requires 0 <= k < |defenders| => BattleTask(cur, defenders[k]))
  }

  /** The first loop of the scan: the other living agents among the first `n`. */
  function AliveTargets(pop: Population, cur: nat, n: nat): (r: seq<nat>)
    requires n <= |pop|
    ensures forall k :: 0 <= k < |r| ==> r[k] < n
    ensures forall j :: 0 <= j < n ==> (j in r <==> j != cur && pop[j].alive)
    ensures forall k, l :: 0 <= k < l < |r| ==> r[k] < r[l]
  {
    if n == 0 then []
    else
      var prefix := AliveTargets(pop, cur, n - 1);
      if n - 1 != cur && pop[n - 1].alive then prefix + [n - 1] else prefix
  }

  /** The body of the second loop for target `j`: range check, then capability check. */
  function Examine(pop: Population, cur: nat, j: nat, q: BattleQueue): (r: BattleQueue)
    requires cur < |pop| && j < |pop|
    ensures r.stopped == q.stopped
    ensures r.tasks == q.tasks || r.tasks == q.tasks + [BattleTask(cur, j)]
    ensures pop[cur].alive ==> (r.tasks != q.tasks <==> Eligible(pop, cur, j))
  {
    assert ReachSq(pop[cur].species) == AttackDistance(pop[cur].species) * AttackDistance(pop[cur].species);
    var attacker := pop[cur];
    if InRange(Distance(pop, cur, Some(j)), AttackDistance(attacker.species))
       && CanAttack(attacker.species, Some(pop[j]))
    then AddTask(q, BattleTask(cur, j))
    else q
  }

  /** The second loop: examine the targets front to back. */
  function ScanTargets(pop: Population, cur: nat, targets: seq<nat>, q: BattleQueue): (r: BattleQueue)
    requires cur < |pop|
    requires forall k :: 0 <= k < |targets| ==> targets[k] < |pop|
    ensures r.stopped == q.stopped
    ensures |q.tasks| <= |r.tasks| <= |q.tasks| + |targets|
    ensures r.tasks[..|q.tasks|] == q.tasks
    ensures forall k :: |q.tasks| <= k < |r.tasks| ==> r.tasks[k].attacker == cur && r.tasks[k].defender in targets
    ensures (forall k, l :: 0 <= k < l < |targets| ==> targets[k] < targets[l]) ==>
      forall k, l :: |q.tasks| <= k < l < |r.tasks| ==> r.tasks[k].defender < r.tasks[l].defender
  {
    if |targets| == 0 then q
    else Examine(pop, cur, targets[|targets| - 1], ScanTargets(pop, cur, targets[..|targets| - 1], q))
  }

  /** One more living target: the scan either enqueues the intent against it or not,
      according to eligibility. */
  lemma ScanStep(pop: Population, cur: nat, ts: seq<nat>, m: nat, q: BattleQueue)
    requires cur < |pop| && m < |pop|
    requires m != cur && pop[m].alive && pop[cur].alive
    requires forall k :: 0 <= k < |ts| ==> ts[k] < |pop|
    ensures ScanTargets(pop, cur, ts + [m], q)
            == if Eligible(pop, cur, m) then AddTask(ScanTargets(pop, cur, ts, q), BattleTask(cur, m))
               else ScanTargets(pop, cur, ts, q)
  {
    assert (ts + [m])[..|ts + [m]| - 1] == ts;
    assert Distance(pop, cur, Some(m)) == Euclid(DistSq(pop[cur], pop[m]));
    assert ReachSq(pop[cur].species) == AttackDistance(pop[cur].species) * AttackDistance(pop[cur].species);
  }

  lemma IntentsAppend(cur: nat, es: seq<nat>, m: nat)
    ensures Intents(cur, es + [m]) == Intents(cur, es) + [BattleTask(cur, m)]
  {
  }

  /** The inductive step of the scan lemma for an eligible target. */
  lemma AppendStep(pop: Population, cur: nat, n: nat, q: BattleQueue, ts: seq<nat>, es: seq<nat>, before: BattleQueue)
    requires cur < |pop| && 0 < n <= |pop|
    requires forall k :: 0 <= k < |ts| ==> ts[k] < |pop|
    requires AliveTargets(pop, cur, n) == ts + [n - 1]
    requires EligibleDefenders(pop, cur, n) == es + [n - 1]
    requires ScanTargets(pop, cur, ts + [n - 1], q) == AddTask(before, BattleTask(cur, n - 1))
    requires before.tasks == q.tasks + Intents(cur, es)
    ensures ScanTargets(pop, cur, AliveTargets(pop, cur, n), q).tasks
            == q.tasks + Intents(cur, EligibleDefenders(pop, cur, n))
  {
    IntentsAppend(cur, es, n - 1);
    assert q.tasks + Intents(cur, es) + [BattleTask(cur, n - 1)] == q.tasks + Intents(cur, es + [n - 1]);
  }

  /** Scanning the living targets adds exactly the intents against the eligible ones. */
  lemma {:induction false} ScanAddsEligibleIntents(pop: Population, cur: nat, n: nat, q: BattleQueue)
    requires cur < |pop| && n <= |pop|
    requires pop[cur].alive
    ensures ScanTargets(pop, cur, AliveTargets(pop, cur, n), q).stopped == q.stopped
    ensures ScanTargets(pop, cur, AliveTargets(pop, cur, n), q).tasks
            == q.tasks + Intents(cur, EligibleDefenders(pop, cur, n))
  {
    if n == 0 {
      assert q.tasks + [] == q.tasks;
    } else {
      var m := n - 1;
      ScanAddsEligibleIntents(pop, cur, m, q);
      var ts := AliveTargets(pop, cur, m);
      var es := EligibleDefenders(pop, cur, m);
      var before := ScanTargets(pop, cur, ts, q);
      if m != cur && pop[m].alive {
        ScanStep(pop, cur, ts, m, q);
        if Eligible(pop, cur, m) {
          AppendStep(pop, cur, n, q, ts, es, before);
        }
      }
    }
  }

  /** The scan for a living agent that may attack. */
  function DetectForNpc(pop: Population, cur: nat, q: BattleQueue): (r: BattleQueue)
    requires cur < |pop|
    ensures r.stopped == q.stopped
    ensures r.tasks == q.tasks + Intents(cur, EligibleDefenders(pop, cur, |pop|))
  {
    if !pop[cur].alive then
      assert q.tasks + Intents(cur, EligibleDefenders(pop, cur, |pop|)) == q.tasks;
      q
    else
      ScanAddsEligibleIntents(pop, cur, |pop|, q);
      ScanTargets(pop, cur, AliveTargets(pop, cur, |pop|), q)
  }

  /** Detection for the agent at `cur`: a Druid is dispatched to an empty visit,
      the other species scan. The queue only grows at the back, by one intent per
      eligible target in population order. */
  function DetectBattles(pop: Population, cur: nat, q: BattleQueue): (r: BattleQueue)
    requires cur < |pop|
    ensures r.stopped == q.stopped
    ensures r.tasks == q.tasks + Intents(cur, EligibleDefenders(pop, cur, |pop|))
  {
    var es := EligibleDefenders(pop, cur, |pop|);
    if pop[cur].species == Druid || !pop[cur].alive then
      assert q.tasks + Intents(cur, es) == q.tasks;
      q
    else
      DetectForNpc(pop, cur, q)
  }

  /** What one detection run appends, stated without the intermediate functions:
      only intents of `cur` against eligible targets, every eligible target exactly
      once, in increasing population order, behind the untouched earlier contents. */
  lemma DetectionAppendsExactlyEligible(pop: Population, cur: nat, q: BattleQueue)
    requires cur < |pop|
    ensures var r := DetectBattles(pop, cur, q);
      && |q.tasks| <= |r.tasks|
      && r.tasks[..|q.tasks|] == q.tasks
      && (forall k :: |q.tasks| <= k < |r.tasks| ==>
            && r.tasks[k].attacker == cur
            && r.tasks[k].defender < |pop|
            && Eligible(pop, cur, r.tasks[k].defender))
      && (forall k, l :: |q.tasks| <= k < l < |r.tasks| ==> r.tasks[k].defender < r.tasks[l].defender)
      && (forall j :: 0 <= j < |pop| && Eligible(pop, cur, j) ==> BattleTask(cur, j) in r.tasks[|q.tasks|..])
  {
    var r := DetectBattles(pop, cur, q);
    var es := EligibleDefenders(pop, cur, |pop|);
    var added := Intents(cur, es);
    assert r.tasks[..|q.tasks|] == q.tasks;
    assert r.tasks[|q.tasks|..] == added;
    forall k | |q.tasks| <= k < |r.tasks|
      ensures r.tasks[k].attacker == cur && r.tasks[k].defender < |pop|
      ensures Eligible(pop, cur, r.tasks[k].defender)
    {
      assert r.tasks[k] == added[k - |q.tasks|];
      assert es[k - |q.tasks|] in es;
    }
    forall j | 0 <= j < |pop| && Eligible(pop, cur, j)
      ensures BattleTask(cur, j) in r.tasks[|q.tasks|..]
    {
      var k :| 0 <= k < |es| && es[k] == j;
      assert added[k] == BattleTask(cur, j);
    }
  }

  /** The test scenario: a Squirrel next to a Werewolf yields exactly one intent,
      with the Squirrel attacking; the Werewolf, which may not attack Squirrels, yields none. */
  lemma AdjacentScenario()
    ensures var pop := [Npc("Sq", Squirrel, 100.0, 100.0, true), Npc("Wolf", Werewolf, 101.0, 101.0, true)];
      DetectBattles(pop, 0, EmptyQueue).tasks == [BattleTask(0, 1)]
      && DetectBattles(pop, 1, EmptyQueue).tasks == []
  {
    var pop := [Npc("Sq", Squirrel, 100.0, 100.0, true), Npc("Wolf", Werewolf, 101.0, 101.0, true)];
    AdjacentSquirrelAttacks(pop);
    AdjacentWerewolfHolds(pop);
  }

  lemma AdjacentSquirrelAttacks(pop: Population)
    requires pop == [Npc("Sq", Squirrel, 100.0, 100.0, true), Npc("Wolf", Werewolf, 101.0, 101.0, true)]
    ensures DetectBattles(pop, 0, EmptyQueue).tasks == [BattleTask(0, 1)]
  {
    assert DistSq(pop[0], pop[1]) == 2.0;
    assert Eligible(pop, 0, 1);
    assert !Eligible(pop, 0, 0);
    assert EligibleDefenders(pop, 0, 1) == [];
    assert EligibleDefenders(pop, 0, 2) == [1];
  }

  lemma AdjacentWerewolfHolds(pop: Population)
    requires pop == [Npc("Sq", Squirrel, 100.0, 100.0, true), Npc("Wolf", Werewolf, 101.0, 101.0, true)]
    ensures DetectBattles(pop, 1, EmptyQueue).tasks == []
  {
    assert !Eligible(pop, 1, 0);
    assert !Eligible(pop, 1, 1);
    assert EligibleDefenders(pop, 1, 1) == [];
    assert EligibleDefenders(pop, 1, 2) == [];
  }

  /** The test's distant pair: whatever the species, agents at (100, 100) and (200, 200)
      are out of every range, so neither raises an intent. */
  lemma OutOfRangeScenario(a: Species, b: Species)
    ensures var pop := [Npc("A", a, 100.0, 100.0, true), Npc("B", b, 200.0, 200.0, true)];
      DetectBattles(pop, 0, EmptyQueue).tasks == [] && DetectBattles(pop, 1, EmptyQueue).tasks == []
  {
    var pop := [Npc("A", a, 100.0, 100.0, true), Npc("B", b, 200.0, 200.0, true)];
    assert DistSq(pop[0], pop[1]) == 20000.0;
    assert DistSq(pop[1], pop[0]) == 20000.0;
    assert !Eligible(pop, 0, 1) && !Eligible(pop, 0, 0);
    assert !Eligible(pop, 1, 0) && !Eligible(pop, 1, 1);
    assert EligibleDefenders(pop, 0, 1) == [];
    assert EligibleDefenders(pop, 0, 2) == [];
    assert EligibleDefenders(pop, 1, 1) == [];
    assert EligibleDefenders(pop, 1, 2) == [];
  }
}
