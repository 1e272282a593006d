/**
  The engine: it owns the population, the battle queue and the event logger.
  The three workers are modelled as sequential operations: one movement tick,
  the resolution of one intent, and the resolver's drain after shutdown, plus
  the population summaries and the initial spawn.
*/
module GameEngine {
  import opened Options
  import opened Npcs
  import opened BattleQueues
  import opened Detection
  import opened Observers
  import Factory

  // ---------------------------------------------------------------------------
  // Constants and state

  /** The movement domain, narrower than the spawn validation domain. */
  const MapMinX: real := 0.0
  const MapMaxX: real := 100.0
  const MapMinY: real := 0.0
  const MapMaxY: real := 100.0
  const MapBounds: Bounds := Bounds(MapMinX, MapMaxX, MapMinY, MapMaxY)

  /** Size of the initial population. */
  const NpcCount: nat := 50

  datatype Engine = Engine(npcs: Population, queue: BattleQueue, running: bool, logger: BattleSubject)

  /** Shutdown: first clear the running flag, then stop the queue; buffered intents stay. */
  function Stop(e: Engine): (r: Engine)
    ensures !r.running && r.queue.stopped
    ensures r.queue.tasks == e.queue.tasks
    ensures r.npcs == e.npcs && r.logger == e.logger
  {
    e.(running := false, queue := BattleQueues.Stop(e.queue))
  }

  // ---------------------------------------------------------------------------
  // Population summaries

  /** Number of living agents. */
  function AliveCount(pop: Population): nat
  {
    if |pop| == 0 then 0
    else AliveCount(pop[..|pop| - 1]) + (if pop[|pop| - 1].alive then 1 else 0)
  }

  /** Number of living agents of species `s`. */
  function SpeciesCount(pop: Population, s: Species): nat
  {
    if |pop| == 0 then 0
    else SpeciesCount(pop[..|pop| - 1], s) + (if pop[|pop| - 1].alive && pop[|pop| - 1].species == s then 1 else 0)
  }

  /** The living agents split into the three species. */
  lemma {:induction false} AliveCountBySpecies(pop: Population)
    ensures AliveCount(pop) == SpeciesCount(pop, Squirrel) + SpeciesCount(pop, Werewolf) + SpeciesCount(pop, Druid)
  {
    if |pop| > 0 {
      AliveCountBySpecies(pop[..|pop| - 1]);
    }
  }

  /** Indices of the living agents, in population order. */
  function AliveIndices(pop: Population): (r: seq<nat>)
    ensures |r| == AliveCount(pop)
    ensures forall k :: 0 <= k < |r| ==> r[k] < |pop| && pop[r[k]].alive
    ensures forall i :: 0 <= i < |pop| && pop[i].alive ==> i in r
    ensures forall k, l :: 0 <= k < l < |r| ==> r[k] < r[l]
  {
    if |pop| == 0 then []
    else
      var prefix := AliveIndices(pop[..|pop| - 1]);
      if pop[|pop| - 1].alive then prefix + [|pop| - 1] else prefix
  }

  /** Killing a living agent lowers the alive count by exactly one. */
  lemma {:induction false} KillLowersAliveCount(pop: Population, d: nat)
    requires d < |pop| && pop[d].alive
    ensures AliveCount(pop[d := pop[d].(alive := false)]) + 1 == AliveCount(pop)
  {
    var after := pop[d := pop[d].(alive := false)];
    var n := |pop| - 1;
    if d == n {
      assert after[..n] == pop[..n];
    } else {
      assert after[..n] == pop[..n][d := pop[d].(alive := false)];
      KillLowersAliveCount(pop[..n], d);
    }
  }

  /** Per-species counters of the living agents seen so far. */
  datatype Tally = Tally(squirrels: nat, werewolves: nat, druids: nat)

  /** Counts one living agent under its species, classified as the program does, by comparing
      its type name against the three names in turn. */
  function Count(t: Tally, n: Npc): (r: Tally)
    ensures r.squirrels == t.squirrels + (if n.species == Squirrel then 1 else 0)
    ensures r.werewolves == t.werewolves + (if n.species == Werewolf then 1 else 0)
    ensures r.druids == t.druids + (if n.species == Druid then 1 else 0)
  {
    SpeciesTable(n.species, Squirrel);
    SpeciesTable(n.species, Werewolf);
    if TypeName(n.species) == "Squirrel" then t.(squirrels := t.squirrels + 1)
    else if TypeName(n.species) == "Werewolf" then t.(werewolves := t.werewolves + 1)
    else if TypeName(n.species) == "Druid" then t.(druids := t.druids + 1)
    else t
  }

  /** The tally of a whole population. */
  predicate Tallies(pop: Population, t: Tally)
  {
    && t.squirrels == SpeciesCount(pop, Squirrel)
    && t.werewolves == SpeciesCount(pop, Werewolf)
    && t.druids == SpeciesCount(pop, Druid)
  }

  /** Extending a counted prefix by one agent. */
  lemma TallyStep(pop: Population, i: nat, t: Tally)
    requires i < |pop| && Tallies(pop[..i], t)
    ensures Tallies(pop[..i + 1], if pop[i].alive then Count(t, pop[i]) else t)
    ensures AliveCount(pop[..i + 1]) == AliveCount(pop[..i]) + (if pop[i].alive then 1 else 0)
  {
    assert pop[..i + 1][..i] == pop[..i];
  }

  /** The counts of the map display. */
  method MapCensus(pop: Population) returns (alive: nat, squirrels: nat, werewolves: nat, druids: nat)
    ensures alive == AliveCount(pop)
    ensures alive == squirrels + werewolves + druids
    ensures squirrels == SpeciesCount(pop, Squirrel)
    ensures werewolves == SpeciesCount(pop, Werewolf)
    ensures druids == SpeciesCount(pop, Druid)
  {
    alive := 0;
    var t := Tally(0, 0, 0);
    var i := 0;
    while i < |pop|
      invariant 0 <= i <= |pop|
      invariant alive == AliveCount(pop[..i])
      invariant Tallies(pop[..i], t)
    {
      TallyStep(pop, i, t);
      if pop[i].alive {
        alive := alive + 1;
        t := Count(t, pop[i]);
      }
      i := i + 1;
    }
    assert pop[..|pop|] == pop;
    AliveCountBySpecies(pop);
    squirrels, werewolves, druids := t.squirrels, t.werewolves, t.druids;
  }

  /** Extending the survivor list of a prefix by one agent. */
  lemma AliveIndicesStep(pop: Population, i: nat)
    requires i < |pop|
    ensures AliveIndices(pop[..i + 1]) == if pop[i].alive then AliveIndices(pop[..i]) + [i] else AliveIndices(pop[..i])
  {
    assert pop[..i + 1][..i] == pop[..i];
  }

  /** The final report: the living agents in population order, and the per-species counts. */
  method SurvivorReport(pop: Population) returns (survivors: seq<Npc>, squirrels: nat, werewolves: nat, druids: nat)
    ensures |survivors| == |AliveIndices(pop)|
    ensures forall k :: 0 <= k < |survivors| ==> survivors[k] == pop[AliveIndices(pop)[k]]
    ensures |survivors| == squirrels + werewolves + druids
    ensures squirrels == SpeciesCount(pop, Squirrel)
    ensures werewolves == SpeciesCount(pop, Werewolf)
    ensures druids == SpeciesCount(pop, Druid)
  {
    survivors := [];
    var t := Tally(0, 0, 0);
    var i := 0;
    while i < |pop|
      invariant 0 <= i <= |pop|
      invariant |survivors| == |AliveIndices(pop[..i])|
      invariant forall k :: 0 <= k < |survivors| ==> survivors[k] == pop[AliveIndices(pop[..i])[k]]
      invariant Tallies(pop[..i], t)
    {
      TallyStep(pop, i, t);
      AliveIndicesStep(pop, i);
      if pop[i].alive {
        survivors := survivors + [pop[i]];
        t := Count(t, pop[i]);
      }
      i := i + 1;
    }
    assert pop[..|pop|] == pop;
    AliveCountBySpecies(pop);
    squirrels, werewolves, druids := t.squirrels, t.werewolves, t.druids;
  }

  // ---------------------------------------------------------------------------
  // Spawning

  /** The random draws for one spawned agent: its species and its position. */
  datatype SpawnDraw = SpawnDraw(kind: Species, x: real, y: real)

  /** The half-open range the spawn positions are drawn from. */
  predicate InSpawnRange(v: real)
  {
    MapMinX + 1.0 <= v < MapMaxX - 1.0
  }

  /** Decimal rendering of a number. */
  function NatToString(n: nat): (r: string)
    ensures |r| > 0
    ensures forall k :: 0 <= k < |r| ==> '0' <= r[k] <= '9'
  {
    if n < 10 then [('0' as int + n) as char]
    else NatToString(n / 10) + [('0' as int + n % 10) as char]
  }

  /** Agent `i` is named after its species and its index. */
  function SpawnName(s: Species, i: nat): string
  {
    TypeName(s) + "_" + NatToString(i)
  }

  /** One spawned agent, at index `i`. */
  function Spawn(d: SpawnDraw, i: nat): Npc
  {
    Npc(SpawnName(d.kind, i), d.kind, d.x, d.y, true)
  }

  /** A position drawn from the spawn range passes the factory's validation and lies in the map. */
  lemma SpawnRangeIsValid(x: real, y: real)
    requires InSpawnRange(x) && InSpawnRange(y)
    ensures IsValidCoordinates(x, y) && Inside(x, y, MapBounds)
  {
  }

  /** The initial population built from the draws. Every spawned agent is alive, lies
      inside the movement box, and is exactly what the validating factory would build. */
  function CreateRandomNpcs(draws: seq<SpawnDraw>): (r: Population)
    requires |draws| == NpcCount
    requires forall i :: 0 <= i < |draws| ==> InSpawnRange(draws[i].x) && InSpawnRange(draws[i].y)
    ensures |r| == NpcCount
    ensures forall i :: 0 <= i < |r| ==>
      && r[i].alive
      && r[i].species == draws[i].kind
      && r[i].name == SpawnName(draws[i].kind, i)
      && Inside(r[i].x, r[i].y, MapBounds)
      && Factory.CreateNpc(draws[i].kind, SpawnName(draws[i].kind, i), draws[i].x, draws[i].y) == Some(r[i])
  {
    var r := seq(|draws|, i requires 0 <= i < |draws| => Spawn(draws[i], i));
    assert forall i :: 0 <= i < |r| ==> r[i] == Spawn(draws[i], i) && InSpawnRange(draws[i].x) && InSpawnRange(draws[i].y);
    r
  }

  // ---------------------------------------------------------------------------
  // Resolution

  /** The two dice thrown for one attack. */
  datatype Dice = Dice(attack: Roll, defense: Roll)

  /** An intent refers to two agents of the population. */
  predicate ValidTask(pop: Population, t: BattleTask)
  {
    t.attacker < |pop| && t.defender < |pop|
  }

  /** Reference condition for a kill: both alive, the defender within the attacker's
      reach, the attacker allowed to attack it, and the attacker's roll strictly higher. */
  predicate Kills(pop: Population, t: BattleTask, dice: Dice)
    requires ValidTask(pop, t)
  {
    var a := pop[t.attacker];
    var d := pop[t.defender];
    && a.alive && d.alive
    && DistSq(a, d) <= ReachSq(a.species)
    && Preys(a.species, d.species)
    && dice.attack > dice.defense
  }

  /** The text of a kill event. */
  function KillEvent(a: Npc, d: Npc): (r: string)
    ensures |r| > |a.name| && r[..|a.name|] == a.name
    ensures r[|r| - 1] == '\n'
  {
    a.name + " (" + TypeName(a.species) + ") killed " + d.name + " (" + TypeName(d.species) + ")\n"
  }

  /** The population after resolving one intent, and the event, if any. */
  datatype Resolution = Resolution(npcs: Population, event: Option<string>)

  function EventList(e: Option<string>): seq<string>
  {
    if e.Some? then [e.value] else []
  }

  /** `after` differs from `before` at most by agents that were alive and are now dead. */
  predicate Evolves(before: Population, after: Population)
  {
    && |after| == |before|
    && forall i :: 0 <= i < |before| ==>
         after[i] == before[i] || (before[i].alive && after[i] == before[i].(alive := false))
  }

  /** Resolves one intent: re-check liveness, then range, then capability, then roll.
      It kills exactly when `Kills` holds, and then only the defender changes and one
      event names both agents; otherwise nothing changes and there is no event. */
  function ProcessBattle(pop: Population, t: BattleTask, dice: Dice): (r: Resolution)
    requires ValidTask(pop, t)
    ensures r.event.Some? <==> Kills(pop, t, dice)
    ensures r.event.Some? ==>
      && r.npcs == pop[t.defender := pop[t.defender].(alive := false)]
      && r.event.value == KillEvent(pop[t.attacker], pop[t.defender])
    ensures r.event.None? ==> r.npcs == pop
    ensures Evolves(pop, r.npcs)
    ensures AliveCount(r.npcs) + |EventList(r.event)| == AliveCount(pop)
  {
    var attacker := pop[t.attacker];
    var defender := pop[t.defender];
    if !attacker.alive || !defender.alive then Resolution(pop, None)
    else if !InRange(Distance(pop, t.attacker, Some(t.defender)), AttackDistance(attacker.species)) then
      Resolution(pop, None)
    else if !CanAttack(attacker.species, Some(defender)) then Resolution(pop, None)
    else if TryAttack(attacker.species, Some(defender), dice.attack, dice.defense) then
      KillLowersAliveCount(pop, t.defender);
      Resolution(pop[t.defender := defender.(alive := false)], Some(KillEvent(attacker, defender)))
    else Resolution(pop, None)
  }

  /** Every intent refers to agents of a population of size `n`. */
  predicate AllValid(n: nat, tasks: seq<BattleTask>)
  {
    forall k :: 0 <= k < |tasks| ==> tasks[k].attacker < n && tasks[k].defender < n
  }

  /** The result of resolving a sequence of intents. */
  datatype Drain = Drain(npcs: Population, events: seq<string>)

  /** Reference fold: resolve the intents in order, the k-th with the k-th dice. */
  function ResolveAll(pop: Population, tasks: seq<BattleTask>, dice: seq<Dice>): (r: Drain)
    requires |dice| >= |tasks|
    requires AllValid(|pop|, tasks)
    ensures Evolves(pop, r.npcs)
    ensures AliveCount(r.npcs) + |r.events| == AliveCount(pop)
  {
    if |tasks| == 0 then Drain(pop, [])
    else
      var n := |tasks| - 1;
      assert AllValid(|pop|, tasks[..n]);
      var prev := ResolveAll(pop, tasks[..n], dice);
      var step := ProcessBattle(prev.npcs, tasks[n], dice[n]);
      Drain(step.npcs, prev.events + EventList(step.event))
  }

  /** Resolving one more intent extends the fold by one battle. */
  lemma ResolveAllSnoc(pop: Population, tasks: seq<BattleTask>, dice: seq<Dice>, t: BattleTask)
    requires |dice| > |tasks|
    requires AllValid(|pop|, tasks) && ValidTask(pop, t)
    ensures AllValid(|pop|, tasks + [t])
    ensures var prev := ResolveAll(pop, tasks, dice);
      var step := ProcessBattle(prev.npcs, t, dice[|tasks|]);
      ResolveAll(pop, tasks + [t], dice) == Drain(step.npcs, prev.events + EventList(step.event))
  {
    assert (tasks + [t])[..|tasks|] == tasks;
  }

  /** Logging one more event appends its broadcast. */
  lemma LogAllAppend(s: BattleSubject, events: seq<string>, extra: seq<string>)
    requires |extra| <= 1
    ensures LogAll(s, events + extra) == LogAll(s, events) + LogAll(s, extra)
  {
    if |extra| == 1 {
      assert (events + extra)[..|events|] == events;
      assert extra[..0] == [];
    } else {
      assert events + extra == events;
    }
  }

  /** One iteration of the resolver: take the front intent, resolve it, and log the
      kill, if any, to every observer. */
  method TakeAndResolve(npcs: Population, queue: BattleQueue, logger: BattleSubject, dice: Dice)
    returns (next: Population, rest: BattleQueue, t: BattleTask, event: Option<string>, sent: seq<Delivery>)
    requires |queue.tasks| > 0 && ValidTask(npcs, queue.tasks[0])
    ensures t == queue.tasks[0] && rest == queue.(tasks := queue.tasks[1..])
    ensures Resolution(next, event) == ProcessBattle(npcs, t, dice)
    ensures sent == LogAll(logger, EventList(event))
  {
    var taken := TryGetTask(queue);
    t, rest := taken.task.value, taken.queue;
    var res := ProcessBattle(npcs, t, dice);
    next, event := res.npcs, res.event;
    sent := [];
    if event.Some? {
      sent := LogBattleEvent(logger, event.value);
      assert [event.value][..0] == [];
    }
  }

  /** Moving the front of the pending part to the processed part keeps the whole. */
  lemma MoveFront(processed: seq<BattleTask>, pending: seq<BattleTask>)
    requires |pending| > 0
    ensures processed + [pending[0]] + pending[1..] == processed + pending
  {
    assert pending == [pending[0]] + pending[1..];
  }

  /** The resolver after shutdown: it keeps taking while the queue is non-empty, so
      every buffered intent is resolved exactly once, in FIFO order, and the loop
      ends only with an empty queue. Kill events go to the logger's observers. */
  method BattleWorkerDrain(e: Engine, dice: seq<Dice>)
    returns (r: Engine, processed: seq<BattleTask>, events: seq<string>, deliveries: seq<Delivery>)
    requires !e.running
    requires |dice| >= |e.queue.tasks|
    requires AllValid(|e.npcs|, e.queue.tasks)
    ensures processed == e.queue.tasks
    ensures r.queue == e.queue.(tasks := [])
    ensures e.queue.stopped ==> ShouldStop(r.queue)
    ensures r.running == e.running && r.logger == e.logger
    ensures Drain(r.npcs, events) == ResolveAll(e.npcs, e.queue.tasks, dice)
    ensures Evolves(e.npcs, r.npcs)
    ensures AliveCount(r.npcs) + |events| == AliveCount(e.npcs)
    ensures deliveries == LogAll(e.logger, events)
  {
    var npcs, queue := e.npcs, e.queue;
    processed, events, deliveries := [], [], [];
    while e.running || !IsEmpty(queue)
      invariant queue.stopped == e.queue.stopped
      invariant processed + queue.tasks == e.queue.tasks
      invariant AllValid(|e.npcs|, processed) && |npcs| == |e.npcs|
      invariant Drain(npcs, events) == ResolveAll(e.npcs, processed, dice)
      invariant deliveries == LogAll(e.logger, events)
      decreases |queue.tasks|
    {
      var t, event, sent;
      ghost var pending := queue.tasks;
      assert queue.tasks[0] == e.queue.tasks[|processed|];
      npcs, queue, t, event, sent := TakeAndResolve(npcs, queue, e.logger, dice[|processed|]);
      ResolveAllSnoc(e.npcs, processed, dice, t);
      LogAllAppend(e.logger, events, EventList(event));
      MoveFront(processed, pending);
      processed := processed + [t];
      events := events + EventList(event);
      deliveries := deliveries + sent;
    }
    assert processed + [] == processed;
    r := e.(npcs := npcs, queue := queue);
  }

  // ---------------------------------------------------------------------------
  // Movement

  /** The visiting order of one tick: every index exactly once. */
  predicate IsPermutation(perm: seq<nat>, n: nat)
  {
    && |perm| == n
    && (forall k :: 0 <= k < |perm| ==> perm[k] < n)
    && (forall i :: 0 <= i < n ==> i in perm)
    && (forall k, l :: 0 <= k < l < |perm| ==> perm[k] != perm[l])
  }

  /** An intent between two different living agents where the attacker may attack the defender. */
  predicate Hostile(pop: Population, t: BattleTask)
  {
    && ValidTask(pop, t)
    && t.attacker != t.defender
    && pop[t.attacker].alive && pop[t.defender].alive
    && Preys(pop[t.attacker].species, pop[t.defender].species)
  }

  /** `b` has the same agents as `a`, alive or dead as before, possibly elsewhere. */
  predicate SameRoster(a: Population, b: Population)
  {
    && |b| == |a|
    && forall i :: 0 <= i < |a| ==>
         b[i].alive == a[i].alive && b[i].name == a[i].name && b[i].species == a[i].species
  }

  /** The state after one visit of the movement worker. */
  datatype Step = Step(npcs: Population, queue: BattleQueue)

  /** One visit: a dead agent is skipped; a living one moves and then runs detection,
      which only appends intents between living agents that may fight. */
  function Turn(pop: Population, q: BattleQueue, idx: nat, dir: Direction): (r: Step)
    requires idx < |pop|
    ensures SameRoster(pop, r.npcs)
    ensures r.npcs[idx] == Move(pop[idx], dir, MapBounds)
    ensures forall i :: 0 <= i < |pop| && i != idx ==> r.npcs[i] == pop[i]
    ensures !pop[idx].alive ==> r == Step(pop, q)
    ensures pop[idx].alive ==> r.queue == DetectBattles(r.npcs, idx, q)
    ensures r.queue.stopped == q.stopped
    ensures |q.tasks| <= |r.queue.tasks| && r.queue.tasks[..|q.tasks|] == q.tasks
    ensures forall m :: |q.tasks| <= m < |r.queue.tasks| ==> Hostile(pop, r.queue.tasks[m])
  {
    if !pop[idx].alive then Step(pop, q)
    else
      var next := pop[idx := Move(pop[idx], dir, MapBounds)];
      DetectionAppendsExactlyEligible(next, idx, q);
      Step(next, DetectBattles(next, idx, q))
  }

  /** The queue-side loop invariant of a tick survives one more visit. */
  lemma QueueGrowth(pop: Population, next: Population, q: BattleQueue, nq: BattleQueue, nq2: BattleQueue)
    requires SameRoster(pop, next)
    requires |q.tasks| <= |nq.tasks| && nq.tasks[..|q.tasks|] == q.tasks
    requires forall m :: |q.tasks| <= m < |nq.tasks| ==> Hostile(pop, nq.tasks[m])
    requires |nq.tasks| <= |nq2.tasks| && nq2.tasks[..|nq.tasks|] == nq.tasks
    requires forall m :: |nq.tasks| <= m < |nq2.tasks| ==> Hostile(next, nq2.tasks[m])
    ensures |q.tasks| <= |nq2.tasks| && nq2.tasks[..|q.tasks|] == q.tasks
    ensures forall m :: |q.tasks| <= m < |nq2.tasks| ==> Hostile(pop, nq2.tasks[m])
  {
    forall m | |q.tasks| <= m < |nq2.tasks|
      ensures Hostile(pop, nq2.tasks[m])
    {
      if m < |nq.tasks| {
        assert nq2.tasks[m] == nq2.tasks[..|nq.tasks|][m];
      }
    }
    assert nq2.tasks[..|q.tasks|] == nq2.tasks[..|nq.tasks|][..|q.tasks|];
  }

  /** The move-side loop invariant of a tick survives the visit of `perm[k]`. */
  lemma AdvanceMoves(pop: Population, prev: Population, now: Population, perm: seq<nat>, dirs: seq<Direction>, k: nat)
    requires IsPermutation(perm, |pop|) && |dirs| == |perm| && k < |perm|
    requires |prev| == |pop| && |now| == |pop|
    requires forall j :: 0 <= j < k ==> prev[perm[j]] == Move(pop[perm[j]], dirs[j], MapBounds)
    requires forall j :: k <= j < |perm| ==> prev[perm[j]] == pop[perm[j]]
    requires now[perm[k]] == Move(prev[perm[k]], dirs[k], MapBounds)
    requires forall i :: 0 <= i < |prev| && i != perm[k] ==> now[i] == prev[i]
    ensures forall j :: 0 <= j < k + 1 ==> now[perm[j]] == Move(pop[perm[j]], dirs[j], MapBounds)
    ensures forall j :: k + 1 <= j < |perm| ==> now[perm[j]] == pop[perm[j]]
  {
  }

  /** After every index has been visited, each agent is either dead and untouched or
      alive and inside the map. */
  lemma TickCovers(pop: Population, next: Population, perm: seq<nat>, dirs: seq<Direction>)
    requires IsPermutation(perm, |pop|) && |dirs| == |perm| && |next| == |pop|
    requires forall j :: 0 <= j < |perm| ==> next[perm[j]] == Move(pop[perm[j]], dirs[j], MapBounds)
    ensures forall i :: 0 <= i < |pop| && !pop[i].alive ==> next[i] == pop[i]
    ensures forall i :: 0 <= i < |pop| && pop[i].alive ==> Inside(next[i].x, next[i].y, MapBounds)
  {
    forall i | 0 <= i < |pop|
      ensures !pop[i].alive ==> next[i] == pop[i]
      ensures pop[i].alive ==> Inside(next[i].x, next[i].y, MapBounds)
    {
      assert i in perm;
      var j :| 0 <= j < |perm| && perm[j] == i;
    }
  }

  /** One movement tick: visit the agents in the order `perm`; each moves with the
      direction drawn for its step, liveness is untouched, everyone living ends inside
      the map, and the queue only gains intents between living agents that may fight. */
  method MovementTick(pop: Population, q: BattleQueue, perm: seq<nat>, dirs: seq<Direction>)
    returns (next: Population, nq: BattleQueue)
    requires IsPermutation(perm, |pop|)
    requires |dirs| == |perm|
    ensures SameRoster(pop, next)
    ensures forall k :: 0 <= k < |perm| ==> next[perm[k]] == Move(pop[perm[k]], dirs[k], MapBounds)
    ensures forall i :: 0 <= i < |pop| && !pop[i].alive ==> next[i] == pop[i]
    ensures forall i :: 0 <= i < |pop| && pop[i].alive ==> Inside(next[i].x, next[i].y, MapBounds)
    ensures nq.stopped == q.stopped
    ensures |q.tasks| <= |nq.tasks| && nq.tasks[..|q.tasks|] == q.tasks
    ensures forall m :: |q.tasks| <= m < |nq.tasks| ==> Hostile(next, nq.tasks[m])
  {
    next, nq := pop, q;
    var k := 0;
    while k < |perm|
      invariant 0 <= k <= |perm|
      invariant SameRoster(pop, next)
      invariant forall j :: 0 <= j < k ==> next[perm[j]] == Move(pop[perm[j]], dirs[j], MapBounds)
      invariant forall j :: k <= j < |perm| ==> next[perm[j]] == pop[perm[j]]
      invariant nq.stopped == q.stopped
      invariant |q.tasks| <= |nq.tasks| && nq.tasks[..|q.tasks|] == q.tasks
      invariant forall m :: |q.tasks| <= m < |nq.tasks| ==> Hostile(pop, nq.tasks[m])
    {
      var s := Turn(next, nq, perm[k], dirs[k]);
      QueueGrowth(pop, next, q, nq, s.queue);
      AdvanceMoves(pop, next, s.npcs, perm, dirs, k);
      next, nq := s.npcs, s.queue;
      k := k + 1;
    }
    TickCovers(pop, next, perm, dirs);
  }
}
