# NPC battle simulation — a Dafny model

The system is a small simulation on a 100 by 100 map with fifty agents of three
species: Squirrel, Werewolf and Druid. Three workers run side by side:
- **Movement worker.** It visits the agents in a shuffled order. It moves each living agent one step in a random direction, clamped to the map. It then runs *detection*, which puts a combat intent (attacker, defender) on a shared battle queue for every other living agent within the mover's attack range that the mover may attack.
- **Battle worker.** It takes intents from the queue and re-checks each one. It then rolls two dice, and on a kill it marks the defender dead and broadcasts a text event to the attached loggers.
- **Display worker.** It periodically reports the living agents per species.

On shutdown, the running flag drops and the queue is stopped. The battle worker keeps going until every buffered intent is resolved. The stop flag only stops consumers from waiting: `addTask` does not consult it, so a stopped queue still accepts and delivers new intents (`BattleQueues.StoppedQueueAcceptsNewWork`).

A factory builds agents from a species and a position. It refuses positions outside the validation domain (0, 500] × (0, 500]. It also maps between the species and the upper-case names of the roster file format.

The model is sequential and functional:
- **Population:** a `seq<Npc>`. An agent is referred to by its index, and index equality stands for pointer identity. A null pointer is `None`.
- **Battle queue:** a sequence plus the stop flag.
- **Observer list:** a sequence of observer identities.
- **Random inputs as parameters:** the dice rolls (a `Roll` in 1..6), the movement direction, the tick's visiting order and the spawn draws.
- **Distances:** compared squared over `real`. `Dist.Unreachable` stands for the program's sentinel 999999.

Modules:
- `Options`: the optional value.
- `Npcs`: species constants, validation, distance, movement and attack.
- `BattleQueues`: the queue.
- `Detection`: the detection visitor.
- `Observers`: the subject/observer list.
- `Factory`: creation, type names and the roster record.
- `GameEngine`: resolution, the drain after shutdown, the movement tick, spawning and the population counts.

## Model

| member | source | states |
|---|---|---|
| Npcs.SpeciesTable | src/npc.cpp:119-198 | type names and map symbols tell the species apart; every attack range is positive and below the sentinel distance |
| Npcs.MoveDistance | src/npc.cpp:119-185 | defined as the step length per species: 5 for a Squirrel, 40 for a Werewolf, 10 for a Druid (no ensures) |
| Npcs.AttackDistance | src/npc.cpp:123-189 | defined as the attack range per species: 5 for a Squirrel and a Werewolf, 10 for a Druid (no ensures) |
| Npcs.MapSymbol | src/npc.cpp:136-197 | defined as the map character per species: S, W and D (no ensures); `Npcs.SpeciesTable` proves the symbols distinct |
| Npcs.IsValidCoordinates | src/npc.cpp:26-28 | defined as 0 < x ≤ 500 and 0 < y ≤ 500 (no ensures); `Npcs.CoordinateValidationExamples` pins the boundary cases |
| Npcs.TypeName | src/npc.cpp:19-23 | defined as the mixed-case class names Squirrel, Werewolf and Druid (no ensures); `Factory.StringToTypeIsCaseSensitive` shows they are not roster names |
| Npcs.PreysIsAsymmetric | src/npc.cpp:113-182 | no species may attack its own kind, and no two species may attack each other |
| Npcs.CoordinateValidationExamples | test/tests1.cpp:25-32 | (1,1) and (500,500) are valid; (0,100), (100,0) and (501,100) are not |
| Npcs.Distance | src/npc.cpp:60-72 | a null or dead target is at the sentinel distance and a living one is not; the liveness test precedes the identity test, so a living agent is at distance 0 from itself; otherwise the result is the squared Euclidean distance |
| Npcs.UnreachableIsOutOfRange | src/npc.cpp:60-61 | a null or dead target is never within any species' attack range |
| Npcs.Clamp | src/npc.cpp:97-100 | the result is at most the upper bound, and at least the lower bound when the bounds are ordered; a value inside is kept; a value above the upper bound becomes it; with ordered bounds, a value below the lower bound becomes the lower bound |
| Npcs.Move | src/npc.cpp:78-104 | a dead agent is unchanged; name, species and liveness are kept; with ordered bounds a living agent ends inside them; each axis of the candidate step is clamped independently |
| Npcs.MoveKeepsInsideCandidate | src/npc.cpp:94-103 | a candidate position already inside the bounds is taken exactly, with no reflection or wrap |
| Npcs.CanAttack | src/npc.cpp:113-182 | an attack is allowed exactly when the target exists, is alive, and is prey for the attacker's species by the capability matrix |
| Npcs.TryAttack | src/npc.cpp:127-194 | an attack succeeds exactly when it is allowed and the attacker's roll is strictly higher; a tie and a Druid always fail |
| Npcs.AttackOutcomeDependsOnDice | src/npc.cpp:127-134 | for an allowed pair, rolls (6,1) win and rolls (1,6) lose |
| BattleQueues.AddTask | src/visitor.cpp:8-12 | the task is appended at the back; earlier tasks and the stop flag are untouched |
| BattleQueues.TryGetTask | src/visitor.cpp:14-31 | a take succeeds exactly when the queue is non-empty, stopped or not, and then yields the front task and removes only it; a failed take changes nothing |
| BattleQueues.Stop | src/visitor.cpp:33-37 | the flag is raised and the buffered tasks are kept |
| BattleQueues.StopIsIdempotentAndSticky | src/visitor.cpp:33-37 | stopping twice equals stopping once, and neither adding nor taking lowers the flag |
| BattleQueues.ShouldStopMeansTakeFails | src/visitor.cpp:39-52 | should-stop holds exactly when the queue is stopped and a take fails; empty means size zero |
| BattleQueues.IsEmpty | src/visitor.cpp:39-42 | defined as "no buffered task" (no ensures) |
| BattleQueues.ShouldStop | src/visitor.cpp:44-47 | defined as "stopped and no buffered task" (no ensures); `BattleQueues.ShouldStopMeansTakeFails` relates it to a failing take |
| BattleQueues.Size | src/visitor.cpp:49-52 | defined as the number of buffered tasks (no ensures) |
| BattleQueues.StoppedQueueAcceptsNewWork | src/visitor.cpp:8-31 | a stopped, drained queue should stop, yet it accepts a new task, no longer should stop, and hands that task to the next take |
| BattleQueues.AddAllAppends | src/visitor.cpp:8-12 | adding several tasks appends them in order |
| BattleQueues.TakeNYieldsPrefix | src/visitor.cpp:24-28 | n successive takes yield the first n tasks in order and leave the rest |
| BattleQueues.FifoOrder | src/visitor.cpp:8-31 | everything added comes out after the earlier contents, in the order added, and the queue ends empty |
| BattleQueues.StoppedQueueStillDelivers | src/visitor.cpp:20-28 | after a stop every buffered task is still delivered in order; only then does should-stop hold and a take fail |
| Detection.EligibleDefenders | src/visitor.cpp:53-72 | the listed targets are exactly the eligible ones (different, both alive, within range, allowed to attack), in increasing population order; none for a dead agent or a Druid |
| Detection.AliveTargets | src/visitor.cpp:55-62 | the first loop collects exactly the other living agents, each once, in population order |
| Detection.Examine | src/visitor.cpp:65-70 | examining one target keeps the stop flag and appends at most the intent against it; for a living attacker the intent is appended exactly when the target is eligible |
| Detection.ScanTargets | src/visitor.cpp:64-71 | the second loop keeps the stop flag and the earlier queue contents, and appends at most one intent per target; every new intent has the current agent as attacker and a defender from the targets, and for increasing targets the new defenders increase |
| Detection.ScanStep | src/visitor.cpp:64-70 | examining one more living target enqueues the intent against it exactly when that target is eligible |
| Detection.ScanAddsEligibleIntents | src/visitor.cpp:53-72 | the two loops of the scan together append one intent per eligible target, in population order, and keep the stop flag |
| Detection.DetectForNpc | src/visitor.cpp:53-72 | the scan of the current agent keeps the stop flag and appends exactly one intent per eligible target, in population order; a dead agent appends nothing |
| Detection.DetectBattles | src/visitor.cpp:77-90 | detection (a Druid's visit does nothing) appends exactly the intents of the current agent against its eligible targets, behind the earlier contents |
| Detection.DetectionAppendsExactlyEligible | src/visitor.cpp:53-72 | the earlier queue contents are preserved; every new intent has the current agent as attacker and an eligible defender; defenders strictly increase, so there is at most one intent per target; every eligible target gets an intent |
| Detection.AdjacentScenario | test/tests1.cpp:192-205 | a Squirrel at (100,100) next to a Werewolf at (101,101) raises exactly the intent Squirrel→Werewolf; the Werewolf raises none |
| Detection.OutOfRangeScenario | test/tests1.cpp:207-220 | agents at (100,100) and (200,200) raise no intent, whatever their species |
| Observers.Attach | src/observer.cpp:7-9 | the observer is appended at the end, even if already present |
| Observers.FirstIndex | src/observer.cpp:11 | the position found holds the observer and no earlier position does |
| Observers.RemoveFirst | src/observer.cpp:10-15 | removing an absent observer leaves the list unchanged |
| Observers.RemoveFirstTakesOneCopy | src/observer.cpp:10-15 | exactly one copy of the observer goes, and no other entry |
| Observers.RemoveFirstKeepsOrder | src/observer.cpp:10-15 | only the first occurrence is erased; the entries before and after it keep their order |
| Observers.Detach | src/observer.cpp:10-15 | detaching an absent observer changes nothing; otherwise the list loses exactly its first occurrence, and the rest keep their order |
| Observers.DetachUndoesAttach | src/observer.cpp:7-15 | attaching a new observer and detaching it restores the list |
| Observers.Notify | src/observer.cpp:16-20 | the k-th call goes to the k-th entry, with the event, one call per entry |
| Observers.NotifyCallsPerEntry | src/observer.cpp:16-20 | an observer is called as often as it occurs in the list, so a duplicate entry is called twice |
| Observers.LogBattleEvent | src/observer.cpp:42-44 | logging an event delivers it to every entry, in list order |
| Observers.LogAll | src/game_engine.cpp:145 | logging a list of events makes one delivery per event and entry |
| Observers.LogAllContent | src/game_engine.cpp:145 | with m entries, delivery number i·m + j hands the i-th event to the j-th entry: the events go out in order, each to the whole list before the next |
| Factory.CreateNpc | src/npc_factory.cpp:6-21 | creation fails exactly when the coordinates are outside the validation domain; otherwise it yields a living agent with the requested species, name and position |
| Factory.CreateNpcExamples | test/tests1.cpp:118-139 | the test's three valid agents are built with their species, and an agent at the origin is refused |
| Factory.TypeToString | src/npc_factory.cpp:70-76 | the roster name of a species reads back as that species, and it differs from the class name |
| Factory.StringToType | src/npc_factory.cpp:64-69 | "WEREWOLF" and "DRUID" map to their species, and every other string, "SQUIRREL" included, maps to Squirrel |
| Factory.TypeNameRoundTrip | src/npc_factory.cpp:64-76 | reading back a written roster name gives the species; the roster name differs from the class name |
| Factory.StringToTypeIsCaseSensitive | src/npc_factory.cpp:64-69 | the mixed-case class names and lower-case names are not recognised and read as Squirrel |
| Factory.SaveLabelAsWritten | src/npc_factory.cpp:30 | defined as the roster name looked up from the class name (no ensures); `Factory.SaveLabelAsWrittenLosesSpecies` states its value |
| Factory.SaveLabelAsWrittenLosesSpecies | src/npc_factory.cpp:30 | the label the save path writes is "SQUIRREL" for every species, so a Werewolf's label reads back as a Squirrel |
| Factory.SaveLabel | src/npc_factory.cpp:30 | the intended label reads back as the agent's own species |
| Factory.SaveRecord | src/npc_factory.cpp:29-33 | with the intended label, the written record names the agent's species and carries its name and position |
| Factory.LoadRecord | src/npc_factory.cpp:52-56 | a record loads exactly when its position validates, as a living agent with the record's name and position and the species its label names |
| Factory.SaveLoadRoundTrip | src/npc_factory.cpp:28-58 | with the intended label, saving a living agent as a structured record and loading it back reproduces the agent when its position validates, and refuses it otherwise |
| Factory.AsWrittenRoundTripFails | src/npc_factory.cpp:30-54 | with the label as written, a saved Werewolf comes back as a Squirrel |
| GameEngine.Stop | src/game_engine.cpp:81-84 | shutdown clears the running flag and stops the queue; buffered intents, agents and loggers are kept |
| GameEngine.AliveCountBySpecies | src/game_engine.cpp:199-209 | the number of living agents is the sum of the living Squirrels, Werewolves and Druids |
| GameEngine.AliveIndices | src/game_engine.cpp:229-236 | the survivors are exactly the living agents, each once, in population order |
| GameEngine.KillLowersAliveCount | src/game_engine.cpp:137-138 | killing a living agent lowers the alive count by exactly one |
| GameEngine.Count | src/game_engine.cpp:205-207 | the type-name comparison chain counts an agent under exactly its own species |
| GameEngine.MapCensus | src/game_engine.cpp:199-209 | the displayed alive count is the number of living agents and equals squirrels + werewolves + druids, each the number of living agents of that species |
| GameEngine.SurvivorReport | src/game_engine.cpp:226-236 | the survivor list is the living agents in population order, and the per-species counts add up to its length |
| GameEngine.SpawnRangeIsValid | src/game_engine.cpp:38 | a position drawn from [1, 99) is valid for the factory and lies inside the movement box |
| GameEngine.CreateRandomNpcs | src/game_engine.cpp:34-60 | the fifty spawned agents are alive, of the drawn species, named after species and index, inside the map, and each is what the validating factory would build |
| GameEngine.KillEvent | src/game_engine.cpp:140-142 | the event text starts with the attacker's name and ends with a newline |
| GameEngine.ProcessBattle | src/game_engine.cpp:120-147 | an intent kills exactly when both agents are alive, the defender is within range, the attacker may attack it and the attacker's roll is higher; a kill only marks the defender dead and produces one event naming both; otherwise nothing changes and there is no event; the alive count drops by the number of events |
| GameEngine.ResolveAll | src/game_engine.cpp:109-115 | resolving a sequence of intents only turns living agents dead, never back, and the alive count drops by exactly the number of events |
| GameEngine.TakeAndResolve | src/game_engine.cpp:111-114 | one iteration resolves the front intent, removes only it, and logs its event, if any, to every observer |
| GameEngine.BattleWorkerDrain | src/game_engine.cpp:109-118 | after shutdown every buffered intent is resolved exactly once, in FIFO order; the loop ends with an empty queue that should stop; the result is the resolution fold; agents only die, and the kill events are logged in order |
| GameEngine.Turn | src/game_engine.cpp:95-103 | a dead agent is skipped; a living one moves and then runs detection on the moved population; no agent changes liveness, name or species |
| GameEngine.MovementTick | src/game_engine.cpp:90-103 | over a permutation every agent is moved exactly once with the direction of its own step; dead agents stay put; living agents end inside the map; liveness is untouched; the queue only gains intents between different living agents where the attacker may attack the defender |

## Left out

- Threads, mutexes, `std::lock`, atomics and sleeps. Every operation is modelled as atomic and sequential.
- The 100 ms timed wait in the queue's take. A take answers at once, so a take on an empty running queue fails instead of waiting.
- Random number generation. Dice rolls, movement directions, the visiting order of a tick and the spawn draws are parameters.
- `sqrt` and direction normalisation. These are floating-point numerics. Distances are compared squared, and the direction is taken as given.
- Rendering and output. This covers the map grid, `safePrint`, the formatting of the survivor list and the error message `createNPC` prints when it refuses coordinates (src/npc_factory.cpp:8); only the counts and the survivor list are modelled.
- The console and file loggers' timestamping and file appends. An observer is an identity, and a delivery is one `update` call.
- The file I/O of saving and loading, and decimal formatting and parsing. A roster line is a structured `Record`.
- `run()` timing, `GAME_DURATION`, the display worker's clock and the joining of threads.
- The movement worker's outer loop across ticks. One tick is modelled.
- `getLock`, and the loggers the constructor allocates and never frees. These are C++ mechanics with no behaviour to model.
- The `default`/`"Unknown"` branches of `getType`, `createNPC` and `typeToString`. They are unreachable with a closed set of species.
- GameEngine.BattleWorkerDrain: modelled only after shutdown (running flag clear). While running, the loop's termination depends on the other threads. The movement worker tests the running flag only between ticks (src/game_engine.cpp:90), so after shutdown it may still add intents during the rest of its tick, possibly after the battle worker has seen an empty queue and left its loop (src/game_engine.cpp:110); such late intents are never resolved. The drain covers only the intents buffered when it starts.
- Factory.SaveLoadRoundTrip: positions and names round-trip only in the structured record. The program writes X and Y with the stream's default six significant digits (src/npc_factory.cpp:32-33), so a spawned position such as 12.3456789 reloads as 12.3457, and it reads the name only up to the first comma (src/npc_factory.cpp:52). With the intended label the program restores the species, but not the exact position, and not always the validation verdict: an agent built through the class constructor, which does not validate (src/npc.cpp:11-12), at x = 500.0001 is written as 500 and reloads as valid.
- GameEngine.KillEvent: the contract fixes only the frame of the text, the attacker's name first and the newline last. The full wording `name (type) killed name (type)` is the definition itself.
- GameEngine.MovementTick: says that new intents are hostile and that each visit's intents are detection's (through `GameEngine.Turn`). It does not restate, for the whole tick, the concatenation of the per-visit intents.

## Findings

| source | as written | input that shows it | evidently intended | confidence | as-written member | corrected member |
|---|---|---|---|---|---|---|
| src/npc_factory.cpp:30 | the species label is `typeToString(stringToType(getType()))`; `getType()` gives "Werewolf" but `stringToType` only knows "WEREWOLF", so every label is "SQUIRREL" | a living Werewolf "Wolf" at (10, 10): saved as `SQUIRREL,Wolf,10,10`, reloaded as a Squirrel | write the agent's own upper-case species name, so that loading restores the species | not executed | Factory.SaveLabelAsWrittenLosesSpecies | Factory.SaveLoadRoundTrip |
