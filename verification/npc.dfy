/**
  Agents of the simulation: the closed set of species with their fixed motion
  and combat constants, spawn validation, distance between agents, clamped
  movement and the dice-based attack rule.

  An agent is referred to by its index in the population; index equality plays
  the role of pointer identity. Coordinates are exact reals, and distances are
  compared squared, so no square root is taken.
*/
module Npcs {
  import opened Options

  /** The three species; each subclass of the agent class becomes one case. */
  datatype Species = Squirrel | Werewolf | Druid

  /** One agent: identity, species, position and the alive flag. */
  datatype Npc = Npc(name: string, species: Species, x: real, y: real, alive: bool)

  /** The shared population; its size never changes during a run. */
  type Population = seq<Npc>

  /** One face of a six-sided die. */
  type Roll = r: int | 1 <= r <= 6 witness 1

  /** The value the distance computation returns for a null or dead target. */
  const DistanceSentinel: real := 999999.0

  /** Displacement per tick. */
  function MoveDistance(s: Species): real
  {
    match s
    case Squirrel => 5.0
    case Werewolf => 40.0
    case Druid => 10.0
  }

  /** Largest distance at which an attack may happen. */
  function AttackDistance(s: Species): real
  {
    match s
    case Squirrel => 5.0
    case Werewolf => 5.0
    case Druid => 10.0
  }

  /** The square of the attack distance, the bound that squared distances are compared with. */
  function ReachSq(s: Species): (r: real)
    ensures r == AttackDistance(s) * AttackDistance(s)
  {
    match s
    case Squirrel => 25.0
    case Werewolf => 25.0
    case Druid => 100.0
  }

  /** Character drawn on the text map. */
  function MapSymbol(s: Species): char
  {
    match s
    case Squirrel => 'S'
    case Werewolf => 'W'
    case Druid => 'D'
  }

  /** The mixed-case class name that the type query returns. */
  function TypeName(s: Species): string
  {
    match s
    case Squirrel => "Squirrel"
    case Werewolf => "Werewolf"
    case Druid => "Druid"
  }

  /** The capability matrix: which species may attack which. */
  predicate Preys(attacker: Species, target: Species)
  {
    match attacker
    case Squirrel => target == Werewolf || target == Druid
    case Werewolf => target == Druid
    case Druid => false
  }

  /** Spawn validation domain; wider than the movement box of the engine. */
  predicate IsValidCoordinates(x: real, y: real)
  {
    x > 0.0 && x <= 500.0 && y > 0.0 && y <= 500.0
  }

  /** The species constants are pairwise distinguishable by name and by map symbol,
      and the sentinel distance is beyond every attack range. */
  lemma SpeciesTable(a: Species, b: Species)
    ensures TypeName(a) == TypeName(b) ==> a == b
    ensures MapSymbol(a) == MapSymbol(b) ==> a == b
    ensures 0.0 < AttackDistance(a) < DistanceSentinel
  {
  }

  /** No species attacks its own kind, and no two species can attack each other. */
  lemma PreysIsAsymmetric(a: Species, b: Species)
    ensures Preys(a, b) ==> !Preys(b, a)
    ensures !Preys(a, a)
  {
  }

  /** The tests' sample points of the validation domain. */
  lemma CoordinateValidationExamples()
    ensures IsValidCoordinates(1.0, 1.0) && IsValidCoordinates(500.0, 500.0)
    ensures !IsValidCoordinates(0.0, 100.0) && !IsValidCoordinates(100.0, 0.0)
    ensures !IsValidCoordinates(501.0, 100.0)
  {
  }

  // ---------------------------------------------------------------------------
  // Distance

  /** A distance as the agent computes it: the sentinel, or a Euclidean distance
      represented by its square. */
  datatype Dist = Unreachable | Euclid(squared: real)

  function DistSq(a: Npc, b: Npc): (r: real)
    ensures r >= 0.0
  {
    (a.x - b.x) * (a.x - b.x) + (a.y - b.y) * (a.y - b.y)
  }

  /** Distance from agent `self` to the optional agent `other`. The liveness check
      on the target comes before the identity check, so a dead agent is at the
      sentinel distance even from itself. */
  function Distance(pop: Population, self: nat, other: Option<nat>): (d: Dist)
    requires self < |pop|
    requires other.Some? ==> other.value < |pop|
    ensures other.None? ==> d == Unreachable
    ensures other.Some? ==> (d == Unreachable <==> !pop[other.value].alive)
    ensures d.Euclid? ==> d.squared == DistSq(pop[self], pop[other.value])
    ensures other == Some(self) && pop[self].alive ==> d == Euclid(0.0)
  {
    if other.None? || !pop[other.value].alive then Unreachable
    else if other.value == self then Euclid(0.0)
    else Euclid(DistSq(pop[self], pop[other.value]))
  }

  /** `distance <= range`: the sentinel is compared as the number it is; a Euclidean
      distance through its square, which agrees with the root for a non-negative range. */
  predicate InRange(d: Dist, range: real)
  {
    match d
    case Unreachable => DistanceSentinel <= range
    case Euclid(sq) => sq <= range * range
  }

  /** A null or dead target is never within any species' attack range. */
  lemma UnreachableIsOutOfRange(pop: Population, self: nat, other: Option<nat>, s: Species)
    requires self < |pop|
    requires other.Some? ==> other.value < |pop|
    requires other.None? || !pop[other.value].alive
    ensures !InRange(Distance(pop, self, other), AttackDistance(s))
  {
  }

  // ---------------------------------------------------------------------------
  // Movement

  /** The movement direction drawn for one step, already normalised (or zero). */
  datatype Direction = Direction(dx: real, dy: real)

  /** The rectangle passed to a move. */
  datatype Bounds = Bounds(minX: real, maxX: real, minY: real, maxY: real)

  predicate Ordered(b: Bounds)
  {
    b.minX <= b.maxX && b.minY <= b.maxY
  }

  predicate Inside(x: real, y: real, b: Bounds)
  {
    b.minX <= x <= b.maxX && b.minY <= y <= b.maxY
  }

  /** The program's two-step clamp: raise to `lo`, then lower to `hi`. */
  function Clamp(v: real, lo: real, hi: real): (r: real)
    ensures r <= hi
    ensures lo <= hi ==> lo <= r
    ensures lo <= v <= hi ==> r == v
    ensures v < lo && lo <= hi ==> r == lo
    ensures v > hi ==> r == hi
  {
    var raised := if v < lo then lo else v;
    if raised > hi then hi else raised
  }

  /** One move: a dead agent stays put; a living one steps its move distance along
      `dir` and each axis is clamped independently, without reflection or wrap. */
  function Move(n: Npc, dir: Direction, b: Bounds): (r: Npc)
    ensures !n.alive ==> r == n
    ensures r.name == n.name && r.species == n.species && r.alive == n.alive
    ensures n.alive && Ordered(b) ==> Inside(r.x, r.y, b)
    ensures n.alive ==> r.x == Clamp(n.x + dir.dx * MoveDistance(n.species), b.minX, b.maxX)
    ensures n.alive ==> r.y == Clamp(n.y + dir.dy * MoveDistance(n.species), b.minY, b.maxY)
  {
    if !n.alive then n
    else
      n.(x := Clamp(n.x + dir.dx * MoveDistance(n.species), b.minX, b.maxX),
         y := Clamp(n.y + dir.dy * MoveDistance(n.species), b.minY, b.maxY))
  }

  /** A step whose candidate position is already inside the bounds lands exactly there. */
  lemma MoveKeepsInsideCandidate(n: Npc, dir: Direction, b: Bounds)
    requires n.alive
    requires Inside(n.x + dir.dx * MoveDistance(n.species), n.y + dir.dy * MoveDistance(n.species), b)
    ensures Move(n, dir, b).x == n.x + dir.dx * MoveDistance(n.species)
    ensures Move(n, dir, b).y == n.y + dir.dy * MoveDistance(n.species)
  {
  }

  // ---------------------------------------------------------------------------
  // Combat

  /** Whether an agent of species `s` may attack `other`. The two attacking species
      refuse a null or dead target and compare the target's type name. */
  function CanAttack(s: Species, other: Option<Npc>): (r: bool)
    ensures r <==> other.Some? && other.value.alive && Preys(s, other.value.species)
  {
    match s
    case Squirrel =>
      other.Some? && other.value.alive
      && (TypeName(other.value.species) == "Werewolf" || TypeName(other.value.species) == "Druid")
    case Werewolf =>
      other.Some? && other.value.alive && TypeName(other.value.species) == "Druid"
    case Druid => false
  }

  /** One attack with the two dice as inputs: it succeeds only when allowed and when
      the attacker's roll is strictly greater, so a tie goes to the defender. A
      Druid fails without rolling. Neither agent is changed. */
  function TryAttack(s: Species, other: Option<Npc>, attackRoll: Roll, defenseRoll: Roll): (r: bool)
    ensures r <==> CanAttack(s, other) && attackRoll > defenseRoll
    ensures attackRoll == defenseRoll ==> !r
    ensures s == Druid ==> !r
  {
    match s
    case Druid => false
    case _ => if !CanAttack(s, other) then false else attackRoll > defenseRoll
  }

  /** For a permitted pair, some rolls win and some lose: the outcome is genuinely random. */
  lemma AttackOutcomeDependsOnDice(s: Species, other: Npc)
    requires other.alive && Preys(s, other.species)
    ensures TryAttack(s, Some(other), 6, 1)
    ensures !TryAttack(s, Some(other), 1, 6)
  {
  }
}
