/**
  The factory: validated construction of agents, and the mapping between the
  upper-case type names of the roster format and the species. The roster record
  is modelled as a structured value; decimal formatting and parsing are not.
*/
module Factory {
  import opened Options
  import opened Npcs

  /** Builds a living agent of the requested species, or fails (a null pointer in
      the program) when the coordinates are outside the validation domain. */
  function CreateNpc(s: Species, name: string, x: real, y: real): (r: Option<Npc>)
    ensures r.None? <==> !(0.0 < x <= 500.0 && 0.0 < y <= 500.0)
    ensures r.Some? ==> r.value == Npc(name, s, x, y, true)
  {
    if !IsValidCoordinates(x, y) then None
    else
      match s
      case Squirrel => Some(Npc(name, Squirrel, x, y, true))
      case Werewolf => Some(Npc(name, Werewolf, x, y, true))
      case Druid => Some(Npc(name, Druid, x, y, true))
  }

  /** The tests' factory cases: three valid agents and one refused at the origin. */
  lemma CreateNpcExamples()
    ensures CreateNpc(Squirrel, "TestSquirrel", 100.0, 200.0).Some?
    ensures CreateNpc(Werewolf, "TestWolf", 150.0, 250.0).value.species == Werewolf
    ensures CreateNpc(Druid, "TestDruid", 200.0, 300.0).value.species == Druid
    ensures CreateNpc(Squirrel, "BadNPC", 0.0, 0.0).None?
  {
  }

  /** The upper-case name of a species in the roster format. */
  function TypeToString(s: Species): (r: string)
    ensures StringToType(r) == s
    ensures r != TypeName(s)
  {
    match s
    case Squirrel => "SQUIRREL"
    case Werewolf => "WEREWOLF"
    case Druid => "DRUID"
  }

  /** Case-sensitive lookup of an upper-case name; anything else reads as a Squirrel. */
  function StringToType(str: string): (s: Species)
    ensures s == Werewolf <==> str == "WEREWOLF"
    ensures s == Druid <==> str == "DRUID"
    ensures s == Squirrel <==> str != "WEREWOLF" && str != "DRUID"
  {
    if str == "SQUIRREL" then Squirrel
    else if str == "WEREWOLF" then Werewolf
    else if str == "DRUID" then Druid
    else Squirrel
  }

  /** Reading back a written name gives the species it was written for. */
  lemma TypeNameRoundTrip(s: Species)
    ensures StringToType(TypeToString(s)) == s
    ensures TypeToString(s) != TypeName(s)
  {
  }

  /** The lookup does not fold case: the mixed-case class names are not recognised. */
  lemma StringToTypeIsCaseSensitive()
    ensures StringToType("Werewolf") == Squirrel
    ensures StringToType("Druid") == Squirrel
    ensures StringToType("werewolf") == Squirrel
  {
  }

  /** The species label the save path writes, as written: the class name is looked
      up as if it were a roster name, then printed back. */
  function SaveLabelAsWritten(s: Species): string
  {
    TypeToString(StringToType(TypeName(s)))
  }

  /** As written, every agent is saved as a Squirrel, so a Werewolf does not survive
      a save and reload. */
  lemma SaveLabelAsWrittenLosesSpecies(s: Species)
    ensures SaveLabelAsWritten(s) == "SQUIRREL"
    ensures StringToType(SaveLabelAsWritten(Werewolf)) != Werewolf
  {
  }

  /** The label the save path evidently intends: the species' own roster name. */
  function SaveLabel(s: Species): (r: string)
    ensures StringToType(r) == s
  {
    TypeToString(s)
  }

  /** One roster line, `SPECIES,NAME,X,Y`, as a structured value. */
  datatype Record = Record(kind: string, name: string, x: real, y: real)

  /** The record the save path writes for a living agent. */
  function SaveRecord(n: Npc): (r: Record)
    ensures StringToType(r.kind) == n.species
    ensures r.name == n.name && r.x == n.x && r.y == n.y
  {
    Record(SaveLabel(n.species), n.name, n.x, n.y)
  }

  /** The agent the load path builds from a record, if its coordinates validate. */
  function LoadRecord(rec: Record): (r: Option<Npc>)
    ensures r.None? <==> !IsValidCoordinates(rec.x, rec.y)
    ensures r.Some? ==> r.value == Npc(rec.name, StringToType(rec.kind), rec.x, rec.y, true)
  {
    CreateNpc(StringToType(rec.kind), rec.name, rec.x, rec.y)
  }

  /** Saving a living agent and loading it back reproduces it, provided its position
      lies in the validation domain; an agent outside that domain is refused. */
  lemma SaveLoadRoundTrip(n: Npc)
    requires n.alive
    ensures IsValidCoordinates(n.x, n.y) ==> LoadRecord(SaveRecord(n)) == Some(n)
    ensures !IsValidCoordinates(n.x, n.y) ==> LoadRecord(SaveRecord(n)) == None
  {
  }

  /** With the label as written, a saved Werewolf reloads as a Squirrel. */
  lemma AsWrittenRoundTripFails()
    ensures var n := Npc("Wolf", Werewolf, 10.0, 10.0, true);
      LoadRecord(Record(SaveLabelAsWritten(n.species), n.name, n.x, n.y)) == Some(n.(species := Squirrel))
  {
  }
}
