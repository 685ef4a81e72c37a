/** The skill-level catalog (participants/models/sport_level.py): a fixed
    enumeration from Beginner to Expert whose integer value is the primary
    key of the `sport_level` table. */
module SportLevels {
  import opened Wrappers
  import Tables

  /** `SportLevel.Level`, in ascending skill. */
  datatype Level = Beginner | LowerIntermediate | Intermediate | UpperIntermediate | Expert

  function Value(l: Level): (v: int)
    ensures 1 <= v <= 5
  {
    match l
    case Beginner => 1
    case LowerIntermediate => 2
    case Intermediate => 3
    case UpperIntermediate => 4
    case Expert => 5
  }

  /** The level a stored value denotes; at most one level per value. */
  function FromValue(v: int): (r: Option<Level>)
    ensures r.Some? <==> 1 <= v <= 5
    ensures forall l :: Value(l) == v <==> r == Some(l)
  {
    if v == 1 then Some(Beginner)
    else if v == 2 then Some(LowerIntermediate)
    else if v == 3 then Some(Intermediate)
    else if v == 4 then Some(UpperIntermediate)
    else if v == 5 then Some(Expert)
    else None
  }

  /** `get_level_display()`. */
  function Label(l: Level): string {
    match l
    case Beginner => "Beginner"
    case LowerIntermediate => "Lower Intermediate"
    case Intermediate => "Intermediate"
    case UpperIntermediate => "Upper Intermediate"
    case Expert => "Expert"
  }

  /** `str(level)` is its label, and distinct levels print differently. */
  function Str(l: Level): (r: string)
    ensures forall m :: Label(m) == r <==> m == l
  {
    Label(l)
  }

  /** Every choice, from lowest to highest skill. */
  function Choices(): (r: seq<Level>)
    ensures |r| == 5
    ensures forall l :: l in r
    ensures Tables.StrictlyAscending(r, Value)
  {
    var r := [Beginner, LowerIntermediate, Intermediate, UpperIntermediate, Expert];
    forall l ensures l in r {
      assert r[Value(l) - 1] == l;
    }
    r
  }

  /** The rows of a `sport_level` table (or of an activity's level set) under
      the default ordering `("level",)`: ascending, each level once. */
  function Ordered(table: set<Level>): (r: seq<Level>)
    ensures forall l :: l in r <==> l in table
    ensures Tables.StrictlyAscending(r, Value)
  {
    var r := Tables.Filter(Choices(), l => l in table);
    Tables.SubsequenceAscending(r, Choices(), Value);
    r
  }

  /** The data migration's seed: one row per choice. */
  function Seed(): (r: set<Level>)
    ensures forall l :: l in r
  {
    set l | l in Choices()
  }

  /** Listing the seeded table yields every level in ascending skill. */
  lemma SeedOrdered()
    ensures Ordered(Seed()) == Choices()
  {
    Tables.FilterAll(Choices(), l => l in Seed());
  }
}
