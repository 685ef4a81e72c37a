/** The sport catalog (participants/models/sport.py): a fixed enumeration
    whose integer value is the primary key of the `sport` table. */
module Sports {
  import opened Wrappers
  import Tables

  /** `Sport.Name`. The source spells the fourth member TENIS; its label is
      "Tennis". */
  datatype Sport = Football | Basketball | Volleyball | Tennis | TableTennis

  /** The stored integer value of a sport. */
  function Value(s: Sport): (v: int)
    ensures 1 <= v <= 5
  {
    match s
    case Football => 1
    case Basketball => 2
    case Volleyball => 3
    case Tennis => 4
    case TableTennis => 5
  }

  /** The sport a stored value denotes, if it is one of the choices. Because
      the value is the primary key, at most one sport has a given value. */
  function FromValue(v: int): (r: Option<Sport>)
    ensures r.Some? <==> 1 <= v <= 5
    ensures forall s :: Value(s) == v <==> r == Some(s)
  {
    if v == 1 then Some(Football)
    else if v == 2 then Some(Basketball)
    else if v == 3 then Some(Volleyball)
    else if v == 4 then Some(Tennis)
    else if v == 5 then Some(TableTennis)
    else None
  }

  /** `get_name_display()`. */
  function Label(s: Sport): string {
    match s
    case Football => "Football"
    case Basketball => "Basketball"
    case Volleyball => "Volleyball"
    case Tennis => "Tennis"
    case TableTennis => "Table Tennis"
  }

  /** `str(sport)` is its label, and distinct sports print differently. */
  function Str(s: Sport): (r: string)
    ensures forall t :: Label(t) == r <==> t == s
  {
    Label(s)
  }

  /** Every choice, in ascending order of value. */
  function Choices(): (r: seq<Sport>)
    ensures |r| == 5
    ensures forall s :: s in r
    ensures Tables.StrictlyAscending(r, Value)
  {
    var r := [Football, Basketball, Volleyball, Tennis, TableTennis];
    forall s ensures s in r {
      assert r[Value(s) - 1] == s;
    }
    r
  }

  /** The rows of a `sport` table under the model's default ordering
      (`ordering = ("name",)`): ascending by value, each sport once. */
  function Ordered(table: set<Sport>): (r: seq<Sport>)
    ensures forall s :: s in r <==> s in table
    ensures Tables.StrictlyAscending(r, Value)
  {
    var r := Tables.Filter(Choices(), s => s in table);
    Tables.SubsequenceAscending(r, Choices(), Value);
    r
  }

  /** The data migration's seed: one row per choice. */
  function Seed(): (r: set<Sport>)
    ensures forall s :: s in r
  {
    set s | s in Choices()
  }

  /** Listing the seeded table yields every choice in value order. */
  lemma SeedOrdered()
    ensures Ordered(Seed()) == Choices()
  {
    Tables.FilterAll(Choices(), s => s in Seed());
  }
}
