/** The activity model (events/models/activity.py): an invitation to play one
    sport within a time window, with a player limit and a status. Its field
    options are a validity predicate, its check constraints another. */
module Activities {
  import opened Wrappers
  import Sports
  import Validators

  /** `Activity.Status`. */
  datatype Status = Open | Played | Cancelled

  function StatusValue(s: Status): (v: int)
    ensures 1 <= v <= 3
  {
    match s
    case Open => 1
    case Played => 2
    case Cancelled => 3
  }

  /** The status a stored value denotes, if any: exactly the values 1, 2, 3. */
  function StatusFromValue(v: int): (r: Option<Status>)
    ensures r.Some? <==> 1 <= v <= 3
    ensures forall s :: StatusValue(s) == v <==> r == Some(s)
  {
    if v == 1 then Some(Open)
    else if v == 2 then Some(Played)
    else if v == 3 then Some(Cancelled)
    else None
  }

  function StatusLabel(s: Status): string {
    match s
    case Open => "Open"
    case Played => "Played"
    case Cancelled => "Cancelled"
  }

  const DefaultStatus: Status := Open
  const DefaultPlayerLimit: int := 2
  const MinPlayerLimit: int := 2
  const MaxPlayerLimit: int := 30
  const NameMaxLength: int := 150
  const AboutMaxLength: int := 600

  /** One row of the `activity` table (its own columns; the level set and the
      roster are separate tables). */
  datatype Activity = Activity(
    id: nat,
    sport: Sports.Sport,
    playerLimit: int,
    name: string,
    about: string,
    availableBetweenAt: Validators.DateTimeRange,
    status: Status)

  /** The Min/MaxValueValidator pair on `player_limit`. */
  predicate PlayerLimitValid(n: int) {
    MinPlayerLimit <= n <= MaxPlayerLimit
  }

  /** `name`: required (not blank) and at most 150 characters. */
  predicate NameValid(s: string) {
    0 < |s| <= NameMaxLength
  }

  /** `about`: may be blank, at most 600 characters. */
  predicate AboutValid(s: string) {
    |s| <= AboutMaxLength
  }

  /** The `name` column is a `varchar(150)`, so the database itself refuses
      a longer value; a blank one it stores. The `about` column is `text`,
      whose `max_length` only the validators enforce. */
  predicate NameFitsColumn(s: string) {
    |s| <= NameMaxLength
  }

  /** The two check constraints `lower_cannot_be_infinite` and
      `upper_cannot_be_infinite`, enforced by the database on every row. */
  predicate CheckConstraints(a: Activity) {
    a.availableBetweenAt.lower.At? && a.availableBetweenAt.upper.At?
  }

  /** Every field option and field validator of the model holds at `now`. */
  predicate FieldsValid(a: Activity, now: int) {
    && PlayerLimitValid(a.playerLimit)
    && NameValid(a.name)
    && AboutValid(a.about)
    && Validators.ValidateNowLessThanLowerValue(a.availableBetweenAt, now).Passed?
  }

  /** A new activity as the model builds it: `player_limit` 2 and status
      OPEN unless given. */
  function New(id: nat, sport: Sports.Sport, name: string, about: string,
               window: Validators.DateTimeRange, playerLimit: Option<int>): (a: Activity)
    ensures a.status == Open && StatusValue(a.status) == 1
    ensures playerLimit.None? ==> a.playerLimit == 2 && PlayerLimitValid(a.playerLimit)
    ensures playerLimit.Some? ==> a.playerLimit == playerLimit.value
  {
    Activity(id, sport, playerLimit.GetOr(DefaultPlayerLimit), name, about, window, DefaultStatus)
  }

  /** The field validators alone do not imply the check constraints: the
      validator ignores the upper bound, so an open-ended window passes it and
      only the database constraint rejects it. */
  lemma ValidatorsLeaveUpperToConstraint(id: nat, sport: Sports.Sport, now: int)
    ensures var a := New(id, sport, "x", "",
                         Validators.DateTimeRange(Validators.At(now + 1), Validators.Unbounded), None);
      FieldsValid(a, now) && !CheckConstraints(a)
  {
  }

  /** A valid activity's lower bound is finite, so of the two check
      constraints only the upper one can still fail. */
  lemma FieldsValidLowerFinite(a: Activity, now: int)
    requires FieldsValid(a, now)
    ensures a.availableBetweenAt.lower.At? && now < a.availableBetweenAt.lower.time
    ensures CheckConstraints(a) <==> a.availableBetweenAt.upper.At?
  {
  }

  /** `str(activity)`: its name, so a valid activity prints as a non-empty
      string of at most 150 characters. */
  function Str(a: Activity): (r: string)
    ensures NameValid(a.name) ==> 0 < |r| <= NameMaxLength
  {
    a.name
  }
}
