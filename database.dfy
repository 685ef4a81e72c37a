/** The tables of the `participants` and `events` apps as one in-memory
    store: each table is a sequence of rows, each unique, check and foreign
    key constraint is a conjunct of `Valid`, and every operation that the
    database would accept keeps `Valid` true. */
module Database {
  import opened Wrappers
  import Tables
  import Sports
  import SportLevels
  import Tracking
  import Validators
  import Activities
  import ActivityPlayers
  import ActivityLevels
  import PlayerSports
  import ParticipationRequests

  datatype Db = Db(
    sports: set<Sports.Sport>,
    levels: set<SportLevels.Level>,
    players: set<nat>,
    playerSports: seq<PlayerSports.PlayerSport>,
    activities: seq<Tracking.Tracked<Activities.Activity>>,
    activityLevels: seq<ActivityLevels.LevelRow>,
    roster: seq<ActivityPlayers.RosterRow>,
    requests: seq<ParticipationRequests.ParticipationRequest>,
    nextActivityId: nat,
    nextRequestId: nat)

  datatype DbError =
    | OrganizerMissing                 // the activity manager's `create` reads a missing `organizer` key
    | RangeOutOfOrder                  // PostgreSQL refuses a range whose lower bound exceeds its upper bound
    | ValueTooLong                     // DataError: a value wider than its varchar column
    | CheckViolation(constraint: string)
    | ForeignKeyViolation
    | UniqueViolation
    | Protected                        // ON DELETE PROTECT
    | NotFound
    | RequestRefused(reason: ParticipationRequests.CreateError)

  function ActivityIds(activities: seq<Tracking.Tracked<Activities.Activity>>): set<nat> {
    set t | t in activities :: t.row.id
  }

  /** The unique constraints of every table, the activities' primary key
      included. */
  predicate KeysUnique(db: Db) {
    && PlayerSports.UniquePlayerSport(db.playerSports)
    && ActivityLevels.UniquePairs(db.activityLevels)
    && ActivityPlayers.OnlyOneOrganizer(db.roster)
    && ParticipationRequests.UniqueActivityParticipant(db.requests)
    && Tables.UniqueBy(db.activities, (t: Tracking.Tracked<Activities.Activity>) => t.row.id)
  }

  /** Every stored activity satisfies the check constraints, has a window
      whose bounds are in order, a name that fits its column, names a sport
      of the catalog and has an id
      below the next one to be handed out. */
  predicate ActivitiesValid(db: Db) {
    forall t :: t in db.activities ==>
      && t.row.id < db.nextActivityId
      && Activities.CheckConstraints(t.row)
      && Validators.BoundsOrdered(t.row.availableBetweenAt)
      && Activities.NameFitsColumn(t.row.name)
      && t.row.sport in db.sports
  }

  /** Every foreign key points at an existing row. */
  predicate ReferencesValid(db: Db) {
    && (forall r :: r in db.playerSports ==>
          r.player in db.players && r.sport in db.sports && r.level in db.levels)
    && (forall r :: r in db.activityLevels ==> r.activity in ActivityIds(db.activities) && r.level in db.levels)
    && (forall r :: r in db.roster ==> r.activity in ActivityIds(db.activities) && r.player in db.players)
    && (forall q :: q in db.requests ==>
          && q.activity in ActivityIds(db.activities) && q.participant in db.players
          && q.id < db.nextRequestId && ParticipationRequests.MessageValid(q.message))
  }

  predicate Valid(db: Db) {
    KeysUnique(db) && ActivitiesValid(db) && ReferencesValid(db)
  }

  /** The database after the initial migrations: one row per sport and per
      level, nothing else. */
  function Seeded(): (db: Db)
    ensures Valid(db)
    ensures Sports.Ordered(db.sports) == Sports.Choices()
    ensures SportLevels.Ordered(db.levels) == SportLevels.Choices()
  {
    Sports.SeedOrdered();
    SportLevels.SeedOrdered();
    Db(Sports.Seed(), SportLevels.Seed(), {}, [], [], [], [], [], 0, 0)
  }

  /** A new player row (created with its user). */
  function AddPlayer(db: Db, player: nat): (r: Result<Db, DbError>)
    requires Valid(db)
    ensures r.Err? <==> player in db.players
    ensures r.Ok? ==> Valid(r.value) && r.value == db.(players := db.players + {player})
  {
    if player in db.players then Err(UniqueViolation)
    else Ok(db.(players := db.players + {player}))
  }

  /** Deleting a player cascades to its sport profile, its roster rows and
      its participation requests. */
  function DeletePlayer(db: Db, player: nat): (r: Db)
    requires Valid(db)
    ensures Valid(r)
    ensures player !in r.players
    ensures forall row :: row in r.playerSports <==> row in db.playerSports && row.player != player
    ensures forall row :: row in r.roster <==> row in db.roster && row.player != player
    ensures forall q :: q in r.requests <==> q in db.requests && q.participant != player
    ensures r.activities == db.activities && r.activityLevels == db.activityLevels
  {
    db.(players := db.players - {player},
        playerSports := PlayerSports.DeletePlayer(db.playerSports, player),
        roster := ActivityPlayers.DeletePlayer(db.roster, player),
        requests := ParticipationRequests.DeleteParticipant(db.requests, player))
  }

  /** A new sport profile row. */
  function AddPlayerSport(db: Db, player: nat, sport: Sports.Sport, level: SportLevels.Level)
    : (r: Result<Db, DbError>)
    requires Valid(db)
    ensures r.Err? <==>
      || player !in db.players || sport !in db.sports || level !in db.levels
      || PlayerSports.Get(db.playerSports, player, sport).Some?
    ensures r.Ok? ==> Valid(r.value)
    ensures r.Ok? ==> PlayerSports.Get(r.value.playerSports, player, sport) == Some(level)
  {
    if player !in db.players || sport !in db.sports || level !in db.levels then Err(ForeignKeyViolation)
    else match PlayerSports.Add(db.playerSports, player, sport, level)
      case Err(_) => Err(UniqueViolation)
      case Ok(rows) => Ok(db.(playerSports := rows))
  }

  /** The player-sport level update: the row is looked up by (player, sport). */
  function UpdatePlayerSportLevel(db: Db, player: nat, sport: Sports.Sport, level: SportLevels.Level)
    : (r: Result<Db, DbError>)
    requires Valid(db)
    ensures r.Err? <==> level !in db.levels || PlayerSports.Get(db.playerSports, player, sport).None?
    ensures r.Ok? ==> Valid(r.value)
    ensures r.Ok? ==> PlayerSports.Get(r.value.playerSports, player, sport) == Some(level)
  {
    if level !in db.levels then Err(ForeignKeyViolation)
    else match PlayerSports.UpdateLevel(db.playerSports, player, sport, level)
      case Err(_) => Err(NotFound)
      case Ok(rows) =>
        assert forall row :: row in rows ==> row in db.playerSports || row == PlayerSports.PlayerSport(player, sport, level) by {
          forall row | row in rows
            ensures row in db.playerSports || row == PlayerSports.PlayerSport(player, sport, level)
          {
            var i :| 0 <= i < |rows| && rows[i] == row;
          }
        }
        Ok(db.(playerSports := rows))
  }

  /** The check constraint that rejects an activity, if any; PostgreSQL
      evaluates a table's check constraints in name order. */
  function FailedCheck(a: Activities.Activity): (r: Option<string>)
    ensures r.None? <==> Activities.CheckConstraints(a)
  {
    if a.availableBetweenAt.lower.Unbounded? then Some("lower_cannot_be_infinite")
    else if a.availableBetweenAt.upper.Unbounded? then Some("upper_cannot_be_infinite")
    else None
  }

  /** `Activity.objects.create(organizer=..., **fields)`: the activity row
      (with a fresh id and the tracking defaults) and its organizer's roster
      row. The manager reads the `organizer` key, so omitting it fails. Of
      the database's refusals, the model reports an out-of-order range before
      an over-long name, and both before the check constraints. */
  function InsertActivity(db: Db, organizer: Option<nat>, sport: Sports.Sport, name: string,
                          about: string, window: Validators.DateTimeRange,
                          playerLimit: Option<int>, now: int)
    : (r: Result<(Db, nat), DbError>)
    requires Valid(db)
    ensures organizer.None? ==> r == Err(OrganizerMissing)
    ensures organizer.Some? && !Validators.BoundsOrdered(window) ==> r == Err(RangeOutOfOrder)
    ensures organizer.Some? && Validators.BoundsOrdered(window) && !Activities.NameFitsColumn(name) ==>
      r == Err(ValueTooLong)
    ensures r.Err? <==>
      || organizer.None? || !Validators.BoundsOrdered(window) || !Activities.NameFitsColumn(name)
      || !Activities.CheckConstraints(Activities.New(db.nextActivityId, sport, name, about, window, playerLimit))
      || sport !in db.sports || organizer.value !in db.players
    ensures r.Ok? ==> var (db', id) := r.value;
      && Valid(db')
      && id == db.nextActivityId && id !in ActivityIds(db.activities)
      && db'.activities == db.activities
           + [Tracking.Track(Activities.New(id, sport, name, about, window, playerLimit), now)]
      && db'.roster == db.roster + [ActivityPlayers.RosterRow(id, organizer.value, true)]
      && ActivityPlayers.Organizer(db'.roster, id) == Some(organizer.value)
      && (forall p :: p in ActivityPlayers.Players(db'.roster, id) <==> p == organizer.value)
      && ActivityLevels.LevelsOf(db'.activityLevels, id) == {}
      && db'.activityLevels == db.activityLevels && db'.requests == db.requests
  {
    if organizer.None? then Err(OrganizerMissing)
    else
      var id := db.nextActivityId;
      var a := Activities.New(id, sport, name, about, window, playerLimit);
      if !Validators.BoundsOrdered(window) then Err(RangeOutOfOrder)
      else if !Activities.NameFitsColumn(name) then Err(ValueTooLong)
      else if FailedCheck(a).Some? then Err(CheckViolation(FailedCheck(a).value))
      else if sport !in db.sports || organizer.value !in db.players then Err(ForeignKeyViolation)
      else
        var row := ActivityPlayers.RosterRow(id, organizer.value, true);
        assert id !in ActivityIds(db.activities);
        assert !ActivityPlayers.HasOrganizer(db.roster, id);
        var roster := ActivityPlayers.Insert(db.roster, row).value;
        var db' := db.(activities := db.activities + [Tracking.Track(a, now)],
                       roster := roster,
                       nextActivityId := id + 1);
        assert ActivityIds(db'.activities) == ActivityIds(db.activities) + {id};
        assert Tables.UniqueBy(db'.activities, (t: Tracking.Tracked<Activities.Activity>) => t.row.id) by {
          Tables.ConcatUniqueBy(db.activities, [Tracking.Track(a, now)],
                                (t: Tracking.Tracked<Activities.Activity>) => t.row.id);
        }
        assert ActivityLevels.LevelsOf(db.activityLevels, id) == {};
        Ok((db', id))
  }

  /** `activity.levels.set(levels)`: the activity must exist and every level
      must be a row of the catalog. */
  function SetActivityLevels(db: Db, activity: nat, levels: set<SportLevels.Level>): (r: Result<Db, DbError>)
    requires Valid(db)
    ensures r.Err? <==> activity !in ActivityIds(db.activities) || !(levels <= db.levels)
    ensures r.Ok? ==> Valid(r.value)
    ensures r.Ok? ==> ActivityLevels.LevelsOf(r.value.activityLevels, activity) == levels
    ensures r.Ok? ==> ActivityLevels.Levels(r.value.activityLevels, activity) == SportLevels.Ordered(levels)
    ensures r.Ok? ==> r.value == db.(activityLevels := r.value.activityLevels)
  {
    if activity !in ActivityIds(db.activities) || !(levels <= db.levels) then Err(ForeignKeyViolation)
    else
      var rows := ActivityLevels.SetLevels(db.activityLevels, activity, levels);
      ActivityLevels.SetThenRead(db.activityLevels, activity, levels);
      SetLevelsReferences(db, activity, levels);
      Ok(db.(activityLevels := rows))
  }

  /** The rows `SetActivityLevels` leaves refer to existing activities and levels. */
  lemma SetLevelsReferences(db: Db, activity: nat, levels: set<SportLevels.Level>)
    requires ReferencesValid(db)
    requires activity in ActivityIds(db.activities) && levels <= db.levels
    ensures forall row :: row in ActivityLevels.SetLevels(db.activityLevels, activity, levels) ==>
      row.activity in ActivityIds(db.activities) && row.level in db.levels
  {
    var rows := ActivityLevels.SetLevels(db.activityLevels, activity, levels);
    forall row | row in rows ensures row.activity in ActivityIds(db.activities) && row.level in db.levels {
      if row.activity == activity {
        assert row.level in ActivityLevels.LevelsOf(rows, activity);
      } else {
        assert row in db.activityLevels;
      }
    }
  }

  /** `activity.players.add(player)`: both rows must exist; a player already
      on the roster is left as is and the organizer does not change. */
  function AddActivityPlayer(db: Db, activity: nat, player: nat): (r: Result<Db, DbError>)
    requires Valid(db)
    ensures r.Err? <==> activity !in ActivityIds(db.activities) || player !in db.players
    ensures r.Ok? ==> Valid(r.value)
    ensures r.Ok? ==> player in ActivityPlayers.Players(r.value.roster, activity)
    ensures r.Ok? ==> ActivityPlayers.Organizer(r.value.roster, activity) == ActivityPlayers.Organizer(db.roster, activity)
    ensures r.Ok? ==> r.value == db.(roster := r.value.roster)
  {
    if activity !in ActivityIds(db.activities) || player !in db.players then Err(ForeignKeyViolation)
    else Ok(db.(roster := ActivityPlayers.AddPlayer(db.roster, activity, player)))
  }

  /** Deleting an activity cascades to its level rows, its roster and the
      requests made for it. */
  function DeleteActivity(db: Db, activity: nat): (r: Db)
    requires Valid(db)
    ensures Valid(r)
    ensures ActivityIds(r.activities) == ActivityIds(db.activities) - {activity}
    ensures ActivityLevels.LevelsOf(r.activityLevels, activity) == {}
    ensures forall row :: row in r.roster <==> row in db.roster && row.activity != activity
    ensures forall q :: q in r.requests <==> q in db.requests && q.activity != activity
    ensures r.players == db.players && r.playerSports == db.playerSports
  {
    var activities := Tables.Filter(db.activities, (t: Tracking.Tracked<Activities.Activity>) => t.row.id != activity);
    Tables.SubsequenceUniqueBy(activities, db.activities, (t: Tracking.Tracked<Activities.Activity>) => t.row.id);
    var r := db.(activities := activities,
                 activityLevels := ActivityLevels.DeleteActivity(db.activityLevels, activity),
                 roster := ActivityPlayers.DeleteActivity(db.roster, activity),
                 requests := ParticipationRequests.DeleteActivity(db.requests, activity));
    assert ActivityIds(r.activities) == ActivityIds(db.activities) - {activity};
    r
  }

  /** Deleting a level: refused while a sport profile refers to it
      (PROTECT); otherwise the activities' level rows for it go with it
      (CASCADE). */
  function DeleteLevel(db: Db, level: SportLevels.Level): (r: Result<Db, DbError>)
    requires Valid(db)
    ensures r.Err? <==> level !in db.levels || PlayerSports.ReferencesLevel(db.playerSports, level)
    ensures r.Ok? ==> Valid(r.value) && r.value.levels == db.levels - {level}
    ensures r.Ok? ==> forall a :: ActivityLevels.LevelsOf(r.value.activityLevels, a)
                                == ActivityLevels.LevelsOf(db.activityLevels, a) - {level}
  {
    if level !in db.levels then Err(NotFound)
    else if PlayerSports.ReferencesLevel(db.playerSports, level) then Err(Protected)
    else Ok(db.(levels := db.levels - {level},
                activityLevels := ActivityLevels.DeleteLevel(db.activityLevels, level)))
  }

  /** Deleting a sport: refused while a sport profile or an activity refers
      to it (both PROTECT). */
  function DeleteSport(db: Db, sport: Sports.Sport): (r: Result<Db, DbError>)
    requires Valid(db)
    ensures r.Err? <==>
      || sport !in db.sports
      || PlayerSports.ReferencesSport(db.playerSports, sport)
      || (exists t :: t in db.activities && t.row.sport == sport)
    ensures r.Ok? ==> Valid(r.value) && r.value == db.(sports := db.sports - {sport})
  {
    if sport !in db.sports then Err(NotFound)
    else if PlayerSports.ReferencesSport(db.playerSports, sport)
         || (exists t :: t in db.activities && t.row.sport == sport) then Err(Protected)
    else Ok(db.(sports := db.sports - {sport}))
  }

  /** A participation request by `participant` for `activity`, stamped with
      `now` and given the next request id. */
  function CreateParticipationRequest(db: Db, activity: nat, participant: nat, message: string, now: int)
    : (r: Result<Db, DbError>)
    requires Valid(db)
    ensures r.Err? <==>
      || activity !in ActivityIds(db.activities) || participant !in db.players
      || !ParticipationRequests.MessageValid(message)
      || ParticipationRequests.HasRequest(db.requests, activity, participant)
    ensures r.Ok? ==> Valid(r.value)
    ensures r.Ok? ==> (r.value.requests == db.requests
      + [ParticipationRequests.ParticipationRequest(db.nextRequestId, activity, participant, now, message)])
  {
    if activity !in ActivityIds(db.activities) || participant !in db.players then Err(ForeignKeyViolation)
    else match ParticipationRequests.Create(db.requests, db.nextRequestId, activity, participant, message, now)
      case Err(e) => Err(RequestRefused(e))
      case Ok((rows, _)) => Ok(db.(requests := rows, nextRequestId := db.nextRequestId + 1))
  }

  /** `Activity.objects` (the default tracking manager): the active activities. */
  function VisibleActivities(db: Db): (r: seq<Tracking.Tracked<Activities.Activity>>)
    ensures forall t :: t in r <==> t in db.activities && t.isActive
  {
    Tracking.GetQueryset(Tracking.Objects(), db.activities)
  }

  /** The activity row with the given primary key, if any. */
  function FindActivity(activities: seq<Tracking.Tracked<Activities.Activity>>, id: nat)
    : (r: Option<Activities.Activity>)
    ensures r.None? <==> id !in ActivityIds(activities)
    ensures r.Some? ==> r.value.id == id && exists t :: t in activities && t.row == r.value
    ensures Tables.UniqueBy(activities, (t: Tracking.Tracked<Activities.Activity>) => t.row.id) ==>
      forall t :: t in activities && t.row.id == id ==> r == Some(t.row)
  {
    if activities == [] then None
    else if activities[0].row.id == id then
      assert Tables.UniqueBy(activities, (t: Tracking.Tracked<Activities.Activity>) => t.row.id) ==>
        forall t :: t in activities && t.row.id == id ==> t == activities[0]
      by {
        if Tables.UniqueBy(activities, (t: Tracking.Tracked<Activities.Activity>) => t.row.id) {
          forall t | t in activities && t.row.id == id ensures t == activities[0] {
            var k :| 0 <= k < |activities| && activities[k] == t;
          }
        }
      }
      Some(activities[0].row)
    else
      var tail := activities[1..];
      assert ActivityIds(activities) == ActivityIds(tail) + {activities[0].row.id} by {
        assert forall t :: t in activities <==> t == activities[0] || t in tail;
      }
      assert Tables.UniqueBy(activities, (t: Tracking.Tracked<Activities.Activity>) => t.row.id) ==>
             Tables.UniqueBy(tail, (t: Tracking.Tracked<Activities.Activity>) => t.row.id)
      by {
        if Tables.UniqueBy(activities, (t: Tracking.Tracked<Activities.Activity>) => t.row.id) {
          forall i, j | 0 <= i < j < |tail| ensures tail[i].row.id != tail[j].row.id {
            assert tail[i] == activities[i + 1] && tail[j] == activities[j + 1];
          }
        }
      }
      FindActivity(tail, id)
  }

  /** The table with the row of `a`'s primary key given `a` as its columns;
      the tracking columns are kept. */
  function ReplaceActivity(activities: seq<Tracking.Tracked<Activities.Activity>>, a: Activities.Activity)
    : (r: seq<Tracking.Tracked<Activities.Activity>>)
    ensures |r| == |activities|
    ensures forall i :: 0 <= i < |activities| ==>
      r[i] == if activities[i].row.id == a.id then activities[i].(row := a) else activities[i]
  {
    if activities == [] then []
    else
      [if activities[0].row.id == a.id then activities[0].(row := a) else activities[0]]
      + ReplaceActivity(activities[1..], a)
  }

  /** `activity.save()` of an existing row: the row is looked up by primary
      key, the check constraints and the sport reference are enforced, and
      no other table changes. */
  function UpdateActivity(db: Db, a: Activities.Activity): (r: Result<Db, DbError>)
    requires Valid(db)
    ensures r.Err? <==>
      || a.id !in ActivityIds(db.activities) || !Validators.BoundsOrdered(a.availableBetweenAt)
      || !Activities.NameFitsColumn(a.name) || !Activities.CheckConstraints(a) || a.sport !in db.sports
    ensures r.Ok? ==> Valid(r.value)
    ensures r.Ok? ==> r.value == db.(activities := r.value.activities)
    ensures r.Ok? ==> ActivityIds(r.value.activities) == ActivityIds(db.activities)
    ensures r.Ok? ==> FindActivity(r.value.activities, a.id) == Some(a)
    ensures r.Ok? ==> forall id :: id != a.id ==> FindActivity(r.value.activities, id) == FindActivity(db.activities, id)
  {
    if a.id !in ActivityIds(db.activities) then Err(NotFound)
    else if !Validators.BoundsOrdered(a.availableBetweenAt) then Err(RangeOutOfOrder)
    else if !Activities.NameFitsColumn(a.name) then Err(ValueTooLong)
    else if FailedCheck(a).Some? then Err(CheckViolation(FailedCheck(a).value))
    else if a.sport !in db.sports then Err(ForeignKeyViolation)
    else
      var activities := ReplaceActivity(db.activities, a);
      var db' := db.(activities := activities);
      ReplaceActivityKeys(db.activities, a);
      ReplaceActivityFind(db.activities, a);
      ReplaceActivityValid(db, a);
      Ok(db')
  }

  /** Replacing a row's columns keeps every primary key where it was. */
  lemma ReplaceActivityKeys(activities: seq<Tracking.Tracked<Activities.Activity>>, a: Activities.Activity)
    ensures ActivityIds(ReplaceActivity(activities, a)) == ActivityIds(activities)
    ensures Tables.UniqueBy(activities, (t: Tracking.Tracked<Activities.Activity>) => t.row.id) ==>
            Tables.UniqueBy(ReplaceActivity(activities, a), (t: Tracking.Tracked<Activities.Activity>) => t.row.id)
  {
    var r := ReplaceActivity(activities, a);
    assert forall i :: 0 <= i < |r| ==> r[i].row.id == activities[i].row.id;
    forall id | id in ActivityIds(activities) ensures id in ActivityIds(r) {
      var t :| t in activities && t.row.id == id;
      var i :| 0 <= i < |activities| && activities[i] == t;
      assert r[i] in r;
    }
    forall id | id in ActivityIds(r) ensures id in ActivityIds(activities) {
      var t :| t in r && t.row.id == id;
      var i :| 0 <= i < |r| && r[i] == t;
      assert activities[i] in activities;
    }
  }

  /** After the replacement the key finds the new columns, and every other
      key finds what it found before. */
  lemma ReplaceActivityFind(activities: seq<Tracking.Tracked<Activities.Activity>>, a: Activities.Activity)
    requires Tables.UniqueBy(activities, (t: Tracking.Tracked<Activities.Activity>) => t.row.id)
    requires a.id in ActivityIds(activities)
    ensures FindActivity(ReplaceActivity(activities, a), a.id) == Some(a)
    ensures forall id :: id != a.id ==> FindActivity(ReplaceActivity(activities, a), id) == FindActivity(activities, id)
  {
    var r := ReplaceActivity(activities, a);
    ReplaceActivityKeys(activities, a);
    var t0 :| t0 in activities && t0.row.id == a.id;
    var i0 :| 0 <= i0 < |activities| && activities[i0] == t0;
    assert r[i0] in r && r[i0].row == a;
    forall id | id != a.id ensures FindActivity(r, id) == FindActivity(activities, id) {
      if id in ActivityIds(activities) {
        var t :| t in activities && t.row.id == id;
        var i :| 0 <= i < |activities| && activities[i] == t;
        assert r[i] == t;
      }
    }
  }

  /** The replacement keeps the activity invariants when the new columns
      satisfy them. */
  lemma ReplaceActivityValid(db: Db, a: Activities.Activity)
    requires Valid(db) && Activities.CheckConstraints(a) && a.sport in db.sports
    requires Validators.BoundsOrdered(a.availableBetweenAt) && Activities.NameFitsColumn(a.name)
    requires a.id in ActivityIds(db.activities)
    ensures Valid(db.(activities := ReplaceActivity(db.activities, a)))
  {
    var activities := ReplaceActivity(db.activities, a);
    var db' := db.(activities := activities);
    ReplaceActivityKeys(db.activities, a);
    assert KeysUnique(db');
    forall t | t in activities
      ensures t.row.id < db.nextActivityId && Activities.CheckConstraints(t.row) && t.row.sport in db.sports
      ensures Validators.BoundsOrdered(t.row.availableBetweenAt) && Activities.NameFitsColumn(t.row.name)
    {
      var i :| 0 <= i < |activities| && activities[i] == t;
      var old_t := db.activities[i];
      assert old_t in db.activities;
      if old_t.row.id == a.id {
        assert t.row == a;
      } else {
        assert t == old_t;
      }
    }
    assert ActivitiesValid(db');
    assert ReferencesValid(db');
  }
}
