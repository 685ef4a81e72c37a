/** The activity create and update serializers (events/api/v1/serializers.py):
    the field pass that turns a request body into `validated_data`, the
    `validate` hook that checks the organizer's sport profile, and the save
    that writes the result to the database. */
module ActivitySerializers {
  import opened Wrappers
  import Strings
  import Sports
  import SportLevels
  import Validators
  import Activities
  import ActivityPlayers
  import ActivityLevels
  import PlayerSports
  import Database

  /** Why a request is refused: per-field errors (keyed by field name), an
      error raised by `validate`, an exception that escapes as a server
      error, or a missing instance. */
  datatype Failure =
    | FieldErrors(fields: set<Field>)
    | NonFieldError(message: string)
    | ServerError
    | NotFound

  /** The create request body; a key the client did not send is `None`.
      `sport` and `levels` are primary keys; `organizer` and `status` may be
      sent but are never read. An `about` that is not sent is the blank
      default, so it is modelled as the empty string. */
  datatype CreatePayload = CreatePayload(
    sport: Option<int>,
    levels: Option<seq<int>>,
    organizer: Option<nat>,
    playerLimit: Option<int>,
    name: Option<string>,
    about: string,
    window: Option<Validators.DateTimeRange>,
    status: Option<int>)

  /** `validated_data` of the create serializer. */
  datatype CreateData = CreateData(
    organizer: nat,
    sport: Sports.Sport,
    levels: seq<SportLevels.Level>,
    playerLimit: Option<int>,
    name: string,
    about: string,
    window: Validators.DateTimeRange)

  /** The level rows named by the primary keys, or `None` when one of them is
      not a row of the catalog. */
  function ResolveLevels(pks: seq<int>, catalog: set<SportLevels.Level>): (r: Option<seq<SportLevels.Level>>)
    ensures r.Some? <==> forall i :: 0 <= i < |pks| ==>
      SportLevels.FromValue(pks[i]).Some? && SportLevels.FromValue(pks[i]).value in catalog
    ensures r.Some? ==> |r.value| == |pks| && forall i :: 0 <= i < |pks| ==>
      SportLevels.Value(r.value[i]) == pks[i] && r.value[i] in catalog
  {
    if pks == [] then Some([])
    else
      var head := SportLevels.FromValue(pks[0]);
      var tail := ResolveLevels(pks[1..], catalog);
      if head.None? || head.value !in catalog || tail.None? then
        assert !(head.Some? && head.value in catalog) ==> !(SportLevels.FromValue(pks[0]).Some? && SportLevels.FromValue(pks[0]).value in catalog);
        None
      else
        Some([head.value] + tail.value)
  }

  /** The sport row named by a primary key. */
  function ResolveSport(pk: int, catalog: set<Sports.Sport>): (r: Option<Sports.Sport>)
    ensures r.Some? <==> Sports.FromValue(pk).Some? && Sports.FromValue(pk).value in catalog
    ensures r.Some? ==> Sports.Value(r.value) == pk && r.value in catalog
  {
    var s := Sports.FromValue(pk);
    if s.Some? && s.value in catalog then s else None
  }

  /** The body after the character fields' `trim_whitespace`: `name` and
      `about` lose their surrounding whitespace before they are validated. */
  function TrimCharFields(payload: CreatePayload): (r: CreatePayload)
    ensures payload.name.Some? <==> r.name.Some?
    ensures payload.name.Some? ==> r.name.value == Strings.Strip(payload.name.value)
    ensures r.about == Strings.Strip(payload.about)
    ensures r.(name := payload.name, about := payload.about) == payload
  {
    payload.(name := if payload.name.Some? then Some(Strings.Strip(payload.name.value)) else None,
             about := Strings.Strip(payload.about))
  }

  /** What `ProhibitNullCharactersValidator` refuses; the framework gives
      that validator to every character field. */
  predicate HasNullCharacter(s: string) {
    '\0' in s
  }

  /** The writable fields of the activity serializers. */
  datatype Field = SportField | LevelsField | PlayerLimitField | NameField | AboutField | WindowField | StatusField

  /** The field name the error response is keyed by. */
  function FieldName(f: Field): string {
    match f
    case SportField => "sport"
    case LevelsField => "levels"
    case PlayerLimitField => "player_limit"
    case NameField => "name"
    case AboutField => "about"
    case WindowField => "available_between_at"
    case StatusField => "status"
  }

  /** Whether one field of the create body fails its validation. `sport`,
      `levels`, `name` and `available_between_at` are required ("This field
      is required."); `player_limit` and `about` have defaults. */
  predicate CreateFieldFails(payload: CreatePayload, sports: set<Sports.Sport>,
                             levels: set<SportLevels.Level>, now: int, f: Field) {
    match f
    case SportField => payload.sport.None? || ResolveSport(payload.sport.value, sports).None?
    case LevelsField => payload.levels.None? || ResolveLevels(payload.levels.value, levels).None?
    case PlayerLimitField =>
      payload.playerLimit.Some? && !Activities.PlayerLimitValid(payload.playerLimit.value)
    case NameField =>
      payload.name.None? || !Activities.NameValid(payload.name.value) || HasNullCharacter(payload.name.value)
    case AboutField => !Activities.AboutValid(payload.about) || HasNullCharacter(payload.about)
    case WindowField =>
      || payload.window.None?
      || !Validators.BoundsOrdered(payload.window.value)
      || Validators.ValidateNowLessThanLowerValue(payload.window.value, now).Failed?
    case StatusField => false
  }

  /** The fields whose validation fails: every field is validated and all
      errors are reported together; the read-only `status` never fails. */
  function CreateFieldErrors(payload: CreatePayload, sports: set<Sports.Sport>,
                             levels: set<SportLevels.Level>, now: int): (r: set<Field>)
    ensures forall f :: f in r <==> CreateFieldFails(payload, sports, levels, now, f)
    ensures StatusField !in r
  {
    set f: Field | CreateFieldFails(payload, sports, levels, now, f)
  }

  /** The fields that `validated_data` is built from pass: the primary keys
      resolve and the character fields fit their bounds. */
  predicate FieldsResolve(payload: CreatePayload, sports: set<Sports.Sport>, levels: set<SportLevels.Level>) {
    && payload.sport.Some? && ResolveSport(payload.sport.value, sports).Some?
    && payload.levels.Some? && ResolveLevels(payload.levels.value, levels).Some?
    && payload.name.Some? && Activities.NameValid(payload.name.value) && !HasNullCharacter(payload.name.value)
    && Activities.AboutValid(payload.about) && !HasNullCharacter(payload.about)
    && payload.window.Some?
  }

  /** `validated_data` built from a body whose fields all pass. The
      organizer is always the requesting player (`HiddenField` with
      `CurrentPlayerDefault`) and the read-only `status` is dropped. */
  function ValidatedData(payload: CreatePayload, currentPlayer: nat, sports: set<Sports.Sport>,
                       levels: set<SportLevels.Level>): (r: CreateData)
    requires FieldsResolve(payload, sports, levels)
    ensures r.organizer == currentPlayer
    ensures Sports.Value(r.sport) == payload.sport.value && r.sport in sports
    ensures |r.levels| == |payload.levels.value|
    ensures forall i :: 0 <= i < |payload.levels.value| ==>
      SportLevels.Value(r.levels[i]) == payload.levels.value[i] && r.levels[i] in levels
    ensures r.playerLimit == payload.playerLimit
    ensures r.name == payload.name.value && Activities.NameValid(r.name) && !HasNullCharacter(r.name)
    ensures r.about == payload.about && Activities.AboutValid(r.about) && !HasNullCharacter(r.about)
    ensures r.window == payload.window.value
  {
    CreateData(currentPlayer, ResolveSport(payload.sport.value, sports).value,
               ResolveLevels(payload.levels.value, levels).value, payload.playerLimit,
               payload.name.value, payload.about, payload.window.value)
  }

  /** The field pass of the create serializer on a trimmed body. A window
      with an open lower bound makes the validator's comparison raise
      `TypeError`, which escapes as a server error. */
  function CheckFields(payload: CreatePayload, currentPlayer: nat, sports: set<Sports.Sport>,
                       levels: set<SportLevels.Level>, now: int): (r: Result<CreateData, Failure>)
    ensures (payload.window.Some? && payload.window.value.lower.Unbounded?) <==> r == Err(ServerError)
    ensures r.Err? && r != Err(ServerError) ==>
      r == Err(FieldErrors(CreateFieldErrors(payload, sports, levels, now))) && r.error.fields != {}
    ensures r.Ok? <==>
      && !(payload.window.Some? && payload.window.value.lower.Unbounded?)
      && CreateFieldErrors(payload, sports, levels, now) == {}
    ensures r.Ok? ==> (FieldsResolve(payload, sports, levels)
      && r.value == ValidatedData(payload, currentPlayer, sports, levels))
    ensures r.Ok? ==>
      payload.window.Some? && payload.window.value.lower.At? && now < payload.window.value.lower.time
    ensures r.Ok? ==> Validators.BoundsOrdered(payload.window.value)
  {
    if payload.window.Some? && payload.window.value.lower.Unbounded? then Err(ServerError)
    else
      var errors := CreateFieldErrors(payload, sports, levels, now);
      if errors != {} then Err(FieldErrors(errors))
      else
        assert SportField !in errors && LevelsField !in errors;
        assert NameField !in errors && AboutField !in errors && WindowField !in errors;
        Ok(ValidatedData(payload, currentPlayer, sports, levels))
  }

  /** The whole field pass: trim, then check every field. */
  function CreateFields(payload: CreatePayload, currentPlayer: nat, sports: set<Sports.Sport>,
                        levels: set<SportLevels.Level>, now: int): (r: Result<CreateData, Failure>)
  {
    CheckFields(TrimCharFields(payload), currentPlayer, sports, levels, now)
  }

  function MissingSportMessage(sport: Sports.Sport): string {
    "The player does not have " + Sports.Label(sport) + " record."
  }

  function MissingLevelMessage(sport: Sports.Sport): string {
    "The player does not have the requested level for " + Sports.Label(sport) + "."
  }

  /** `ActivityCreateSerializer.validate`: the organizer needs a profile row
      for the sport (checked first) whose level is among the requested
      levels; on success the data is returned as it came. */
  function ValidateOrganizer(attrs: CreateData, playerSports: seq<PlayerSports.PlayerSport>)
    : (r: Result<CreateData, Failure>)
    ensures r.Ok? <==>
      && PlayerSports.Get(playerSports, attrs.organizer, attrs.sport).Some?
      && PlayerSports.Get(playerSports, attrs.organizer, attrs.sport).value in attrs.levels
    ensures r.Ok? ==> r.value == attrs
    ensures PlayerSports.Get(playerSports, attrs.organizer, attrs.sport).None? ==>
      r == Err(NonFieldError(MissingSportMessage(attrs.sport)))
    ensures PlayerSports.Get(playerSports, attrs.organizer, attrs.sport).Some? && r.Err? ==>
      r == Err(NonFieldError(MissingLevelMessage(attrs.sport)))
  {
    match PlayerSports.Get(playerSports, attrs.organizer, attrs.sport)
    case None => Err(NonFieldError(MissingSportMessage(attrs.sport)))
    case Some(level) =>
      if level !in attrs.levels then Err(NonFieldError(MissingLevelMessage(attrs.sport)))
      else Ok(attrs)
  }

  /** The two messages differ, so an organizer without a profile row for the
      sport is never told about levels. */
  lemma MessagesDiffer(s: Sports.Sport, t: Sports.Sport)
    ensures MissingSportMessage(s) != MissingLevelMessage(t)
  {
    assert MissingSportMessage(s)[25] != 't';
    assert MissingLevelMessage(t)[25] == 't';
  }

  /** `is_valid()` of the create serializer: the field pass, then `validate`
      when every field passed. */
  function IsValidCreate(db: Database.Db, payload: CreatePayload, currentPlayer: nat, now: int)
    : (r: Result<CreateData, Failure>)
    ensures CreateFields(payload, currentPlayer, db.sports, db.levels, now).Err? ==>
      r == CreateFields(payload, currentPlayer, db.sports, db.levels, now)
    ensures r.Err? && r.error.NonFieldError? ==> CreateFields(payload, currentPlayer, db.sports, db.levels, now).Ok?
    ensures r.Ok? ==> r == CreateFields(payload, currentPlayer, db.sports, db.levels, now)
    ensures r.Ok? ==>
      PlayerSports.Get(db.playerSports, currentPlayer, r.value.sport).Some?
      && PlayerSports.Get(db.playerSports, currentPlayer, r.value.sport).value in r.value.levels
    ensures var fields := CreateFields(payload, currentPlayer, db.sports, db.levels, now);
      r.Ok? <==>
        && fields.Ok?
        && PlayerSports.Get(db.playerSports, currentPlayer, fields.value.sport).Some?
        && PlayerSports.Get(db.playerSports, currentPlayer, fields.value.sport).value in fields.value.levels
    ensures CreateFields(payload, currentPlayer, db.sports, db.levels, now).Ok? && r.Err? ==>
      r.error.NonFieldError?
  {
    var fields := CreateFields(payload, currentPlayer, db.sports, db.levels, now);
    if fields.Err? then fields else ValidateOrganizer(fields.value, db.playerSports)
  }

  /** What the client sends for `organizer` and `status` makes no difference. */
  lemma OrganizerAndStatusIgnored(db: Database.Db, payload: CreatePayload, organizer: Option<nat>,
                                  status: Option<int>, currentPlayer: nat, now: int)
    ensures IsValidCreate(db, payload.(organizer := organizer, status := status), currentPlayer, now)
         == IsValidCreate(db, payload, currentPlayer, now)
  {
    var p' := TrimCharFields(payload.(organizer := organizer, status := status));
    var p := TrimCharFields(payload);
    assert p' == p.(organizer := organizer, status := status);
    assert CreateFieldErrors(p', db.sports, db.levels, now) == CreateFieldErrors(p, db.sports, db.levels, now);
  }

  /** A lower bound that is not after `now` is refused, on the window field. */
  lemma CreateRejectsPastWindow(db: Database.Db, payload: CreatePayload, currentPlayer: nat, now: int)
    requires payload.window.Some? && payload.window.value.lower.At? && payload.window.value.lower.time <= now
    ensures IsValidCreate(db, payload, currentPlayer, now).Err?
    ensures IsValidCreate(db, payload, currentPlayer, now).error.FieldErrors?
    ensures WindowField in IsValidCreate(db, payload, currentPlayer, now).error.fields
  {
    assert CreateFieldFails(TrimCharFields(payload), db.sports, db.levels, now, WindowField);
  }

  /** A body that leaves out `sport`, `levels`, `name` or
      `available_between_at` is refused, with an error on each field left
      out (unless a sent window with an open lower bound raises first). */
  lemma CreateRequiresFields(db: Database.Db, payload: CreatePayload, currentPlayer: nat, now: int)
    requires payload.sport.None? || payload.levels.None? || payload.name.None? || payload.window.None?
    requires !(payload.window.Some? && payload.window.value.lower.Unbounded?)
    ensures var r := IsValidCreate(db, payload, currentPlayer, now);
      && r.Err? && r.error.FieldErrors?
      && (payload.sport.None? ==> SportField in r.error.fields)
      && (payload.levels.None? ==> LevelsField in r.error.fields)
      && (payload.name.None? ==> NameField in r.error.fields)
      && (payload.window.None? ==> WindowField in r.error.fields)
  {
    var p := TrimCharFields(payload);
    assert p.sport == payload.sport && p.levels == payload.levels && p.window == payload.window;
    var f := if payload.sport.None? then SportField else if payload.levels.None? then LevelsField
             else if payload.name.None? then NameField else WindowField;
    assert CreateFieldFails(p, db.sports, db.levels, now, f);
  }

  /** A name or about text holding a NUL character is refused on that field. */
  lemma CreateRejectsNullCharacter(db: Database.Db, payload: CreatePayload, currentPlayer: nat, now: int)
    requires (payload.name.Some? && HasNullCharacter(payload.name.value)) || HasNullCharacter(payload.about)
    requires !(payload.window.Some? && payload.window.value.lower.Unbounded?)
    ensures var r := IsValidCreate(db, payload, currentPlayer, now);
      && r.Err? && r.error.FieldErrors?
      && (payload.name.Some? && HasNullCharacter(payload.name.value) ==> NameField in r.error.fields)
      && (HasNullCharacter(payload.about) ==> AboutField in r.error.fields)
  {
    var p := TrimCharFields(payload);
    if HasNullCharacter(payload.about) {
      Strings.StripKeepsNonSpace(payload.about, '\0');
    }
    if payload.name.Some? && HasNullCharacter(payload.name.value) {
      Strings.StripKeepsNonSpace(payload.name.value, '\0');
    }
    CheckFieldsRejectsNullCharacter(p, currentPlayer, db.sports, db.levels, now);
  }

  /** The field pass on a trimmed body refuses a NUL character in the name
      or about text on that field. */
  lemma CheckFieldsRejectsNullCharacter(p: CreatePayload, currentPlayer: nat, sports: set<Sports.Sport>,
                                        levels: set<SportLevels.Level>, now: int)
    requires (p.name.Some? && HasNullCharacter(p.name.value)) || HasNullCharacter(p.about)
    requires !(p.window.Some? && p.window.value.lower.Unbounded?)
    ensures var r := CheckFields(p, currentPlayer, sports, levels, now);
      && r.Err? && r.error.FieldErrors?
      && (p.name.Some? && HasNullCharacter(p.name.value) ==> NameField in r.error.fields)
      && (HasNullCharacter(p.about) ==> AboutField in r.error.fields)
  {
    var f := if p.name.Some? && HasNullCharacter(p.name.value) then NameField else AboutField;
    assert CreateFieldFails(p, sports, levels, now, f);
  }

  /** `serializer.save()`: the activity is created through its manager with
      the organizer, then the level set is written (many-to-many fields are
      set after the row exists). The check constraints are not validated by
      the serializer, so an open upper bound fails only at the insert. */
  function SaveCreate(db: Database.Db, data: CreateData, now: int): (r: Result<(Database.Db, nat), Database.DbError>)
    requires Database.Valid(db)
    requires data.organizer in db.players && data.sport in db.sports
    requires forall l :: l in data.levels ==> l in db.levels
    ensures r.Err? <==>
      || data.window.upper.Unbounded? || data.window.lower.Unbounded? || !Validators.BoundsOrdered(data.window)
      || !Activities.NameFitsColumn(data.name)
    ensures r.Ok? ==> var (db', id) := r.value;
      && Database.Valid(db')
      && Database.FindActivity(db'.activities, id)
           == Some(Activities.New(id, data.sport, data.name, data.about, data.window, data.playerLimit))
      && ActivityPlayers.Organizer(db'.roster, id) == Some(data.organizer)
      && (forall p :: p in ActivityPlayers.Players(db'.roster, id) <==> p == data.organizer)
      && ActivityLevels.LevelsOf(db'.activityLevels, id) == (set l | l in data.levels)
      && db'.playerSports == db.playerSports && db'.requests == db.requests
  {
    var a := Activities.New(db.nextActivityId, data.sport, data.name, data.about, data.window, data.playerLimit);
    match Database.InsertActivity(db, Some(data.organizer), data.sport, data.name, data.about,
                                  data.window, data.playerLimit, now)
    case Err(e) => Err(e)
    case Ok((db1, id)) =>
      var t := db1.activities[|db1.activities| - 1];
      assert t in db1.activities && t.row == a;
      assert Database.FindActivity(db1.activities, id) == Some(a);
      var levelSet := set l | l in data.levels;
      var db2 := Database.SetActivityLevels(db1, id, levelSet).value;
      Ok((db2, id))
  }

  /** The whole create request: an accepted activity is OPEN, has the
      default limit when none was sent, exactly the requested level set and
      the requesting player as its one organizer. */
  lemma CreatedActivity(db: Database.Db, payload: CreatePayload, currentPlayer: nat, now: int)
    requires Database.Valid(db) && currentPlayer in db.players
    requires IsValidCreate(db, payload, currentPlayer, now).Ok?
    requires payload.window.Some? && payload.window.value.upper.At?
    ensures var data := IsValidCreate(db, payload, currentPlayer, now).value;
      var r := SaveCreate(db, data, now);
      && r.Ok?
      && var (db', id) := r.value;
      && var a := Database.FindActivity(db'.activities, id).value;
      && a.status == Activities.Open
      && (payload.playerLimit.None? ==> a.playerLimit == Activities.DefaultPlayerLimit)
      && a.sport == data.sport && Sports.Value(a.sport) == payload.sport.value
      && a.name == Strings.Strip(payload.name.value) && a.about == Strings.Strip(payload.about)
      && a.availableBetweenAt == payload.window.value
      && ActivityLevels.LevelsOf(db'.activityLevels, id) == (set i | 0 <= i < |payload.levels.value| :: data.levels[i])
      && ActivityPlayers.Organizer(db'.roster, id) == Some(currentPlayer)
  {
    var data := IsValidCreate(db, payload, currentPlayer, now).value;
    assert data == ValidatedData(TrimCharFields(payload), currentPlayer, db.sports, db.levels);
    assert (set l | l in data.levels) == (set i | 0 <= i < |payload.levels.value| :: data.levels[i]) by {
      forall l | l in data.levels ensures l in (set i | 0 <= i < |payload.levels.value| :: data.levels[i]) {
        var i :| 0 <= i < |data.levels| && data.levels[i] == l;
      }
    }
  }

  /** The update request body; a key the client did not send is `None`.
      `sport`, `levels` and `players` may be sent but are read-only. */
  datatype UpdatePayload = UpdatePayload(
    sport: Option<int>,
    levels: Option<seq<int>>,
    players: Option<seq<int>>,
    playerLimit: Option<int>,
    name: Option<string>,
    about: Option<string>,
    window: Option<Validators.DateTimeRange>,
    status: Option<int>)

  /** `trim_whitespace` on the character fields that were sent. */
  function TrimUpdate(payload: UpdatePayload): (r: UpdatePayload)
    ensures payload.name.Some? <==> r.name.Some?
    ensures payload.name.Some? ==> r.name.value == Strings.Strip(payload.name.value)
    ensures payload.about.Some? <==> r.about.Some?
    ensures payload.about.Some? ==> r.about.value == Strings.Strip(payload.about.value)
    ensures r.(name := payload.name, about := payload.about) == payload
  {
    payload.(name := if payload.name.Some? then Some(Strings.Strip(payload.name.value)) else None,
             about := if payload.about.Some? then Some(Strings.Strip(payload.about.value)) else None)
  }

  /** Whether one field of a trimmed update body fails. A full update
      (`partial` false) requires `name` and `available_between_at`; the other
      writable fields have defaults or may be blank. `player_limit` goes on
      to `validate_player_limit` once its range validators pass, which asks
      the instance's `check_player_limit` (`checkPlayerLimit` here, false
      when it raises). */
  predicate UpdateFieldFails(instance: Activities.Activity, payload: UpdatePayload, partial: bool, now: int,
                             checkPlayerLimit: (Activities.Activity, int) -> bool, f: Field) {
    match f
    case SportField => false
    case LevelsField => false
    case PlayerLimitField =>
      payload.playerLimit.Some?
      && (!Activities.PlayerLimitValid(payload.playerLimit.value)
          || !checkPlayerLimit(instance, payload.playerLimit.value))
    case NameField =>
      if payload.name.None? then !partial
      else !Activities.NameValid(payload.name.value) || HasNullCharacter(payload.name.value)
    case AboutField =>
      payload.about.Some? && (!Activities.AboutValid(payload.about.value) || HasNullCharacter(payload.about.value))
    case WindowField =>
      if payload.window.None? then !partial
      else
        || !Validators.BoundsOrdered(payload.window.value)
        || Validators.ValidateNowLessThanLowerValue(payload.window.value, now).Failed?
    case StatusField => payload.status.Some? && Activities.StatusFromValue(payload.status.value).None?
  }

  function UpdateFieldErrors(instance: Activities.Activity, payload: UpdatePayload, partial: bool, now: int,
                             checkPlayerLimit: (Activities.Activity, int) -> bool): (r: set<Field>)
    ensures forall f :: f in r <==> UpdateFieldFails(instance, payload, partial, now, checkPlayerLimit, f)
    ensures SportField !in r && LevelsField !in r
  {
    set f: Field | UpdateFieldFails(instance, payload, partial, now, checkPlayerLimit, f)
  }

  /** The instance with the sent writable fields applied (a `status` that is
      not a choice is refused before this point). */
  function Applied(instance: Activities.Activity, payload: UpdatePayload): (r: Activities.Activity)
    ensures r.id == instance.id && r.sport == instance.sport
    ensures r.playerLimit == payload.playerLimit.GetOr(instance.playerLimit)
    ensures r.name == payload.name.GetOr(instance.name)
    ensures r.about == payload.about.GetOr(instance.about)
    ensures r.availableBetweenAt == payload.window.GetOr(instance.availableBetweenAt)
    ensures payload.status.Some? && 1 <= payload.status.value <= 3 ==>
      Activities.StatusValue(r.status) == payload.status.value
    ensures payload.status.None? ==> r.status == instance.status
  {
    instance.(playerLimit := payload.playerLimit.GetOr(instance.playerLimit),
              name := payload.name.GetOr(instance.name),
              about := payload.about.GetOr(instance.about),
              availableBetweenAt := payload.window.GetOr(instance.availableBetweenAt),
              status := if payload.status.Some? && Activities.StatusFromValue(payload.status.value).Some?
                        then Activities.StatusFromValue(payload.status.value).value
                        else instance.status)
  }

  /** The field pass of `ActivityUpdateSerializer` on a trimmed body. */
  function CheckUpdateFields(instance: Activities.Activity, payload: UpdatePayload, partial: bool, now: int,
                             checkPlayerLimit: (Activities.Activity, int) -> bool)
    : (r: Result<Activities.Activity, Failure>)
    ensures (payload.window.Some? && payload.window.value.lower.Unbounded?) <==> r == Err(ServerError)
    ensures r.Err? && r != Err(ServerError) ==>
      r == Err(FieldErrors(UpdateFieldErrors(instance, payload, partial, now, checkPlayerLimit)))
      && r.error.fields != {}
    ensures r.Ok? <==>
      && !(payload.window.Some? && payload.window.value.lower.Unbounded?)
      && UpdateFieldErrors(instance, payload, partial, now, checkPlayerLimit) == {}
    ensures r.Ok? ==> r.value == Applied(instance, payload)
    ensures r.Ok? ==> r.value.sport == instance.sport && r.value.id == instance.id
    ensures r.Ok? && payload.window.Some? ==>
      payload.window.value.lower.At? && now < payload.window.value.lower.time
    ensures r.Ok? && payload.window.Some? ==> Validators.BoundsOrdered(payload.window.value)
    ensures r.Ok? && payload.name.Some? ==> Activities.NameValid(r.value.name) && !HasNullCharacter(r.value.name)
    ensures r.Ok? && payload.about.Some? ==> Activities.AboutValid(r.value.about) && !HasNullCharacter(r.value.about)
    ensures r.Ok? && payload.status.Some? ==> Activities.StatusValue(r.value.status) == payload.status.value
    ensures r.Ok? && !partial ==> payload.name.Some? && payload.window.Some?
    ensures r.Ok? && payload.playerLimit.Some? ==>
      Activities.PlayerLimitValid(r.value.playerLimit) && checkPlayerLimit(instance, r.value.playerLimit)
  {
    if payload.window.Some? && payload.window.value.lower.Unbounded? then Err(ServerError)
    else
      var errors := UpdateFieldErrors(instance, payload, partial, now, checkPlayerLimit);
      if errors != {} then Err(FieldErrors(errors))
      else
        assert PlayerLimitField !in errors && NameField !in errors && WindowField !in errors;
        assert StatusField !in errors && AboutField !in errors;
        Ok(Applied(instance, payload))
  }

  /** `PUT`/`PATCH` of an activity: the instance is looked up, the body is
      trimmed and validated, and the row is saved. The read-only `sport`,
      `levels` and `players` are never written, so the level set and the
      roster stay as they were. */
  function Update(db: Database.Db, id: nat, payload: UpdatePayload, partial: bool, now: int,
                  checkPlayerLimit: (Activities.Activity, int) -> bool)
    : (r: Result<Database.Db, Failure>)
    requires Database.Valid(db)
    ensures Database.FindActivity(db.activities, id).None? ==> r == Err(NotFound)
    ensures var found := Database.FindActivity(db.activities, id);
      r.Ok? <==>
        && found.Some?
        && var checked := CheckUpdateFields(found.value, TrimUpdate(payload), partial, now, checkPlayerLimit);
        && checked.Ok?
        && checked.value.availableBetweenAt.upper.At?
    ensures r.Ok? ==> Database.Valid(r.value)
    ensures r.Ok? ==> r.value == db.(activities := r.value.activities)
    ensures r.Ok? ==> forall other :: other != id ==>
      Database.FindActivity(r.value.activities, other) == Database.FindActivity(db.activities, other)
    ensures r.Ok? ==> var before := Database.FindActivity(db.activities, id).value;
      && Database.FindActivity(r.value.activities, id) == Some(Applied(before, TrimUpdate(payload)))
      && Database.FindActivity(r.value.activities, id).value.sport == before.sport
    ensures r.Ok? ==>
      && r.value.activityLevels == db.activityLevels
      && r.value.roster == db.roster
      && r.value.playerSports == db.playerSports
      && r.value.requests == db.requests
  {
    match Database.FindActivity(db.activities, id)
    case None => Err(NotFound)
    case Some(instance) =>
      match CheckUpdateFields(instance, TrimUpdate(payload), partial, now, checkPlayerLimit)
      case Err(e) => Err(e)
      case Ok(a) =>
        match Database.UpdateActivity(db, a)
        case Err(_) => Err(ServerError)
        case Ok(db') => Ok(db')
  }

  /** The field pass does not look at `sport`, `levels` or `players`. */
  lemma CheckIgnoresReadOnly(instance: Activities.Activity, p: UpdatePayload, partial: bool, now: int,
                             checkPlayerLimit: (Activities.Activity, int) -> bool,
                             sport: Option<int>, levels: Option<seq<int>>, players: Option<seq<int>>)
    ensures CheckUpdateFields(instance, p.(sport := sport, levels := levels, players := players), partial, now, checkPlayerLimit)
         == CheckUpdateFields(instance, p, partial, now, checkPlayerLimit)
  {
    var p' := p.(sport := sport, levels := levels, players := players);
    assert UpdateFieldErrors(instance, p', partial, now, checkPlayerLimit)
        == UpdateFieldErrors(instance, p, partial, now, checkPlayerLimit) by {
      forall f ensures UpdateFieldFails(instance, p', partial, now, checkPlayerLimit, f)
                   == UpdateFieldFails(instance, p, partial, now, checkPlayerLimit, f) {
      }
    }
    assert Applied(instance, p') == Applied(instance, p);
  }

  /** What the client sends for `sport`, `levels` and `players` makes no
      difference to an update. */
  lemma ReadOnlyFieldsIgnored(db: Database.Db, id: nat, payload: UpdatePayload, partial: bool, now: int,
                              checkPlayerLimit: (Activities.Activity, int) -> bool,
                              sport: Option<int>, levels: Option<seq<int>>, players: Option<seq<int>>)
    requires Database.Valid(db)
    ensures Update(db, id, payload.(sport := sport, levels := levels, players := players), partial, now, checkPlayerLimit)
         == Update(db, id, payload, partial, now, checkPlayerLimit)
  {
    var p := TrimUpdate(payload);
    assert TrimUpdate(payload.(sport := sport, levels := levels, players := players))
        == p.(sport := sport, levels := levels, players := players);
    if Database.FindActivity(db.activities, id).Some? {
      CheckIgnoresReadOnly(Database.FindActivity(db.activities, id).value, p, partial, now, checkPlayerLimit,
                           sport, levels, players);
    }
  }

  /** An update that sends a window starting at or before `now` is refused
      on that field. */
  lemma UpdateRejectsPastWindow(db: Database.Db, id: nat, payload: UpdatePayload, partial: bool, now: int,
                                checkPlayerLimit: (Activities.Activity, int) -> bool)
    requires Database.Valid(db) && Database.FindActivity(db.activities, id).Some?
    requires payload.window.Some? && payload.window.value.lower.At? && payload.window.value.lower.time <= now
    ensures Update(db, id, payload, partial, now, checkPlayerLimit).Err?
    ensures Update(db, id, payload, partial, now, checkPlayerLimit).error.FieldErrors?
    ensures WindowField in Update(db, id, payload, partial, now, checkPlayerLimit).error.fields
  {
    var instance := Database.FindActivity(db.activities, id).value;
    assert UpdateFieldFails(instance, TrimUpdate(payload), partial, now, checkPlayerLimit, WindowField);
  }
}
