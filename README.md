# sporpa: a Dafny model of the activity-matching core

Sporpa is a Django / Django REST framework backend where players arrange
sports activities. A player keeps one skill level per sport. A player
organises an activity for a sport and for a set of accepted levels. Other
players send participation requests to join it. This project models that
core in Dafny and proves its properties:

- the sport and level catalogues;
- the tables, with the constraints the database enforces on them: unique
  keys, the single organizer row, foreign keys with CASCADE and PROTECT;
- the soft-delete manager;
- the activity create and update serializers, with the organizer-eligibility
  check;
- the window validator;
- the user manager, including email normalisation;
- the exception handler function in sporpa/utils/exceptions.py. The
  `REST_FRAMEWORK` settings (sporpa/core/settings/base.py:132-147) name no
  `EXCEPTION_HANDLER`, so the framework's default handler serves requests;
  the model describes the project's function as written.

Each table is a sequence of rows, and an operation on a table is a pure
function that returns the new table or an error. The database as a whole is
the value `Database.Db`, and its constraints are the invariant
`Database.Valid`. Every database operation keeps that invariant. Where the
source updates objects in place, the model is a class:

- `Users.User` and `Users.UserManager`;
- the connection flag that `set_rollback` sets (`Exceptions.Connection`).

The exception handler fills its headers dict step by step. It is a method
proved equal to the pure classification `Exceptions.Classify`.

Some things come from outside the model, and it takes them as parameters:

- the current time `now`, an integer;
- the current player (`CurrentPlayerDefault`);
- `Activity.check_player_limit`, which no file of the repository defines,
  as an uninterpreted predicate `checkPlayerLimit`.

Row identifiers are natural numbers that the database hands out in
sequence.

Where the source and its tests or comments disagree, the model follows the
code:

- The roster row `ActivityPlayer` has a foreign key `player_sport`
  (sporpa/events/models/activity_player.py:11-15). `Activity.players`
  declares `through_fields=("activity", "player")`
  (sporpa/events/models/activity.py:29-35), a field the row does not have.
  The roster is modelled as `(activity, player, isOrganizer)`
  (`ActivityPlayers.RosterRow`), which is what the relation is used for.
- `ParticipationRequestManager.filter_organizer` filters on
  `activity__activity_players__is_organizer`
  (sporpa/participants/models/participation_request.py:14). The foreign key
  `ActivityPlayer.activity` (sporpa/events/models/activity_player.py:6-10)
  sets no `related_name`, so the reverse name is `activityplayer` and this
  lookup does not resolve. `ParticipationRequests.FilterOrganizer` models the
  evidently intended query: requests for activities the player organises.
- `TrackingManagerMixin.get_queryset` filters on `is_active` only
  (sporpa/utils/models/tracking_mixin.py:17). The test at
  sporpa/tests/utils/test_models.py:37-40 expects a row with `deleted_at`
  set to be hidden. The model keeps such a row visible (`Tracking.DeletedAtIgnored`).
- `user_directory_path` returns `avatars/user/<email>/<filename>`
  (sporpa/accounts/models/user.py:61). The comment on line 60 and
  sporpa/tests/accounts/api/v1/test_models.py:45 say `user_<pk>`. The model
  follows the code.
- sporpa/tests/accounts/test_models.py:67-79 reads
  `user.has_verified_email_address`, which `User` does not define. The model
  has only the `has_verified_email` flag.
- The custom `Activity` manager's `create` is not part of this model. The
  tests show that it takes an `organizer` argument, raises without one and
  writes the organizer's roster row. `Database.InsertActivity` models
  exactly that observed behaviour.

Framework behaviour the model relies on:

- The create serializer first runs every field validation and collects all
  failing fields (`ActivitySerializers.CreateFieldErrors`). Only when none
  fail does `validate` run.
- CharFields strip surrounding whitespace first (`TrimCharFields`).
- The hidden `organizer` field is always the current player.
- `status` is read-only on create.
- `sport`, `levels` and `players` are read-only on update.
- A window whose lower bound is infinite makes
  `validate_now_less_than_lower_value` compare `None` with a datetime, and
  the `TypeError` escapes as a server error (`Failure.ServerError`).
- PostgreSQL checks the two check constraints in name order, so
  `lower_cannot_be_infinite` is reported first.
- The range field refuses a window whose lower bound is after its upper
  bound (`bound_ordering`), both on create and on update; PostgreSQL refuses
  such a `tstzrange` too (`Database.RangeOutOfOrder`).
- `levels` is a many-to-many relation with a `through` model. The
  framework builds such a field read-only and without `allow_empty=False`;
  `extra_kwargs` (sporpa/events/api/v1/serializers.py:39-43) makes it
  writable again but keeps empty lists allowed. An empty list therefore
  passes the field pass, and `validate` then refuses it because no level
  matches the organizer's.

## Model

| member | source | states |
|---|---|---|
| Sports.Value | sporpa/participants/models/sport.py:6-11 | every sport's stored value lies in 1..5 |
| Sports.FromValue | sporpa/participants/models/sport.py:13-17 | a value names a sport iff it is in 1..5, and then exactly the sport with that value (the value is the primary key) |
| Sports.Str | sporpa/participants/models/sport.py:25-26 | `str(sport)` is its label, and no two sports share a label |
| Sports.Choices | sporpa/participants/models/sport.py:6-11 | exactly five sports, all of them, strictly ascending by value |
| Sports.Ordered | sporpa/participants/models/sport.py:23 | a table read back holds exactly its rows, strictly ascending by value |
| Sports.Seed | sporpa/participants/migrations/0001_initial.py:8-11 | the seed migration inserts every choice |
| Sports.SeedOrdered | sporpa/participants/migrations/0001_initial.py:8-11 | the seeded table, read in default order, is the choice list |
| SportLevels.Value | sporpa/participants/models/sport_level.py:6-11 | every level's value lies in 1..5 |
| SportLevels.FromValue | sporpa/participants/models/sport_level.py:13-17 | a value names a level iff it is in 1..5, and then exactly the level with that value |
| SportLevels.Str | sporpa/participants/models/sport_level.py:25-26 | `str(level)` is its label, and labels are distinct |
| SportLevels.Choices | sporpa/participants/models/sport_level.py:6-11 | five levels, Beginner to Expert, strictly ascending |
| SportLevels.Ordered | sporpa/participants/models/sport_level.py:23 | a table read back holds exactly its rows, ascending by level |
| SportLevels.Seed | sporpa/participants/migrations/0001_initial.py:14-17 | the seed migration inserts every level |
| SportLevels.SeedOrdered | sporpa/participants/migrations/0001_initial.py:14-17 | the seeded table in default order is the choice list |
| Tracking.Track | sporpa/utils/models/tracking_mixin.py:20-39 | a saved row is active, stamped with the creation time and not deleted |
| Tracking.NewManager | sporpa/utils/models/tracking_mixin.py:9-11 | `all_objects` is consumed from the keywords (false when absent); every other keyword is passed on unchanged |
| Tracking.GetQueryset | sporpa/utils/models/tracking_mixin.py:13-17 | with `all_objects` truthy the whole table; otherwise a subsequence holding exactly the active rows |
| Tracking.DefaultWithinAll | sporpa/utils/models/tracking_mixin.py:13-17 | the default manager's rows are an order-preserving part of the `all_objects` rows, and exactly the active ones |
| Tracking.NewRowVisible | sporpa/utils/models/tracking_mixin.py:21-27 | a newly saved row appears at the end of both managers' results |
| Tracking.DeletedAtIgnored | sporpa/utils/models/tracking_mixin.py:32-39 | an active row with `deleted_at` set is still returned by the default manager |
| Validators.ValidateNowLessThanLowerValue | sporpa/events/validators.py:8-10 | passes iff the lower bound is strictly after now; fails with "Please select a further date." iff it is at or before now; raises a TypeError iff it is infinite |
| Validators.NowIsRejected | sporpa/events/validators.py:9 | a lower bound equal to now is rejected |
| Validators.UpperNeverExamined | sporpa/events/validators.py:9 | the outcome does not depend on the upper bound |
| Validators.PassingIsMonotone | sporpa/events/validators.py:9 | a window that passes now also passes at any earlier time |
| Activities.StatusValue | sporpa/events/models/activity.py:11-14 | a status's value lies in 1..3 |
| Activities.StatusFromValue | sporpa/events/models/activity.py:57-61 | a value is a status choice iff it is in 1..3, and then exactly that status |
| Activities.New | sporpa/events/models/activity.py:36-61 | a new activity has status OPEN (1); `player_limit` is 2, a valid limit, when omitted, and the given one otherwise |
| Activities.ValidatorsLeaveUpperToConstraint | sporpa/events/models/activity.py:53-78 | an activity can pass every field validator and still violate `upper_cannot_be_infinite` |
| Activities.FieldsValidLowerFinite | sporpa/events/models/activity.py:53-78 | once the field validators pass, the lower bound is finite and in the future, and the constraints hold iff the upper bound is finite |
| Activities.Str | sporpa/events/models/activity.py:80-81 | `str(activity)` of a valid activity is a non-empty string of at most 150 characters |
| ActivityLevels.Insert | sporpa/events/models/activity_level.py:23-28 | inserting fails iff the (activity, level) pair exists; otherwise the row is appended, the level joins the activity's set, and uniqueness is kept |
| ActivityLevels.RowsFor | sporpa/events/models/activity_level.py:5-17 | one row per given level, for the given activity, in order |
| ActivityLevels.Kept | sporpa/events/models/activity_level.py:5-17 | the rows `levels.set` keeps: those of other activities and those whose level stays, in their order |
| ActivityLevels.Added | sporpa/events/models/activity_level.py:23-28 | the rows `levels.set` adds: exactly the new levels of the activity, without duplicates |
| ActivityLevels.SetLevelsContents | sporpa/events/models/activity_level.py:5-17 | after the set, the activity's level set is exactly the requested set |
| ActivityLevels.SetLevelsUnique | sporpa/events/models/activity_level.py:23-28 | the set keeps the (activity, level) pairs unique |
| ActivityLevels.SetLevels | sporpa/events/models/activity_level.py:5-28 | `levels.set(S)`: the activity's levels become S, other activities' rows are untouched, uniqueness is kept |
| ActivityLevels.Levels | sporpa/events/models/activity_level.py:12-17 | reading an activity's levels yields exactly its level set |
| ActivityLevels.SetThenRead | sporpa/events/models/activity_level.py:5-28 | setting S and reading back yields S in the levels' default order |
| ActivityLevels.DeleteActivity | sporpa/events/models/activity_level.py:6-11 | deleting an activity removes exactly its level rows |
| ActivityLevels.DeleteLevel | sporpa/events/models/activity_level.py:12-17 | deleting a level removes exactly its rows, so it leaves every activity's set |
| ActivityLevels.Str | sporpa/events/models/activity_level.py:30-31 | `str` is "activity - level", and from a given activity prefix it determines the level |
| ActivityPlayers.Insert | sporpa/events/models/activity_player.py:24-30 | inserting fails iff it is a second organizer row for the activity; any number of plain rows is accepted; the constraint is kept |
| ActivityPlayers.AtMostOneOrganizer | sporpa/events/models/activity_player.py:24-30 | under the constraint an activity has at most one organizer row |
| ActivityPlayers.Organizer | sporpa/events/models/activity_player.py:24-30 | there is an organizer iff an organizer row exists; it is that row's player, and the only one |
| ActivityPlayers.Players | sporpa/events/models/activity.py:29-35 | an activity's players are exactly the players of its roster rows |
| ActivityPlayers.AddPlayer | sporpa/events/models/activity_player.py:16-18 | adding a player makes a plain (non-organizer) row unless the player is already on the roster; the organizer is unchanged |
| ActivityPlayers.DeleteActivity | sporpa/events/models/activity_player.py:6-10 | deleting an activity removes exactly its roster rows, leaving it without players or organizer, and keeps the constraint |
| ActivityPlayers.DeletePlayer | sporpa/events/models/activity_player.py:11-15 | deleting a player removes exactly their roster rows, so they are on no roster and organize nothing, and keeps the constraint |
| ActivityPlayers.SubsequenceKeepsOrganizerRule | sporpa/events/models/activity_player.py:24-30 | removing rows never breaks the single-organizer constraint |
| PlayerSports.Get | sporpa/participants/api/v1/views.py:34-37 | the lookup by (player, sport) finds nothing iff no such row exists, and under uniqueness it finds that row's level |
| PlayerSports.Add | sporpa/participants/models/player_sport.py:29-34 | adding fails iff the player already has that sport; otherwise the lookup gives the new level and uniqueness is kept |
| PlayerSports.Replace | sporpa/participants/api/v1/views.py:34-37 | the level update touches exactly the rows of that (player, sport) |
| PlayerSports.GetReplace | sporpa/participants/api/v1/views.py:34-37 | after replacing, the lookup of the key gives the new level and every other key its old one |
| PlayerSports.UpdateLevel | sporpa/participants/api/v1/views.py:34-37 | fails with not-found iff there is no row; otherwise sets the level, leaves other keys alone and keeps uniqueness |
| PlayerSports.DeletePlayer | sporpa/participants/models/player_sport.py:6-11 | deleting a player removes exactly their rows |
| PlayerSports.Str | sporpa/participants/models/player_sport.py:36-37 | `str` is the user's string, " - ", the sport's label, " - " and the level's label, each at its position |
| ParticipationRequests.Create | sporpa/participants/models/participation_request.py:32-54 | fails iff the message is over 250 characters or a request for the pair exists (with "You already sent a participation request."); otherwise appends the row stamped with now and keeps uniqueness |
| ParticipationRequests.SecondRequestRefused | sporpa/participants/models/participation_request.py:48-54 | a second request for the same activity and participant is refused |
| ParticipationRequests.FilterParticipant | sporpa/participants/models/participation_request.py:9-10 | exactly the requests of the participant, in order |
| ParticipationRequests.FilterOrganizer | sporpa/participants/models/participation_request.py:12-16 | exactly the requests on activities whose organizer row is the given player's (the flag tied to that player's own row) |
| ParticipationRequests.FilterOrganizerIsOrganizedActivities | sporpa/participants/models/participation_request.py:12-16 | under the single-organizer rule, a request is listed iff the player is its activity's organizer |
| ParticipationRequests.OrganizerViewsDisjoint | sporpa/participants/models/participation_request.py:12-16 | no request is shown to two different organizers |
| ParticipationRequests.DeleteActivity | sporpa/participants/models/participation_request.py:20-25 | deleting an activity removes exactly its requests |
| ParticipationRequests.DeleteParticipant | sporpa/participants/models/participation_request.py:26-31 | deleting a player removes exactly their requests, leaving nothing for them to list |
| ParticipationRequests.Str | sporpa/participants/models/participation_request.py:56-57 | `str` is "<participant>'s participation request", and the participant part is determined by it |
| ParticipationRequests.StrInjective | sporpa/participants/models/participation_request.py:56-57 | different participants give different strings |
| Database.Seeded | sporpa/participants/migrations/0001_initial.py:8-17 | the seeded database satisfies every constraint and holds all sports and levels |
| Database.AddPlayer | sporpa/participants/models/player.py:6-14 | a new player joins the players; a known one is refused (the user is the primary key) |
| Database.DeletePlayer | sporpa/participants/models/player_sport.py:6-11 | deleting a player cascades to their sport rows, roster rows and requests, and keeps every constraint |
| Database.AddPlayerSport | sporpa/participants/models/player_sport.py:6-34 | fails iff a foreign key is missing or the player already has the sport; otherwise the lookup gives the level and the constraints hold |
| Database.UpdatePlayerSportLevel | sporpa/participants/api/v1/views.py:34-37 | fails iff the level is missing or the player has no row for the sport; otherwise the lookup gives the new level |
| Database.FailedCheck | sporpa/events/models/activity.py:67-78 | a constraint is reported iff the check constraints fail, the lower one first |
| Database.InsertActivity | sporpa/events/models/activity.py:10-78 | fails without an organizer, on a range whose bounds are out of order, on a name wider than its `varchar(150)` column, on a check constraint or on a missing foreign key; otherwise a fresh id, the row appended, the organizer as sole roster member and organizer, no levels yet |
| Database.SetActivityLevels | sporpa/events/models/activity.py:22-28 | fails iff the activity or a level is missing; otherwise the activity's levels are exactly the set, read back in level order, and nothing else changes |
| Database.SetLevelsReferences | sporpa/events/models/activity_level.py:6-17 | the rows after a level set still reference existing activities and levels |
| Database.AddActivityPlayer | sporpa/events/models/activity_player.py:5-18 | fails iff the activity or the player is missing; otherwise the player is on the roster and the organizer is unchanged |
| Database.DeleteActivity | sporpa/events/models/activity_level.py:6-11 | deleting an activity removes its id, its levels, roster rows and requests, and keeps every constraint |
| Database.DeleteLevel | sporpa/participants/models/player_sport.py:18-23 | refused while a player's sport row uses the level; otherwise the level leaves the catalogue and every activity's set |
| Database.DeleteSport | sporpa/events/models/activity.py:16-21 | refused while a player's sport row or an activity uses the sport |
| Database.CreateParticipationRequest | sporpa/participants/models/participation_request.py:19-54 | fails iff a foreign key is missing, the message is too long or the pair already has a request; otherwise appends the request |
| Database.VisibleActivities | sporpa/utils/models/tracking_mixin.py:13-17 | `Activity.objects` lists exactly the active activities |
| Database.FindActivity | sporpa/events/models/activity.py:10 | the lookup by primary key finds nothing iff no row has the id, and otherwise that row |
| Database.ReplaceActivity | sporpa/events/api/v1/serializers.py:66-88 | saving an instance rewrites exactly the row with its id |
| Database.UpdateActivity | sporpa/events/models/activity.py:67-78 | fails iff the id is missing, the range's bounds are out of order, the name is wider than its column, a check constraint fails or the sport is missing; otherwise that row is the new one, the other rows and tables are unchanged |
| Database.ReplaceActivityKeys | sporpa/events/models/activity.py:10 | a rewrite keeps the set of ids and their uniqueness |
| Database.ReplaceActivityFind | sporpa/events/models/activity.py:10 | after a rewrite the lookup gives the new row for its id and the old rows for the others |
| Database.ReplaceActivityValid | sporpa/events/models/activity.py:67-78 | a rewrite with a valid row keeps every constraint |
| ActivitySerializers.ResolveLevels | sporpa/events/api/v1/serializers.py:39-43 | the levels resolve iff every key names an existing level, and then in order to those levels |
| ActivitySerializers.ResolveSport | sporpa/events/api/v1/serializers.py:26-38 | the sport resolves iff its key names an existing sport |
| ActivitySerializers.TrimCharFields | sporpa/events/api/v1/serializers.py:26-38 | only `name` and `about` are stripped of surrounding whitespace; a `name` that was not sent stays absent |
| ActivitySerializers.CreateFieldErrors | sporpa/events/api/v1/serializers.py:21-45 | the failing fields are exactly those whose validation fails: a required field (`sport`, `levels`, `name`, window) that was not sent; a key that does not resolve; a name or about that is too long, blank where not allowed or holds a NUL character; a window with out-of-order bounds or a lower bound not in the future (an empty `levels` list passes); `status` never fails |
| ActivitySerializers.ValidatedData | sporpa/events/api/v1/serializers.py:17-45 | the validated data carries the current player as organizer and the resolved, validated fields (name and about without NUL characters), one level per requested level |
| ActivitySerializers.CheckFields | sporpa/events/api/v1/serializers.py:17-45 | server error iff a sent window's lower bound is infinite; otherwise succeeds iff no field fails, yielding the validated data with a sent window whose lower bound is in the future and whose bounds are in order |
| ActivitySerializers.ValidateOrganizer | sporpa/events/api/v1/serializers.py:47-63 | passes iff the organizer has a row for the sport whose level is requested, returning the data unchanged; with no row the error names the sport, and with a row the level error |
| ActivitySerializers.MessagesDiffer | sporpa/events/api/v1/serializers.py:54-62 | the missing-sport message is never the level message |
| ActivitySerializers.IsValidCreate | sporpa/events/api/v1/serializers.py:47-63 | field errors are reported before `validate` runs; succeeds iff the fields pass and the organizer has the sport at one of the requested levels, and otherwise `validate` reports a non-field error; a success is the validated data |
| ActivitySerializers.OrganizerAndStatusIgnored | sporpa/events/api/v1/serializers.py:17-20 | a client-supplied organizer or status changes nothing |
| ActivitySerializers.CreateRejectsPastWindow | sporpa/events/api/v1/serializers.py:21-24 | a lower bound at or before now fails creation with an error on `available_between_at` |
| ActivitySerializers.CreateRequiresFields | sporpa/events/api/v1/serializers.py:26-45 | a body without `sport`, `levels`, `name` or `available_between_at` is refused, with an error on each field left out |
| ActivitySerializers.CreateRejectsNullCharacter | sporpa/events/api/v1/serializers.py:26-38 | a name or about holding a NUL character is refused on that field, whatever whitespace surrounds it |
| ActivitySerializers.SaveCreate | sporpa/events/models/activity.py:10-78 | fails iff a bound is infinite, the bounds are out of order or the name is wider than its column; otherwise the activity is stored, its organizer is the sole roster member and its levels are the requested set |
| ActivitySerializers.CreatedActivity | sporpa/events/api/v1/serializers.py:16-63 | a successful create stores status OPEN, `player_limit` 2 when omitted, the sport, the stripped name and about, the window, exactly the requested levels and the current player as organizer |
| ActivitySerializers.TrimUpdate | sporpa/events/api/v1/serializers.py:66-88 | only a given `name` or `about` is stripped |
| ActivitySerializers.UpdateFieldErrors | sporpa/events/api/v1/serializers.py:66-92 | the failing fields are exactly those whose validation fails (a given name or about that is too long or holds a NUL character; a given window with out-of-order bounds or a lower bound not in the future; a required field missing from a full update); `sport` and `levels` never fail |
| ActivitySerializers.Applied | sporpa/events/api/v1/serializers.py:66-88 | the given writable fields replace the instance's; id and sport are kept |
| ActivitySerializers.CheckUpdateFields | sporpa/events/api/v1/serializers.py:66-92 | server error iff a given lower bound is infinite; succeeds iff neither that nor any field error; a success applies the payload with a future, ordered window, a valid name and about without NUL characters, the given status, the required fields when not partial, and a limit `check_player_limit` accepts |
| ActivitySerializers.Update | sporpa/events/api/v1/serializers.py:66-92 | not found for an unknown id; succeeds iff the id exists, the fields pass and the resulting window has an upper bound; a success stores the applied instance, leaves every other activity, levels, roster, sport rows and requests alone, and keeps the database valid |
| ActivitySerializers.CheckIgnoresReadOnly | sporpa/events/api/v1/serializers.py:84-88 | sport, levels and players in the payload do not affect validation |
| ActivitySerializers.ReadOnlyFieldsIgnored | sporpa/events/api/v1/serializers.py:84-88 | sport, levels and players in the payload do not affect the update |
| ActivitySerializers.UpdateRejectsPastWindow | sporpa/events/api/v1/serializers.py:67-69 | a lower bound at or before now fails the update with an error on `available_between_at` |
| Users.LowerDomain | sporpa/accounts/models/user.py:29 | the part before the last '@' is kept and the part after it lowercased |
| Users.NormalizeEmail | sporpa/accounts/models/user.py:29 | an email whose stripped form has an '@' becomes that form with its domain lowercased; otherwise it is returned as given |
| Users.LowerDomainStripped | sporpa/accounts/models/user.py:29 | lowercasing the domain keeps a stripped email stripped |
| Users.LowerDomainIdempotent | sporpa/accounts/models/user.py:29 | the '@' survives and lowercasing the domain twice is lowercasing once |
| Users.NormalizeEmailIdempotent | sporpa/accounts/models/user.py:29 | normalising twice is normalising once |
| Users.NormalizeStripped | sporpa/accounts/models/user.py:29 | a stripped email with an '@' is normalised by lowercasing its domain |
| Users.LowerDomainSplit | sporpa/accounts/models/user.py:29 | with a single '@', the domain after it is lowercased and the local part kept |
| Users.NormalizeEmailLowersDomain | sporpa/accounts/models/user.py:29 | `normalize_email` on a stripped email with one '@' lowercases the domain and keeps the local part |
| Users.FullName | sporpa/accounts/models/user.py:135-140 | the full name is the first name, a space and the last name with only surrounding whitespace removed: a slice of the joined string, whitespace on both sides of it, and no whitespace at either end |
| Users.FullNameOfStrippedNames | sporpa/accounts/models/user.py:135-140 | two non-empty stripped names give "first last" |
| Users.FullNameWithoutFirstName | sporpa/accounts/models/user.py:135-140 | an empty first name gives the last name, without a leading space |
| Users.UserDirectoryPath | sporpa/accounts/models/user.py:59-61 | the path is "avatars/user/", the email, '/', the filename |
| Users.UserDirectoryPathInjective | sporpa/accounts/models/user.py:59-61 | emails without '/' never share an upload path |
| Users.SetDefault | sporpa/accounts/models/user.py:42-51 | `setdefault` leaves a present key alone and otherwise adds the default, keeping the other keys and adding no other |
| Users.User.constructor | sporpa/accounts/models/user.py:91-102 | `is_staff`, `has_verified_email` and `is_active` are taken from the keywords when given; otherwise the user is not staff, has not verified its email and is active (the tracking mixin's default) |
| Users.User.VerifyEmail | sporpa/accounts/models/user.py:164-166 | sets the verified flag and changes nothing else |
| Users.User.Clean | sporpa/accounts/models/user.py:131-133 | replaces the email by the normal form of its NFKC normalisation and changes nothing else |
| Users.UserManager.constructor | sporpa/accounts/models/user.py:15-16 | the empty user table with no tokens |
| Users.UserManager.CreateUserWith | sporpa/accounts/models/user.py:18-34 | refuses an empty email, then a keyword that is not a field of the model; succeeds iff the normalised email is new, appending a fresh user with that email, the given flags and its single token; emails stay unique |
| Users.UserManager.CreateUser | sporpa/accounts/models/user.py:36-43 | `is_superuser` is false unless given; the same errors, in the same order, as `_create_user`, and a failure leaves users and tokens unchanged; a success appends a fresh user with the normalised email, the given flags (active unless told otherwise) and its token |
| Users.UserManager.CreateSuperuser | sporpa/accounts/models/user.py:45-56 | `is_superuser` defaults to true and anything but `True` itself is refused first; then the errors of `_create_user`; a failure leaves users and tokens unchanged; a success appends a fresh superuser with the normalised email, the given flags and its token |
| Exceptions.Translate | sporpa/utils/exceptions.py:20-23 | the Django 404 and permission errors become REST framework exceptions; the others pass unchanged |
| Exceptions.Headers | sporpa/utils/exceptions.py:26-30 | WWW-Authenticate is present iff `auth_header` is truthy, with its value; Retry-After is present iff `wait` is truthy, and it parses back to `wait`; no other header |
| Exceptions.Body | sporpa/utils/exceptions.py:32-35 | the body is always a list or dict: the detail itself if it is one, else `{"detail": detail}` |
| Exceptions.Classify | sporpa/utils/exceptions.py:10-48 | no response iff the exception is unhandled; an API exception gives its status and headers, a validation error the code if truthy else 400; the data is always a list or dict |
| Exceptions.Http404IsNotFound | sporpa/utils/exceptions.py:20-21 | Http404 gives a 404 with `{"detail": "Not found."}` and no headers |
| Exceptions.PermissionDeniedIs403 | sporpa/utils/exceptions.py:22-23 | Django's PermissionDenied gives a 403 without headers |
| Exceptions.ValidationStatusDefault | sporpa/utils/exceptions.py:47 | a falsy code falls back to status 400 |
| Exceptions.Connection.constructor | sporpa/utils/exceptions.py:37 | a connection starts without a pending rollback |
| Exceptions.Connection.SetRollback | sporpa/utils/exceptions.py:37 | marks the transaction for rollback when the request runs in one |
| Exceptions.ExceptionHandler | sporpa/utils/exceptions.py:10-48 | returns the classification; the rollback is requested exactly when a response is returned |

## Left out

- Password hashing (sporpa/accounts/models/user.py:31) is a foreign library call. So are the email and token helpers `send_verification_email`, `email_user`, `generate_email_verification_address`, `make_token` and `check_token` (sporpa/accounts/models/user.py:142-162). `password` is accepted and ignored.
- ParticipationRequests.Create: a duplicate request is reported as `DuplicateRequest` with the constraint's message, which is what `full_clean()` reports; a plain `save()` or `create()` gets the database's `IntegrityError` without that message.
- Users.User.constructor: a boolean keyword is read by Python truthiness; the model does not reproduce `BooleanField`'s conversion of strings such as `"f"` or its error on other values.
- Users.UserManager.CreateUserWith: the model keeps the email unique by refusing a taken normal form (`EmailTaken`). In the source that refusal is the database's unique constraint raising an `IntegrityError`.
- Users.User.Clean: the NFKC normalisation that `AbstractBaseUser.clean` applies before `normalize_email` is a parameter (`nfkc`), because the Unicode tables are not part of this model; nothing is proved about it.
- Lowercasing in `normalize_email` is modelled for ASCII letters only. Python's `str.lower` on other letters is not modelled. `strip()` uses the whitespace characters of `str.isspace()`, as `Strings.IsSpace` lists them.
- Column widths other than `Activity.name` (which the database refuses with `ValueTooLong`) and positive-integer checks are not modelled: `first_name`, `last_name`, `about` and `gender` on `User`, and the PositiveSmallIntegerField bounds.
- Activities.Str: states only the length bounds of the name. The string is the name itself.
- Database concurrency, transactions and isolation are not modelled. Constraints are sequential invariants of `Database.Db`. `Exceptions.Connection` keeps only the rollback flag.
- Django's `ValidationError` built from a list or dict has no `message` attribute. In that case sporpa/utils/exceptions.py:41 would raise `AttributeError`. The model takes `message` and `code` as the handler reads them, so this case is not represented.
- `Activity.check_player_limit` and the custom Activity manager's `create` are not part of this model. The former is an uninterpreted parameter; the latter's observed behaviour is `Database.InsertActivity`.
- `participants/api/v1/fields.py` (`CurrentPlayerDefault`) is not part of this model. The current player is a parameter.
- Chat, middleware, filtersets, views, URL configuration and the list/output serializers are framework glue or asynchronous I/O.
- Clocks are integers. Time zones and the `DateTimeTZRange` bound inclusivity flags are not modelled. A bound is either finite (`At`) or infinite (`Unbounded`).
