/** The roster (events/models/activity_player.py): one row per player on an
    activity, one of them flagged as the organizer. The source declares the
    row's player column as a reference to a PlayerSport while
    `Activity.players` names a `player` column; the model keeps a plain
    player reference. */
module ActivityPlayers {
  import opened Wrappers
  import Tables

  datatype RosterRow = RosterRow(activity: nat, player: nat, isOrganizer: bool)

  /** A roster row as the model builds it: `is_organizer` defaults to false. */
  function NewRow(activity: nat, player: nat, isOrganizer: bool := false): (r: RosterRow)
    ensures r.activity == activity && r.player == player && r.isOrganizer == isOrganizer
  {
    RosterRow(activity, player, isOrganizer)
  }

  /** The conditional unique constraint `only_one_organizer`: among the rows
      with `is_organizer = true`, no two share an activity. Rows with the flag
      false are not constrained. */
  predicate OnlyOneOrganizer(rows: seq<RosterRow>) {
    forall i, j ::
      (0 <= i < |rows| && 0 <= j < |rows| && i != j && rows[i].isOrganizer && rows[j].isOrganizer)
      ==> rows[i].activity != rows[j].activity
  }

  predicate HasOrganizer(rows: seq<RosterRow>, activity: nat) {
    exists row :: row in rows && row.activity == activity && row.isOrganizer
  }

  /** The unique index violation the database reports. */
  datatype IntegrityError = OnlyOneOrganizerViolated

  /** `INSERT` into `activity_player`: refused exactly when it would add a
      second organizer row to the activity. */
  function Insert(rows: seq<RosterRow>, row: RosterRow): (r: Result<seq<RosterRow>, IntegrityError>)
    ensures r.Err? <==> row.isOrganizer && HasOrganizer(rows, row.activity)
    ensures r.Ok? ==> r.value == rows + [row]
    ensures OnlyOneOrganizer(rows) && r.Ok? ==> OnlyOneOrganizer(r.value)
  {
    if row.isOrganizer && HasOrganizer(rows, row.activity) then Err(OnlyOneOrganizerViolated)
    else
      var rows' := rows + [row];
      assert forall i :: 0 <= i < |rows| ==> rows'[i] == rows[i];
      Ok(rows')
  }

  /** The organizer rows of one activity, in table order. */
  function OrganizerRows(rows: seq<RosterRow>, activity: nat): seq<RosterRow> {
    Tables.Filter(rows, (row: RosterRow) => row.activity == activity && row.isOrganizer)
  }

  /** Under the constraint an activity has at most one organizer row. */
  lemma {:induction false} AtMostOneOrganizer(rows: seq<RosterRow>, activity: nat)
    requires OnlyOneOrganizer(rows)
    ensures |OrganizerRows(rows, activity)| <= 1
  {
    if rows != [] {
      var tail := rows[1..];
      assert OnlyOneOrganizer(tail) by {
        forall i, j | 0 <= i < |tail| && 0 <= j < |tail| && i != j
          && tail[i].isOrganizer && tail[j].isOrganizer
          ensures tail[i].activity != tail[j].activity
        {
          assert tail[i] == rows[i + 1] && tail[j] == rows[j + 1];
        }
      }
      if rows[0].activity == activity && rows[0].isOrganizer {
        forall x | x in tail ensures !(x.activity == activity && x.isOrganizer) {
          var k :| 0 <= k < |tail| && tail[k] == x;
          assert rows[k + 1] == x;
        }
        Tables.FilterNone(tail, (row: RosterRow) => row.activity == activity && row.isOrganizer);
      } else {
        AtMostOneOrganizer(tail, activity);
      }
    }
  }

  /** `activity.organizer`: the player holding the activity's organizer row. */
  function Organizer(rows: seq<RosterRow>, activity: nat): (r: Option<nat>)
    ensures r.Some? <==> HasOrganizer(rows, activity)
    ensures r.Some? ==> RosterRow(activity, r.value, true) in rows
    ensures OnlyOneOrganizer(rows) ==>
      forall row :: row in rows && row.activity == activity && row.isOrganizer ==> r == Some(row.player)
  {
    var found := OrganizerRows(rows, activity);
    if found == [] then
      None
    else
      assert found[0] in found;
      assert OnlyOneOrganizer(rows) ==>
        forall row :: row in rows && row.activity == activity && row.isOrganizer ==> row == found[0]
      by {
        if OnlyOneOrganizer(rows) {
          AtMostOneOrganizer(rows, activity);
          forall row | row in rows && row.activity == activity && row.isOrganizer
            ensures row == found[0]
          {
            assert row in found;
          }
        }
      }
      Some(found[0].player)
  }

  /** The players on an activity's roster (`activity.players`), organizer
      included, in roster order. */
  function Players(rows: seq<RosterRow>, activity: nat): (r: seq<nat>)
    ensures forall p :: p in r <==> exists row :: row in rows && row.activity == activity && row.player == p
  {
    if rows == [] then []
    else if rows[0].activity == activity then [rows[0].player] + Players(rows[1..], activity)
    else
      assert forall row :: row in rows && row != rows[0] ==> row in rows[1..];
      Players(rows[1..], activity)
  }

  /** `activity.players.add(player)`: a player already on the roster is left
      as is; otherwise a row with the default `is_organizer = false` is
      appended. It never violates the organizer constraint, so any number of
      participants can be added. */
  function AddPlayer(rows: seq<RosterRow>, activity: nat, player: nat): (r: seq<RosterRow>)
    ensures player in Players(r, activity)
    ensures player in Players(rows, activity) ==> r == rows
    ensures player !in Players(rows, activity) ==> r == rows + [NewRow(activity, player)]
    ensures OnlyOneOrganizer(rows) ==> OnlyOneOrganizer(r)
    ensures Organizer(r, activity) == Organizer(rows, activity)
  {
    if player in Players(rows, activity) then rows
    else
      var r := rows + [NewRow(activity, player)];
      assert forall i :: 0 <= i < |rows| ==> r[i] == rows[i];
      assert r[|rows|] == NewRow(activity, player);
      Tables.FilterAppend(rows, NewRow(activity, player),
        (row: RosterRow) => row.activity == activity && row.isOrganizer);
      r
  }

  /** ON DELETE CASCADE from the activity: its rows go, every other row stays. */
  function DeleteActivity(rows: seq<RosterRow>, activity: nat): (r: seq<RosterRow>)
    ensures forall row :: row in r <==> row in rows && row.activity != activity
    ensures Players(r, activity) == [] && Organizer(r, activity) == None
    ensures OnlyOneOrganizer(rows) ==> OnlyOneOrganizer(r)
  {
    var r := Tables.Filter(rows, (row: RosterRow) => row.activity != activity);
    SubsequenceKeepsOrganizerRule(r, rows);
    var players := Players(r, activity);
    assert players != [] ==> players[0] in players;
    r
  }

  /** Deleting a player removes the player's rows, every other row stays. */
  function DeletePlayer(rows: seq<RosterRow>, player: nat): (r: seq<RosterRow>)
    ensures forall row :: row in r <==> row in rows && row.player != player
    ensures forall a: nat :: player !in Players(r, a) && Organizer(r, a) != Some(player)
    ensures OnlyOneOrganizer(rows) ==> OnlyOneOrganizer(r)
  {
    var r := Tables.Filter(rows, (row: RosterRow) => row.player != player);
    SubsequenceKeepsOrganizerRule(r, rows);
    r
  }

  /** Removing rows never breaks the organizer constraint. */
  lemma {:induction false} SubsequenceKeepsOrganizerRule(sub: seq<RosterRow>, rows: seq<RosterRow>)
    requires Tables.IsSubsequence(sub, rows)
    ensures OnlyOneOrganizer(rows) ==> OnlyOneOrganizer(sub)
    decreases |rows|
  {
    if sub != [] && rows != [] && OnlyOneOrganizer(rows) {
      var tail := rows[1..];
      assert OnlyOneOrganizer(tail) by {
        forall i, j | 0 <= i < |tail| && 0 <= j < |tail| && i != j
          && tail[i].isOrganizer && tail[j].isOrganizer
          ensures tail[i].activity != tail[j].activity
        {
          assert tail[i] == rows[i + 1] && tail[j] == rows[j + 1];
        }
      }
      if sub[0] == rows[0] {
        SubsequenceKeepsOrganizerRule(sub[1..], tail);
        Tables.SubsequenceMembers(sub[1..], tail);
        forall i, j | 0 <= i < |sub| && 0 <= j < |sub| && i != j
          && sub[i].isOrganizer && sub[j].isOrganizer
          ensures sub[i].activity != sub[j].activity
        {
          if i > 0 && j > 0 {
            assert sub[i] == sub[1..][i - 1] && sub[j] == sub[1..][j - 1];
          } else {
            var k := if i == 0 then j else i;
            assert sub[k] == sub[1..][k - 1];
            assert sub[k] in sub[1..];
            var m :| 0 <= m < |tail| && tail[m] == sub[k];
            assert rows[m + 1] == sub[k];
          }
        }
      } else {
        SubsequenceKeepsOrganizerRule(sub, tail);
      }
    }
  }
}
