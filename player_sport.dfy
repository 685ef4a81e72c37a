/** A player's sport profile (participants/models/player_sport.py): one row
    per (player, sport) giving the player's level in that sport. */
module PlayerSports {
  import opened Wrappers
  import Tables
  import Sports
  import SportLevels

  datatype PlayerSport = PlayerSport(player: nat, sport: Sports.Sport, level: SportLevels.Level)

  /** The unique constraint `player_sport_unique` on (player, sport). */
  predicate UniquePlayerSport(rows: seq<PlayerSport>) {
    Tables.UniqueBy(rows, (row: PlayerSport) => (row.player, row.sport))
  }

  /** `player.sports.get(sport=sport)`: the player's level for the sport, or
      `None` for `DoesNotExist`. Under the unique constraint the row found is
      the only one. */
  function Get(rows: seq<PlayerSport>, player: nat, sport: Sports.Sport): (r: Option<SportLevels.Level>)
    ensures r.None? <==> forall level :: PlayerSport(player, sport, level) !in rows
    ensures r.Some? ==> PlayerSport(player, sport, r.value) in rows
    ensures UniquePlayerSport(rows) ==>
      forall level :: PlayerSport(player, sport, level) in rows ==> r == Some(level)
  {
    if rows == [] then None
    else if rows[0].player == player && rows[0].sport == sport then
      assert UniquePlayerSport(rows) ==>
        forall level :: PlayerSport(player, sport, level) in rows ==> level == rows[0].level
      by {
        if UniquePlayerSport(rows) {
          forall level | PlayerSport(player, sport, level) in rows ensures level == rows[0].level {
            var k :| 0 <= k < |rows| && rows[k] == PlayerSport(player, sport, level);
          }
        }
      }
      Some(rows[0].level)
    else
      var r := Get(rows[1..], player, sport);
      assert UniquePlayerSport(rows) ==> UniquePlayerSport(rows[1..]) by {
        if UniquePlayerSport(rows) {
          forall i, j | 0 <= i < j < |rows[1..]|
            ensures (rows[1..][i].player, rows[1..][i].sport) != (rows[1..][j].player, rows[1..][j].sport)
          {
            assert rows[1..][i] == rows[i + 1] && rows[1..][j] == rows[j + 1];
          }
        }
      }
      assert forall level :: PlayerSport(player, sport, level) in rows ==> PlayerSport(player, sport, level) in rows[1..];
      r
  }

  datatype Error =
    | DuplicateSport    // the unique constraint rejects a second row for the pair
    | NotFound          // `get_object_or_404` found no row

  /** `INSERT` into `player_sport`: refused exactly when the player already
      has a row for the sport. */
  function Add(rows: seq<PlayerSport>, player: nat, sport: Sports.Sport, level: SportLevels.Level)
    : (r: Result<seq<PlayerSport>, Error>)
    ensures r.Err? <==> Get(rows, player, sport).Some?
    ensures r.Err? ==> r.error == DuplicateSport
    ensures r.Ok? ==> r.value == rows + [PlayerSport(player, sport, level)]
    ensures r.Ok? ==> Get(r.value, player, sport) == Some(level)
    ensures UniquePlayerSport(rows) && r.Ok? ==> UniquePlayerSport(r.value)
  {
    if Get(rows, player, sport).Some? then Err(DuplicateSport)
    else
      var row := PlayerSport(player, sport, level);
      assert UniquePlayerSport(rows) ==> UniquePlayerSport(rows + [row]) by {
        if UniquePlayerSport(rows) {
          Tables.ConcatUniqueBy(rows, [row], (x: PlayerSport) => (x.player, x.sport));
        }
      }
      assert row in rows + [row];
      Ok(rows + [row])
  }

  /** The table with the (player, sport) row's level replaced. */
  function Replace(rows: seq<PlayerSport>, player: nat, sport: Sports.Sport, level: SportLevels.Level)
    : (r: seq<PlayerSport>)
    ensures |r| == |rows|
    ensures forall i :: 0 <= i < |rows| ==>
      r[i] == if rows[i].player == player && rows[i].sport == sport
              then PlayerSport(player, sport, level) else rows[i]
  {
    if rows == [] then []
    else
      [if rows[0].player == player && rows[0].sport == sport then PlayerSport(player, sport, level) else rows[0]]
      + Replace(rows[1..], player, sport, level)
  }

  /** Replacing one pair's level leaves every other pair's lookup as it was. */
  lemma {:induction false} GetReplace(rows: seq<PlayerSport>, player: nat, sport: Sports.Sport,
                                      level: SportLevels.Level, p: nat, s: Sports.Sport)
    ensures Get(Replace(rows, player, sport, level), p, s)
         == if p == player && s == sport && Get(rows, p, s).Some? then Some(level) else Get(rows, p, s)
  {
    if rows != [] {
      var r := Replace(rows, player, sport, level);
      assert r[1..] == Replace(rows[1..], player, sport, level);
      GetReplace(rows[1..], player, sport, level, p, s);
    }
  }

  /** The level update behind `PATCH /player-sports/<sport>`: the row is
      looked up by (current player, sport) and a missing row is a not-found
      error; otherwise only that row's level changes. */
  function UpdateLevel(rows: seq<PlayerSport>, player: nat, sport: Sports.Sport, level: SportLevels.Level)
    : (r: Result<seq<PlayerSport>, Error>)
    ensures r.Err? <==> Get(rows, player, sport).None?
    ensures r.Err? ==> r.error == NotFound
    ensures r.Ok? ==> Get(r.value, player, sport) == Some(level)
    ensures r.Ok? ==> forall p: nat, s :: (p, s) != (player, sport) ==> Get(r.value, p, s) == Get(rows, p, s)
    ensures r.Ok? ==> |r.value| == |rows|
    ensures UniquePlayerSport(rows) && r.Ok? ==> UniquePlayerSport(r.value)
  {
    if Get(rows, player, sport).None? then Err(NotFound)
    else
      var r := Replace(rows, player, sport, level);
      GetReplace(rows, player, sport, level, player, sport);
      assert forall p: nat, s :: (p, s) != (player, sport) ==> Get(r, p, s) == Get(rows, p, s) by {
        forall p: nat, s | (p, s) != (player, sport) ensures Get(r, p, s) == Get(rows, p, s) {
          GetReplace(rows, player, sport, level, p, s);
        }
      }
      Ok(r)
  }

  /** ON DELETE CASCADE from the player. */
  function DeletePlayer(rows: seq<PlayerSport>, player: nat): (r: seq<PlayerSport>)
    ensures forall row :: row in r <==> row in rows && row.player != player
    ensures forall s :: Get(r, player, s).None?
    ensures UniquePlayerSport(rows) ==> UniquePlayerSport(r)
  {
    var r := Tables.Filter(rows, (row: PlayerSport) => row.player != player);
    assert UniquePlayerSport(rows) ==> UniquePlayerSport(r) by {
      if UniquePlayerSport(rows) {
        Tables.SubsequenceUniqueBy(r, rows, (x: PlayerSport) => (x.player, x.sport));
      }
    }
    r
  }

  /** Whether some row refers to the sport (its ON DELETE PROTECT blocks the
      sport's deletion). */
  predicate ReferencesSport(rows: seq<PlayerSport>, sport: Sports.Sport) {
    exists row :: row in rows && row.sport == sport
  }

  /** Whether some row refers to the level (ON DELETE PROTECT). */
  predicate ReferencesLevel(rows: seq<PlayerSport>, level: SportLevels.Level) {
    exists row :: row in rows && row.level == level
  }

  /** `str(player_sport)`: "<user> - <sport> - <level>". */
  function Str(userStr: string, sport: Sports.Sport, level: SportLevels.Level): (r: string)
    ensures |r| == |userStr| + 6 + |Sports.Str(sport)| + |SportLevels.Str(level)|
    ensures r[..|userStr|] == userStr
    ensures var u := |userStr|; var sp := |Sports.Str(sport)|;
      && r[u..u + 3] == " - "
      && r[u + 3..u + 3 + sp] == Sports.Str(sport)
      && r[u + 3 + sp..u + 6 + sp] == " - "
    ensures r[|r| - |SportLevels.Str(level)|..] == SportLevels.Str(level)
  {
    userStr + " - " + Sports.Str(sport) + " - " + SportLevels.Str(level)
  }
}
