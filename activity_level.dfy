/** The level set of an activity (events/models/activity_level.py): the join
    table between activities and skill levels, unique per pair and emptied by
    cascade when either side is deleted. */
module ActivityLevels {
  import opened Wrappers
  import Tables
  import SportLevels

  datatype LevelRow = LevelRow(activity: nat, level: SportLevels.Level)

  /** The unique constraint `activity_level_unique`. */
  predicate UniquePairs(rows: seq<LevelRow>) {
    Tables.UniqueBy(rows, (row: LevelRow) => row)
  }

  /** The levels an activity accepts. */
  function LevelsOf(rows: seq<LevelRow>, activity: nat): set<SportLevels.Level> {
    set row | row in rows && row.activity == activity :: row.level
  }

  datatype IntegrityError = ActivityLevelUniqueViolated

  /** `INSERT` into `activity_level`: refused exactly when the pair is present. */
  function Insert(rows: seq<LevelRow>, row: LevelRow): (r: Result<seq<LevelRow>, IntegrityError>)
    ensures r.Err? <==> row in rows
    ensures r.Ok? ==> r.value == rows + [row] && LevelsOf(r.value, row.activity) == LevelsOf(rows, row.activity) + {row.level}
    ensures UniquePairs(rows) && r.Ok? ==> UniquePairs(r.value)
  {
    if row in rows then Err(ActivityLevelUniqueViolated)
    else
      assert UniquePairs(rows) ==> UniquePairs(rows + [row]) by {
        if UniquePairs(rows) {
          Tables.ConcatUniqueBy(rows, [row], (x: LevelRow) => x);
        }
      }
      Ok(rows + [row])
  }

  /** One row per level, in the given order. */
  function RowsFor(activity: nat, levels: seq<SportLevels.Level>): (r: seq<LevelRow>)
    ensures |r| == |levels|
    ensures forall i :: 0 <= i < |levels| ==> r[i] == LevelRow(activity, levels[i])
  {
    if levels == [] then [] else [LevelRow(activity, levels[0])] + RowsFor(activity, levels[1..])
  }

  /** The rows `set` keeps: other activities' rows and this activity's rows
      whose level is still wanted. */
  function Kept(rows: seq<LevelRow>, activity: nat, levels: set<SportLevels.Level>): (r: seq<LevelRow>)
    ensures forall row :: row in r <==> row in rows && (row.activity != activity || row.level in levels)
    ensures Tables.IsSubsequence(r, rows)
  {
    Tables.Filter(rows, (row: LevelRow) => row.activity != activity || row.level in levels)
  }

  /** The rows `set` adds: one per wanted level the activity lacks, in
      ascending level order. */
  function Added(rows: seq<LevelRow>, activity: nat, levels: set<SportLevels.Level>): (r: seq<LevelRow>)
    ensures forall row :: row in r <==>
      row.activity == activity && row.level in levels && row.level !in LevelsOf(rows, activity)
    ensures UniquePairs(r)
  {
    var missing := SportLevels.Ordered(levels - LevelsOf(rows, activity));
    var added := RowsFor(activity, missing);
    assert forall row :: row in added ==> row.activity == activity && row.level in missing by {
      forall row | row in added ensures row.activity == activity && row.level in missing {
        var i :| 0 <= i < |added| && added[i] == row;
      }
    }
    assert forall row: LevelRow :: row.activity == activity && row.level in missing ==> row in added by {
      forall row: LevelRow | row.activity == activity && row.level in missing ensures row in added {
        var i :| 0 <= i < |missing| && missing[i] == row.level;
        assert added[i] == row;
      }
    }
    assert UniquePairs(added) by {
      forall i, j | 0 <= i < j < |added| ensures added[i] != added[j] {
        assert Tables.StrictlyAscending(missing, SportLevels.Value);
      }
    }
    added
  }

  lemma SetLevelsContents(rows: seq<LevelRow>, activity: nat, levels: set<SportLevels.Level>)
    ensures LevelsOf(Kept(rows, activity, levels) + Added(rows, activity, levels), activity) == levels
  {
    var r := Kept(rows, activity, levels) + Added(rows, activity, levels);
    forall l | l in levels ensures l in LevelsOf(r, activity) {
      if l in LevelsOf(rows, activity) {
        var row :| row in rows && row.activity == activity && row.level == l;
        assert row in r;
      } else {
        assert LevelRow(activity, l) in r;
      }
    }
  }

  lemma SetLevelsUnique(rows: seq<LevelRow>, activity: nat, levels: set<SportLevels.Level>)
    requires UniquePairs(rows)
    ensures UniquePairs(Kept(rows, activity, levels) + Added(rows, activity, levels))
  {
    var kept, added := Kept(rows, activity, levels), Added(rows, activity, levels);
    Tables.SubsequenceUniqueBy(kept, rows, (x: LevelRow) => x);
    forall x, y | x in kept && y in added ensures x != y {
      if x.activity == activity {
        assert x.level in LevelsOf(rows, activity);
      }
    }
    Tables.ConcatUniqueBy(kept, added, (x: LevelRow) => x);
  }

  /** `activity.levels.set(levels)`: the rows of this activity whose level is
      not wanted are removed, the missing ones are added (in ascending level
      order), every other activity's rows are untouched. */
  function SetLevels(rows: seq<LevelRow>, activity: nat, levels: set<SportLevels.Level>): (r: seq<LevelRow>)
    ensures LevelsOf(r, activity) == levels
    ensures forall row: LevelRow :: row.activity != activity ==> (row in r <==> row in rows)
    ensures UniquePairs(rows) ==> UniquePairs(r)
  {
    SetLevelsContents(rows, activity, levels);
    assert UniquePairs(rows) ==> UniquePairs(Kept(rows, activity, levels) + Added(rows, activity, levels)) by {
      if UniquePairs(rows) {
        SetLevelsUnique(rows, activity, levels);
      }
    }
    Kept(rows, activity, levels) + Added(rows, activity, levels)
  }

  /** `activity.levels.all()`: the activity's levels under the level model's
      default ordering. */
  function Levels(rows: seq<LevelRow>, activity: nat): (r: seq<SportLevels.Level>)
    ensures forall l :: l in r <==> l in LevelsOf(rows, activity)
  {
    SportLevels.Ordered(LevelsOf(rows, activity))
  }

  /** Setting the levels to `s` and reading them back yields `s`, in
      ascending order. */
  lemma SetThenRead(rows: seq<LevelRow>, activity: nat, s: set<SportLevels.Level>)
    ensures Levels(SetLevels(rows, activity, s), activity) == SportLevels.Ordered(s)
  {
  }

  /** ON DELETE CASCADE from the activity. */
  function DeleteActivity(rows: seq<LevelRow>, activity: nat): (r: seq<LevelRow>)
    ensures forall row :: row in r <==> row in rows && row.activity != activity
    ensures LevelsOf(r, activity) == {}
    ensures UniquePairs(rows) ==> UniquePairs(r)
  {
    var r := Tables.Filter(rows, (row: LevelRow) => row.activity != activity);
    assert UniquePairs(rows) ==> UniquePairs(r) by {
      if UniquePairs(rows) {
        Tables.SubsequenceUniqueBy(r, rows, (x: LevelRow) => x);
      }
    }
    r
  }

  /** ON DELETE CASCADE from the level. */
  function DeleteLevel(rows: seq<LevelRow>, level: SportLevels.Level): (r: seq<LevelRow>)
    ensures forall row :: row in r <==> row in rows && row.level != level
    ensures forall a :: LevelsOf(r, a) == LevelsOf(rows, a) - {level}
    ensures UniquePairs(rows) ==> UniquePairs(r)
  {
    var r := Tables.Filter(rows, (row: LevelRow) => row.level != level);
    assert UniquePairs(rows) ==> UniquePairs(r) by {
      if UniquePairs(rows) {
        Tables.SubsequenceUniqueBy(r, rows, (x: LevelRow) => x);
      }
    }
    r
  }

  /** `str(activity_level)`: "<activity> - <level>". For one activity the
      string tells its levels apart. */
  function Str(activityStr: string, level: SportLevels.Level): (r: string)
    ensures forall m :: activityStr + " - " + SportLevels.Str(m) == r <==> m == level
  {
    var r := activityStr + " - " + SportLevels.Str(level);
    assert forall m :: activityStr + " - " + SportLevels.Str(m) == r ==> m == level by {
      forall m | activityStr + " - " + SportLevels.Str(m) == r ensures m == level {
        var n := |activityStr + " - "|;
        assert (activityStr + " - " + SportLevels.Str(m))[n..] == SportLevels.Str(m);
        assert r[n..] == SportLevels.Str(level);
      }
    }
    r
  }
}
