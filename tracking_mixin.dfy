/** The soft-delete bookkeeping shared by activities and users
    (utils/models/tracking_mixin.py): three extra columns on every row and a
    manager that hides inactive rows unless it was built with `all_objects`. */
module Tracking {
  import opened Wrappers
  import opened PyValues
  import Tables

  /** A row of a model that mixes in `TrackingMixin`. */
  datatype Tracked<T> = Tracked(row: T, isActive: bool, createdAt: int, deletedAt: Option<int>)

  /** A freshly saved row: active, stamped with the creation time
      (`auto_now_add`), not deleted. */
  function Track<T>(row: T, now: int): (t: Tracked<T>)
    ensures t.row == row && t.createdAt == now
    ensures t.isActive && t.deletedAt == None
  {
    Tracked(row, true, now, None)
  }

  /** `TrackingManagerMixin`: the only state it adds is the `all_objects` flag. */
  datatype Manager = Manager(allObjects: PyValue)

  /** `TrackingManagerMixin.__init__`: the `all_objects` keyword is consumed
      (default `False`) and every other keyword is passed on to the base
      manager, returned here as the second component. */
  function NewManager(kwargs: map<string, PyValue>): (r: (Manager, map<string, PyValue>))
    ensures "all_objects" !in r.1
    ensures forall k :: k in kwargs && k != "all_objects" ==> k in r.1 && r.1[k] == kwargs[k]
    ensures "all_objects" !in kwargs ==> !Truthy(r.0.allObjects)
  {
    (Manager(if "all_objects" in kwargs then kwargs["all_objects"] else PyBool(false)),
     kwargs - {"all_objects"})
  }

  /** `objects = TrackingManagerMixin()`. */
  function Objects(): Manager {
    NewManager(map[]).0
  }

  /** `all_objects = TrackingManagerMixin(all_objects=True)`. */
  function AllObjects(): Manager {
    NewManager(map["all_objects" := PyBool(true)]).0
  }

  /** `get_queryset()`: every row when `all_objects` is truthy, otherwise the
      active rows only, in table order. `deleted_at` is not consulted. */
  function GetQueryset<T(==,!new)>(m: Manager, table: seq<Tracked<T>>): (r: seq<Tracked<T>>)
    ensures Truthy(m.allObjects) ==> r == table
    ensures !Truthy(m.allObjects) ==>
      (forall t :: t in r <==> t in table && t.isActive) && Tables.IsSubsequence(r, table)
  {
    if Truthy(m.allObjects) then table else Tables.Filter(table, (t: Tracked<T>) => t.isActive)
  }

  /** What the default manager returns is a subsequence of what `all_objects`
      returns. */
  lemma DefaultWithinAll<T(!new)>(table: seq<Tracked<T>>)
    ensures GetQueryset(AllObjects(), table) == table
    ensures Tables.IsSubsequence(GetQueryset(Objects(), table), GetQueryset(AllObjects(), table))
    ensures forall t :: t in GetQueryset(Objects(), table) <==> t in table && t.isActive
  {
  }

  /** A newly created row shows up, last, through both managers. */
  lemma {:induction false} NewRowVisible<T(!new)>(table: seq<Tracked<T>>, row: T, now: int)
    ensures GetQueryset(Objects(), table + [Track(row, now)])
         == GetQueryset(Objects(), table) + [Track(row, now)]
    ensures GetQueryset(AllObjects(), table + [Track(row, now)]) == table + [Track(row, now)]
  {
    Tables.FilterAppend(table, Track(row, now), (t: Tracked<T>) => t.isActive);
  }

  /** Setting `deleted_at` on an active row does not hide it from the default
      manager. */
  lemma DeletedAtIgnored<T(!new)>(table: seq<Tracked<T>>, t: Tracked<T>)
    requires t in table && t.isActive && t.deletedAt.Some?
    ensures t in GetQueryset(Objects(), table)
  {
  }
}
