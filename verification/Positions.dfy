/** Reordering categories and appending rows. */
module Positions {
  import opened Wrappers
  import opened Ordering
  import opened Catalogue
  import opened Menus
  import opened Serving

  /** The rows of `list_by_restaurant`. */
  ghost function ListKeys(db: Db, r: Id, activeOnly: bool): map<Id, Key> {
    map c | c in db.categories && db.categories[c].restaurant == r && (activeOnly ==> db.categories[c].active) ::
      Key(db.categories[c].position, db.categories[c].created)
  }

  ghost function ListByRestaurant(db: Db, r: Id, activeOnly: bool): seq<Id> {
    SortIds(ListKeys(db, r, activeOnly))
  }

  /** The listing holds exactly the restaurant's categories, or its active ones. */
  lemma ListingHolds(db: Db, r: Id, activeOnly: bool, c: Id)
    ensures c in ListByRestaurant(db, r, activeOnly) <==>
              c in db.categories && db.categories[c].restaurant == r && (db.categories[c].active || !activeOnly)
  {
  }

  lemma ListingAscends(db: Db, r: Id, activeOnly: bool, i: nat, k: nat)
    requires DistinctStamps(db) && i < k < |ListByRestaurant(db, r, activeOnly)|
    ensures var first, second := ListByRestaurant(db, r, activeOnly)[i], ListByRestaurant(db, r, activeOnly)[k];
            && first in db.categories && second in db.categories && first != second
            && var a, b := db.categories[first], db.categories[second];
            a.position < b.position || (a.position == b.position && a.created < b.created)
  {
    assert IsOrder(ListByRestaurant(db, r, activeOnly), ListKeys(db, r, activeOnly));
  }

  // ----- Reorder

  lemma LastIndexOnly(ids: seq<Id>, i: nat)
    requires i < |ids| && forall j, k :: 0 <= j < k < |ids| ==> ids[j] != ids[k]
    ensures LastIndex(ids, ids[i]) == i
  {
  }

  lemma PlacedLists(db: Db, r: Id, ids: seq<Id>)
    requires DistinctStamps(db)
    requires forall j, k :: 0 <= j < k < |ids| ==> ids[j] != ids[k]
    requires forall c :: c in ids <==> c in ListKeys(db, r, false)
    ensures var next := db.(categories := Placed(db.categories, ids));
            ListByRestaurant(next, r, false) == ids && Distinct(ListKeys(next, r, false))
  {
    var keys := ListKeys(db.(categories := Placed(db.categories, ids)), r, false);
    forall i | 0 <= i < |ids| ensures ids[i] in keys && keys[ids[i]].position == i {
      assert ids[i] in ids;
      LastIndexOnly(ids, i);
    }
    assert IsOrder(ids, keys);
    OrderUnique(ids, SortIds(keys), keys);
  }

  /** After reordering by a duplicate-free list of all its categories, a restaurant lists exactly
      that list, and its public menu shows the categories it shows in that order. */
  lemma FullReorderLists(db: Db, user: Id, ids: seq<Id>, env: Env)
    requires Valid(db) && ByOwner(db, user).Some?
    requires forall j, k :: 0 <= j < k < |ids| ==> ids[j] != ids[k]
    requires forall c :: c in ids <==> c in ListKeys(db, ByOwner(db, user).value, false)
    ensures var r, next := ByOwner(db, user).value, After(db, Request.Reorder(user, ids), env);
            && ListByRestaurant(next, r, false) == ids
            && ListByRestaurant(next, r, true) == Filtered(ids, ListKeys(db, r, true).Keys)
            && SortIds(ShownKeys(next, r)) == Filtered(ids, ShownKeys(db, r).Keys)
  {
    var r := ByOwner(db, user).value;
    assert forall i :: 0 <= i < |ids| ==> ids[i] in ids;
    ReorderPlaces(db, user, ids, env);
    PlacedLists(db, r, ids);
    PlacedShows(db, r, ids);
  }

  /** A reorder writes exactly when every listed category is the owner's, and then only positions. */
  lemma ReorderPlaces(db: Db, user: Id, ids: seq<Id>, env: Env)
    requires ByOwner(db, user).Some?
    ensures After(db, Request.Reorder(user, ids), env) ==
            if forall i :: 0 <= i < |ids| ==> ids[i] in ListKeys(db, ByOwner(db, user).value, false)
            then db.(categories := Placed(db.categories, ids)) else db
  {
  }

  lemma PlacedShows(db: Db, r: Id, ids: seq<Id>)
    requires var next := db.(categories := Placed(db.categories, ids));
             ListByRestaurant(next, r, false) == ids && Distinct(ListKeys(next, r, false))
    ensures var next := db.(categories := Placed(db.categories, ids));
            && ListByRestaurant(next, r, true) == Filtered(ids, ListKeys(db, r, true).Keys)
            && SortIds(ShownKeys(next, r)) == Filtered(ids, ShownKeys(db, r).Keys)
  {
    var next := db.(categories := Placed(db.categories, ids));
    ReorderKeepsRows(db, r, ids);
    RestrictedOrder(ListKeys(next, r, false), ListKeys(next, r, true));
    RestrictedOrder(ListKeys(next, r, false), ShownKeys(next, r));
  }

  lemma ReorderKeepsRows(db: Db, r: Id, ids: seq<Id>)
    ensures var next := db.(categories := Placed(db.categories, ids));
            && ListKeys(next, r, true).Keys == ListKeys(db, r, true).Keys
            && ShownKeys(next, r).Keys == ShownKeys(db, r).Keys
  {
    var next := db.(categories := Placed(db.categories, ids));
    forall c ensures DishKeys(next, c) == DishKeys(db, c) {}
  }

  lemma PlacedTwice(categories: map<Id, Category>, a: seq<Id>, b: seq<Id>)
    requires forall c :: c in a ==> c in b
    ensures Placed(Placed(categories, a), b) == Placed(categories, b)
  {
  }

  /** A later reorder that lists at least the same categories overrides an earlier one completely. */
  lemma ReorderOverrides(db: Db, user: Id, a: seq<Id>, b: seq<Id>, env: Env, env': Env)
    requires Write(db, Request.Reorder(user, a), env).Ok? && Write(db, Request.Reorder(user, b), env').Ok?
    requires forall c :: c in a ==> c in b
    ensures After(After(db, Request.Reorder(user, a), env), Request.Reorder(user, b), env') ==
            After(db, Request.Reorder(user, b), env')
  {
    PlacedTwice(db.categories, a, b);
  }

  // ----- Appending

  /** The next position is never below an existing one, above them all exactly when the greatest is
      not zero, and then it follows the greatest without a gap; for no rows it is zero. */
  lemma NextPosition(positions: map<Id, int>)
    ensures forall x :: x in positions ==> positions[x] <= AfterGreatest(Greatest(positions))
    ensures (forall x :: x in positions ==> positions[x] < AfterGreatest(Greatest(positions)))
            <==> Greatest(positions) != Some(0)
    ensures positions != map[] && Greatest(positions) != Some(0) ==>
              AfterGreatest(Greatest(positions)) - 1 in positions.Values
    ensures positions == map[] ==> AfterGreatest(Greatest(positions)) == 0
  {
    if Greatest(positions) == Some(0) {
      var x :| x in positions && positions[x] == 0;
    }
  }

  lemma ListsInLonger(keys: map<Id, Key>, id: Id, key: Key)
    requires id !in keys
    ensures Lists(SortIds(keys), keys.Keys, keys[id := key])
  {
    var ids := SortIds(keys);
    assert forall i :: 0 <= i < |ids| ==> ids[i] in keys.Keys;
  }

  lemma LongerDistinct(keys: map<Id, Key>, id: Id, key: Key)
    requires Distinct(keys) && id !in keys && forall x :: x in keys ==> Before(keys[x], key)
    ensures Distinct(keys[id := key])
  {
  }

  lemma LastInKeys(keys: map<Id, Key>)
    ensures SortIds(keys) != [] ==> SortIds(keys)[|SortIds(keys)| - 1] in keys
  {
  }

  lemma AppendedLast(keys: map<Id, Key>, id: Id, key: Key)
    requires Distinct(keys) && id !in keys
    requires forall x :: x in keys ==> Before(keys[x], key)
    ensures SortIds(keys[id := key]) == SortIds(keys) + [id]
  {
    var longer, ids := keys[id := key], SortIds(keys);
    LongerDistinct(keys, id, key);
    ListsInLonger(keys, id, key);
    LastInKeys(keys);
    hide Lists, Distinct;
    InsertLists(id, |ids|, ids, keys.Keys, longer);
    assert ids[..|ids|] + [id] + ids[|ids|..] == ids + [id];
    assert longer.Keys == keys.Keys + {id};
    OrderUnique(ids + [id], SortIds(longer), longer);
  }

  lemma NewCategoryKeys(db: Db, req: Request, env: Env, r: Id)
    requires req.CreateCategory? && Fresh(db, env) && Write(db, req, env).Ok? && ByOwner(db, req.user) == Some(r)
    ensures var keys, key := ListKeys(db, r, false),
                             Key(AfterGreatest(Greatest(CategoryPositions(db, r))), env.now);
            && ListKeys(After(db, req, env), r, false) == keys[env.id := key]
            && env.id !in keys && forall c :: c in keys ==> Before(keys[c], key)
  {
    hide ByOwner, AfterGreatest;
    var keys := ListKeys(db, r, false);
    NextPosition(CategoryPositions(db, r));
    assert forall c :: c in keys ==> c in CategoryPositions(db, r);
  }

  /** A new category is listed last, ties on position included. */
  lemma NewCategoryListedLast(db: Db, req: Request, env: Env)
    requires Valid(db) && req.CreateCategory? && Fresh(db, env) && Write(db, req, env).Ok?
    ensures var r := ByOwner(db, req.user).value;
            ListByRestaurant(After(db, req, env), r, false) == ListByRestaurant(db, r, false) + [env.id]
  {
    hide AfterGreatest;
    var r := ByOwner(db, req.user).value;
    NewCategoryKeys(db, req, env, r);
    AppendedLast(ListKeys(db, r, false), env.id, Key(AfterGreatest(Greatest(CategoryPositions(db, r))), env.now));
  }

  lemma NewDishKeys(db: Db, req: Request, env: Env)
    requires req.CreateDish? && req.data.available && Fresh(db, env) && Write(db, req, env).Ok?
    ensures var keys, key := DishKeys(db, req.category),
                             Key(AfterGreatest(Greatest(DishPositions(db, req.category))), env.now);
            && DishKeys(After(db, req, env), req.category) == keys[env.id := key]
            && env.id !in keys && forall d :: d in keys ==> Before(keys[d], key)
  {
    hide DishCategoryGuard, AfterGreatest;
    var keys := DishKeys(db, req.category);
    NextPosition(DishPositions(db, req.category));
    assert forall d :: d in keys ==> d in DishPositions(db, req.category);
  }

  /** A new available dish is the last one its public category shows. */
  lemma NewDishShownLast(db: Db, req: Request, env: Env)
    requires Valid(db) && req.CreateDish? && req.data.available && Fresh(db, env) && Write(db, req, env).Ok?
    ensures SortIds(DishKeys(After(db, req, env), req.category)) == SortIds(DishKeys(db, req.category)) + [env.id]
  {
    hide Write, AfterGreatest;
    NewDishKeys(db, req, env);
    AppendedLast(DishKeys(db, req.category), env.id,
                 Key(AfterGreatest(Greatest(DishPositions(db, req.category))), env.now));
  }

  ghost predicate AllZero(db: Db) {
    && (forall c :: c in db.categories ==> db.categories[c].position == 0)
    && (forall d :: d in db.dishes ==> db.dishes[d].position == 0)
  }

  /** The requests that can set a position are the two updates and the reorder. */
  predicate SetsPositions(call: Call) {
    call.Owner? && (call.request.UpdateCategory? || call.request.UpdateDish? || call.request.Reorder?)
  }

  lemma ZeroKept(db: Db, req: Request, env: Env)
    requires AllZero(db) && !SetsPositions(Owner(req))
    ensures AllZero(After(db, req, env))
  {
  }

  /** From empty tables every position stays zero until someone updates or reorders: new rows
      never get position 1, because a greatest position of zero counts as none. */
  lemma {:induction false} PositionsStayZero(w: World, events: seq<Event>)
    requires AllZero(w.sys.db) && forall i :: 0 <= i < |events| ==> !SetsPositions(events[i].call)
    ensures AllZero(Run(w, events).sys.db)
    decreases |events|
  {
    if events != [] {
      var ev := events[0];
      NextDb(w, ev);
      if ev.call.Owner? { ZeroKept(w.sys.db, ev.call.request, EnvOf(w, ev)); }
      PositionsStayZero(Next(w, ev), events[1..]);
    }
  }
}
