/** What a request cannot reach: other owners' menus, other restaurants, deleted dishes. */
module Isolation {
  import opened Wrappers
  import opened Ordering
  import opened Catalogue
  import opened Menus
  import opened Serving

  // ----- Tenants

  /** Whose rows a category request or a dish request may touch. */
  ghost predicate Owns(db: Db, user: Id, c: Id) {
    c in db.categories && db.categories[c].restaurant in db.restaurants
    && db.restaurants[db.categories[c].restaurant].owner == user
  }

  lemma DishRowsOnly(db: Db, user: Id, d: Id, row: Dish, r: Id)
    requires r in db.restaurants && db.restaurants[r].owner != user
    requires d in db.dishes ==> Owns(db, user, db.dishes[d].category)
    requires Owns(db, user, row.category)
    ensures Slice(db.(dishes := db.dishes[d := row]), r) == Slice(db, r)
  {
  }

  lemma CategoryRowsOnly(db: Db, user: Id, c: Id, row: Category, r: Id)
    requires Linked(db) && r in db.restaurants && db.restaurants[r].owner != user
    requires c in db.categories ==> Owns(db, user, c)
    requires row.restaurant != r
    ensures Slice(db.(categories := db.categories[c := row]), r) == Slice(db, r)
  {
  }

  lemma RestaurantRowsOnly(db: Db, s: Id, row: Restaurant, r: Id)
    requires s != r
    ensures Slice(db.(restaurants := db.restaurants[s := row]), r) == Slice(db, r)
  {
  }

  lemma OtherRestaurantRemoved(db: Db, s: Id, r: Id)
    requires s != r
    ensures Slice(WithoutRestaurant(db, s), r) == Slice(db, r)
  {
  }

  lemma OtherCategoryRemoved(db: Db, c: Id, r: Id)
    requires c in db.categories && db.categories[c].restaurant != r
    ensures Slice(WithoutCategory(db, c), r) == Slice(db, r)
  {
  }

  lemma OtherCategoriesPlaced(db: Db, ids: seq<Id>, s: Id, r: Id)
    requires AllBelongTo(db, ids, s) && s != r
    ensures Slice(db.(categories := Placed(db.categories, ids)), r) == Slice(db, r)
  {
    assert forall c :: c in db.categories && db.categories[c].restaurant == r ==> c !in ids;
  }

  lemma RestaurantRequestKeepsSlice(db: Db, req: Request, env: Env, r: Id)
    requires Valid(db) && (req.Creates() ==> Fresh(db, env))
    requires r in db.restaurants && db.restaurants[r].owner != req.user
    requires req.CreateRestaurant? || req.UpdateRestaurant? || req.DeleteRestaurant?
    ensures Slice(After(db, req, env), r) == Slice(db, r)
  {
    var next := After(db, req, env);
    if Write(db, req, env).Ok? {
      if req.CreateRestaurant? {
        RestaurantRowsOnly(db, env.id, next.restaurants[env.id], r);
      } else {
        var s := ByOwner(db, req.user).value;
        if req.UpdateRestaurant? { RestaurantRowsOnly(db, s, next.restaurants[s], r); }
        else { OtherRestaurantRemoved(db, s, r); }
      }
    }
  }

  lemma CategoryRequestKeepsSlice(db: Db, req: Request, env: Env, r: Id)
    requires Valid(db) && (req.Creates() ==> Fresh(db, env))
    requires r in db.restaurants && db.restaurants[r].owner != req.user
    requires req.CreateCategory? || req.UpdateCategory? || req.DeleteCategory? || req.Reorder?
    ensures Slice(After(db, req, env), r) == Slice(db, r)
  {
    var next := After(db, req, env);
    if Write(db, req, env).Ok? {
      if req.CreateCategory? {
        CategoryRowsOnly(db, req.user, env.id, next.categories[env.id], r);
      } else if req.UpdateCategory? {
        CategoryRowsOnly(db, req.user, req.category, next.categories[req.category], r);
      } else if req.DeleteCategory? {
        OtherCategoryRemoved(db, req.category, r);
      } else {
        OtherCategoriesPlaced(db, req.ids, ByOwner(db, req.user).value, r);
      }
    }
  }

  lemma DishRequestKeepsSlice(db: Db, req: Request, env: Env, r: Id)
    requires Valid(db) && (req.Creates() ==> Fresh(db, env))
    requires r in db.restaurants && db.restaurants[r].owner != req.user
    requires req.CreateDish? || req.UpdateDish? || req.DeleteDish? || req.ToggleDish?
    ensures Slice(After(db, req, env), r) == Slice(db, r)
  {
    var next := After(db, req, env);
    if next != db {
      var d := if req.CreateDish? then env.id else req.dish;
      DishRowsOnly(db, req.user, d, next.dishes[d], r);
    }
  }

  /** A request leaves every restaurant that its user does not own untouched. */
  lemma OthersUntouched(db: Db, req: Request, env: Env, r: Id)
    requires Valid(db) && (req.Creates() ==> Fresh(db, env))
    requires r in db.restaurants && db.restaurants[r].owner != req.user
    ensures Slice(After(db, req, env), r) == Slice(db, r)
  {
    if req.CreateRestaurant? || req.UpdateRestaurant? || req.DeleteRestaurant? {
      RestaurantRequestKeepsSlice(db, req, env, r);
    } else if req.CreateDish? || req.UpdateDish? || req.DeleteDish? || req.ToggleDish? {
      DishRequestKeepsSlice(db, req, env, r);
    } else {
      CategoryRequestKeepsSlice(db, req, env, r);
    }
  }

  ghost predicate NoneBy(events: seq<Event>, user: Id) {
    forall i :: 0 <= i < |events| && events[i].call.Owner? ==> events[i].call.request.user != user
  }

  /** Over every run of other people's requests a restaurant keeps its rows, its slug and
      its public menu. */
  lemma {:induction false} TenantIsolation(w: World, events: seq<Event>, r: Id)
    requires Inv(w) && r in w.sys.db.restaurants && NoneBy(events, w.sys.db.restaurants[r].owner)
    ensures var end := Run(w, events).sys.db;
            && Slice(end, r) == Slice(w.sys.db, r)
            && r in end.restaurants && BuildMenu(end, r) == BuildMenu(w.sys.db, r)
            && MenuFor(end, w.sys.db.restaurants[r].slug) == Some(BuildMenu(w.sys.db, r))
    decreases |events|
  {
    var db := w.sys.db;
    if events == [] {
      SlugNamesOne(db, db.restaurants[r].slug, r);
    } else {
      var ev, next := events[0], Next(w, events[0]);
      NextDb(w, ev);
      InvKept(w, ev);
      if ev.call.Owner? { OthersUntouched(db, ev.call.request, EnvOf(w, ev), r); }
      assert r in Slice(next.sys.db, r).restaurants;
      assert next.sys.db.restaurants[r] == Slice(next.sys.db, r).restaurants[r] == db.restaurants[r];
      TenantIsolation(next, events[1..], r);
      MenuOfSlice(db, r);
      MenuOfSlice(next.sys.db, r);
    }
  }

  // ----- A dish stays in its restaurant

  ghost function Home(db: Db, d: Id): Option<Id> {
    if d in db.dishes && db.dishes[d].category in db.categories
    then Some(db.categories[db.dishes[d].category].restaurant) else None
  }

  lemma CategoryHomesKept(db: Db, req: Request, env: Env, c: Id)
    requires Valid(db) && (req.Creates() ==> Fresh(db, env))
    requires c in After(db, req, env).categories && c != env.id
    ensures c in db.categories && After(db, req, env).categories[c].restaurant == db.categories[c].restaurant
  {
    hide TakenSlugs, PatchInfo, PatchDish, NewDish, DishGuard, DishCategoryGuard, MoveGuard, HasLiveDishes, Greatest;
    if !req.Reorder? && !req.DeleteCategory? && !req.DeleteRestaurant? && !req.CreateCategory? && !req.UpdateCategory? {
      assert After(db, req, env).categories == db.categories;
    }
  }

  lemma DishMovesWithinOwner(db: Db, req: Request, env: Env, d: Id)
    requires d in After(db, req, env).dishes && d != env.id
    ensures d in db.dishes
    ensures var from, to := db.dishes[d].category, After(db, req, env).dishes[d].category;
            from == to || (Owns(db, req.user, from) && Owns(db, req.user, to))
  {
  }

  lemma HomeKept(db: Db, req: Request, env: Env, d: Id)
    requires Valid(db) && (req.Creates() ==> Fresh(db, env))
    requires env.id !in db.categories && d in After(db, req, env).dishes && d != env.id
    ensures d in db.dishes && Home(After(db, req, env), d) == Home(db, d)
  {
    DishMovesWithinOwner(db, req, env, d);
    LinkedKept(db, req, env);
    var c := After(db, req, env).dishes[d].category;
    assert c in db.categories;
    CategoryHomesKept(db, req, env, c);
  }

  /** Over every run a dish keeps its restaurant, whatever category it is moved to, and a
      removed row never comes back. */
  lemma {:induction false} DishStaysHome(w: World, events: seq<Event>, d: Id)
    requires Inv(w) && d < w.issued && d in Run(w, events).sys.db.dishes
    ensures d in w.sys.db.dishes && Home(Run(w, events).sys.db, d) == Home(w.sys.db, d)
    decreases |events|
  {
    if events != [] {
      var ev, next := events[0], Next(w, events[0]);
      NextDb(w, ev);
      InvKept(w, ev);
      DishStaysHome(next, events[1..], d);
      if ev.call.Owner? { HomeKept(w.sys.db, ev.call.request, EnvOf(w, ev), d); }
    }
  }

  // ----- Soft deletion is permanent

  /** A dish row that is gone, or marked deleted. */
  ghost predicate Gone(db: Db, d: Id) {
    d in db.dishes ==> !Live(db.dishes[d])
  }

  lemma GoneStays(db: Db, req: Request, env: Env, d: Id)
    requires Gone(db, d) && d != env.id
    ensures Gone(After(db, req, env), d)
    ensures d in After(db, req, env).dishes ==> d in db.dishes && After(db, req, env).dishes[d] == db.dishes[d]
  {
  }

  lemma GoneNotServed(s: System, call: Call, env: Env, d: Id, c: Id)
    requires Valid(s.db) && Coherent(s) && Gone(s.db, d)
    ensures Serve(s, call, env).0.Served? ==> !Shows(Serve(s, call, env).0.menu, c, d)
  {
    ReplyUncached(s, call, env);
    if Serve(s, call, env).0.Served? {
      MenuHolds(s.db, BySlug(s.db, call.slug).value, c, d);
    }
  }

  /** Once a dish is deleted no later request changes any of its fields, and no later menu
      shows it, cached or fresh, in any category. */
  lemma {:induction false} DeletionIsPermanent(w: World, events: seq<Event>, d: Id, c: Id)
    requires Inv(w) && d < w.issued && Gone(w.sys.db, d)
    ensures var end := Run(w, events).sys.db;
            && Gone(end, d)
            && (d in end.dishes ==> d in w.sys.db.dishes && end.dishes[d] == w.sys.db.dishes[d])
    ensures forall i :: 0 <= i < |events| && Replies(w, events)[i].Served? ==>
              !Shows(Replies(w, events)[i].menu, c, d)
    decreases |events|
  {
    if events != [] {
      var ev, next := events[0], Next(w, events[0]);
      NextDb(w, ev);
      InvKept(w, ev);
      GoneNotServed(w.sys, ev.call, EnvOf(w, ev), d, c);
      if ev.call.Owner? { GoneStays(w.sys.db, ev.call.request, EnvOf(w, ev), d); }
      DeletionIsPermanent(next, events[1..], d, c);
    }
  }
}
