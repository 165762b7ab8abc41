/** How long rows exist, over whole runs, and what requests are answered meanwhile. */
module Lifetimes {
  import opened Clock
  import opened Wrappers
  import opened Ordering
  import opened Catalogue
  import opened Menus
  import opened Serving
  import opened Isolation

  // ----- Restaurants

  ghost predicate OwnedBy(db: Db, r: Id, owner: Id) {
    r in db.restaurants && db.restaurants[r].owner == owner
  }

  ghost predicate Occurs(events: seq<Event>, req: Request) {
    exists i :: 0 <= i < |events| && events[i].call == Owner(req)
  }

  lemma OccursCons(events: seq<Event>, req: Request)
    requires events != []
    ensures Occurs(events, req) <==> events[0].call == Owner(req) || Occurs(events[1..], req)
  {
    if Occurs(events, req) {
      var i :| 0 <= i < |events| && events[i].call == Owner(req);
      assert i == 0 || events[1..][i - 1].call == Owner(req);
    }
  }

  lemma RestaurantStep(db: Db, req: Request, env: Env, r: Id, owner: Id)
    requires Valid(db) && (req.Creates() ==> Fresh(db, env)) && OwnedBy(db, r, owner)
    ensures if req == DeleteRestaurant(owner) then r !in After(db, req, env).restaurants
            else OwnedBy(After(db, req, env), r, owner)
  {
  }

  lemma RestaurantAbsentStep(db: Db, req: Request, env: Env, r: Id)
    requires r !in db.restaurants && r != env.id
    ensures r !in After(db, req, env).restaurants
  {
  }

  /** A restaurant that is gone never comes back, none of its rows does, and nobody is served its menu. */
  lemma {:induction false} RemovedStaysRemoved(w: World, events: seq<Event>, r: Id)
    requires Inv(w) && r < w.issued && r !in w.sys.db.restaurants
    ensures r !in Run(w, events).sys.db.restaurants && Slice(Run(w, events).sys.db, r) == EMPTY
    ensures forall i :: 0 <= i < |events| && Replies(w, events)[i].Served? ==>
              Replies(w, events)[i].menu.restaurant != r
    decreases |events|
  {
    if events == [] {
      assert Slice(w.sys.db, r).categories == map[] && Slice(w.sys.db, r).dishes == map[];
    } else {
      var ev := events[0];
      NextDb(w, ev);
      InvKept(w, ev);
      ReplyUncached(w.sys, ev.call, EnvOf(w, ev));
      if ev.call.Owner? { RestaurantAbsentStep(w.sys.db, ev.call.request, EnvOf(w, ev), r); }
      RemovedStaysRemoved(Next(w, ev), events[1..], r);
    }
  }

  /** Over every run a restaurant stays its owner's until that owner deletes it, and only until then. */
  lemma {:induction false} RestaurantLivesExactlyUntil(w: World, events: seq<Event>, r: Id, owner: Id)
    requires Inv(w) && OwnedBy(w.sys.db, r, owner)
    ensures if Occurs(events, DeleteRestaurant(owner)) then Slice(Run(w, events).sys.db, r) == EMPTY
            else OwnedBy(Run(w, events).sys.db, r, owner)
    decreases |events|
  {
    if events != [] {
      var ev, next := events[0], Next(w, events[0]);
      NextDb(w, ev);
      InvKept(w, ev);
      OccursCons(events, DeleteRestaurant(owner));
      if ev.call.Owner? { RestaurantStep(w.sys.db, ev.call.request, EnvOf(w, ev), r, owner); }
      if ev.call == Owner(DeleteRestaurant(owner)) { RemovedStaysRemoved(next, events[1..], r); }
      else { RestaurantLivesExactlyUntil(next, events[1..], r, owner); }
    }
  }

  // ----- Dishes

  /** A dish that is not deleted, in a category of the owner's restaurant. */
  ghost predicate LiveFor(db: Db, d: Id, owner: Id) {
    d in db.dishes && Live(db.dishes[d]) && Owns(db, owner, db.dishes[d].category)
  }

  /** The two requests that can end a dish; deleting its category is refused while it lives. */
  ghost predicate Ended(events: seq<Event>, d: Id, owner: Id) {
    Occurs(events, DeleteDish(owner, d)) || Occurs(events, DeleteRestaurant(owner))
  }

  predicate OnDish(req: Request) { req.CreateDish? || req.UpdateDish? || req.DeleteDish? || req.ToggleDish? }

  lemma DishRowLives(db: Db, req: Request, env: Env, d: Id, owner: Id)
    requires (req.Creates() ==> Fresh(db, env)) && LiveFor(db, d, owner) && OnDish(req)
    ensures var next := After(db, req, env);
            && next.categories == db.categories && next.restaurants == db.restaurants && d in next.dishes
            && (Live(next.dishes[d]) <==> req != DeleteDish(owner, d))
  {
    hide Greatest, NewDish, CategoryGuard, MoveGuard, DishPatchFits;
  }

  lemma DishRowStep(db: Db, req: Request, env: Env, d: Id, owner: Id)
    requires (req.Creates() ==> Fresh(db, env)) && LiveFor(db, d, owner) && OnDish(req)
    requires env.id !in db.dishes && env.id !in db.categories
    ensures if req == DeleteDish(owner, d) then Gone(After(db, req, env), d)
            else LiveFor(After(db, req, env), d, owner)
  {
    hide Write;
    DishRowLives(db, req, env, d, owner);
    DishMovesWithinOwner(db, req, env, d);
  }

  /** Outside the dish requests a live dish's row and its category go only with its restaurant. */
  lemma DishRowKept(db: Db, req: Request, env: Env, d: Id, owner: Id)
    requires Valid(db) && (req.Creates() ==> Fresh(db, env)) && LiveFor(db, d, owner) && !OnDish(req)
    requires req != DeleteRestaurant(owner)
    ensures var next := After(db, req, env);
            && d in next.dishes && next.dishes[d] == db.dishes[d] && db.dishes[d].category in next.categories
  {
    hide Greatest, TakenSlugs, PatchInfo, PatchCategory, DishCategoryGuard, CategoryPatchFits;
    if req.DeleteRestaurant? {
      assert ByOwner(db, req.user) != Some(db.categories[db.dishes[d].category].restaurant);
    } else if req.DeleteCategory? && req.category == db.dishes[d].category {
      assert HasLiveDishes(db, req.category);
    }
  }

  lemma OtherRowStep(db: Db, req: Request, env: Env, d: Id, owner: Id)
    requires Valid(db) && (req.Creates() ==> Fresh(db, env)) && LiveFor(db, d, owner) && !OnDish(req)
    requires env.id !in db.dishes && env.id !in db.categories
    ensures if req == DeleteRestaurant(owner) then Gone(After(db, req, env), d)
            else LiveFor(After(db, req, env), d, owner)
  {
    var c := db.dishes[d].category;
    if req == DeleteRestaurant(owner) {
      assert ByOwner(db, owner) == Some(db.categories[c].restaurant);
    } else {
      hide Write;
      DishRowKept(db, req, env, d, owner);
      RestaurantStep(db, req, env, db.categories[c].restaurant, owner);
      CategoryHomesKept(db, req, env, c);
    }
  }

  lemma DishStep(w: World, ev: Event, d: Id, owner: Id)
    requires Inv(w) && LiveFor(w.sys.db, d, owner)
    ensures if ev.call == Owner(DeleteDish(owner, d)) || ev.call == Owner(DeleteRestaurant(owner))
            then Gone(Next(w, ev).sys.db, d) else LiveFor(Next(w, ev).sys.db, d, owner)
  {
    NextDb(w, ev);
    if ev.call.Owner? {
      var req := ev.call.request;
      if OnDish(req) {
        DishRowStep(w.sys.db, req, EnvOf(w, ev), d, owner);
      } else {
        OtherRowStep(w.sys.db, req, EnvOf(w, ev), d, owner);
      }
    }
  }

  /** Over every run a live dish stays live until its owner deletes it or the restaurant, and only until
      then; nothing else that anyone asks for ends it. */
  lemma {:induction false} DishLivesExactlyUntil(w: World, events: seq<Event>, d: Id, owner: Id)
    requires Inv(w) && LiveFor(w.sys.db, d, owner)
    ensures if Ended(events, d, owner) then Gone(Run(w, events).sys.db, d)
            else LiveFor(Run(w, events).sys.db, d, owner)
    decreases |events|
  {
    if events != [] {
      var ev, next := events[0], Next(w, events[0]);
      InvKept(w, ev);
      OccursCons(events, DeleteDish(owner, d));
      OccursCons(events, DeleteRestaurant(owner));
      DishStep(w, ev, d, owner);
      if ev.call == Owner(DeleteDish(owner, d)) || ev.call == Owner(DeleteRestaurant(owner)) {
        DeletionIsPermanent(next, events[1..], d, 0);
      } else {
        DishLivesExactlyUntil(next, events[1..], d, owner);
      }
    }
  }

  lemma DishReply(db: Db, req: Request, env: Env, d: Id)
    requires (req.ToggleDish? || req.DeleteDish? || req.UpdateDish?) && req.dish == d
    ensures Gone(db, d) ==> Write(db, req, env) == Err(NotFound)
    ensures LiveFor(db, d, req.user) && !req.UpdateDish? ==> Write(db, req, env).Ok?
    ensures forall owner :: LiveFor(db, d, owner) && req.user != owner ==> Write(db, req, env) == Err(Forbidden)
  {
  }

  /** So the answer to a request on a dish is decided by the run before it: after its end a 404 for
      everyone; before, a 403 for all but the owner, whose toggles and deletions succeed. */
  lemma DishRequestsAnswered(w: World, events: seq<Event>, d: Id, owner: Id, req: Request, env: Env)
    requires Inv(w) && LiveFor(w.sys.db, d, owner)
    requires (req.ToggleDish? || req.DeleteDish? || req.UpdateDish?) && req.dish == d
    ensures var reply := Serve(Run(w, events).sys, Owner(req), env).0;
            if Ended(events, d, owner) then reply == Failed(NotFound)
            else if req.user != owner then reply == Failed(Forbidden)
            else !req.UpdateDish? ==> reply == Done
  {
    hide Write, Ended, LiveFor;
    DishLivesExactlyUntil(w, events, d, owner);
    DishReply(Run(w, events).sys.db, req, env, d);
  }

  // ----- Ownership checks

  /** In every reachable state the category service and the dish service check a category's owner alike:
      the missing restaurant that one reports as 404 and the other as 403 never occurs. */
  lemma ChecksAgree(events: seq<Event>, c: Id, user: Id)
    ensures var db := Run(START, events).sys.db;
            && CategoryGuard(db, c, user) == DishCategoryGuard(db, c, user)
            && (CategoryGuard(db, c, user) == None <==> Owns(db, user, c))
  {
    ReachableCoherent(events);
  }
}
