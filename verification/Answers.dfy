/** Which requests succeed and what the others are told, said of the rows: a reference for every answer. */
module Answers {
  import opened Clock
  import opened Wrappers
  import opened Ordering
  import opened Catalogue
  import opened Serving
  import opened Isolation
  import opened Outcomes

  ghost predicate HasRestaurant(db: Db, user: Id) {
    exists r :: r in db.restaurants && db.restaurants[r].owner == user
  }

  predicate OutOfRange(p: Patch<int>) {
    p.Set? && (p.value < -2_147_483_648 || 2_147_483_647 < p.value)
  }

  /** The position after these would not be an INTEGER. */
  ghost predicate NoRoom(positions: set<int>) {
    exists p :: Follows(p, positions) && (p < -2_147_483_648 || 2_147_483_647 < p)
  }

  ghost function DishAnswer(db: Db, user: Id, d: Id): Reply {
    if !(d in db.dishes && db.dishes[d].deleted == None) then Failed(NotFound)
    else if !Owns(db, user, db.dishes[d].category) then Failed(Forbidden)
    else Done
  }

  ghost function CategoryAnswer(db: Db, user: Id, c: Id): Reply {
    if c !in db.categories then Failed(NotFound)
    else if !Owns(db, user, c) then Failed(Forbidden)
    else Done
  }

  /** What a user is told: first what is missing, then what is someone else's, then what does not fit. */
  ghost function Answer(db: Db, req: Request): Reply {
    match req
    case CreateRestaurant(user, _, _) => if HasRestaurant(db, user) then Failed(Conflict) else Done
    case UpdateRestaurant(user, rename, _) =>
      if !HasRestaurant(db, user) then Failed(NotFound) else if rename.Null? then Failed(ServerError) else Done
    case DeleteRestaurant(user) => if HasRestaurant(db, user) then Done else Failed(NotFound)
    case CreateCategory(user, _, _, _) =>
      if !HasRestaurant(db, user) then Failed(NotFound)
      else if NoRoom(set c | c in db.categories && Owns(db, user, c) :: db.categories[c].position)
      then Failed(ServerError)
      else Done
    case UpdateCategory(user, c, patch) =>
      if CategoryAnswer(db, user, c) != Done then CategoryAnswer(db, user, c)
      else if patch.name.Null? || patch.active.Null? || patch.position.Null? || OutOfRange(patch.position)
      then Failed(ServerError)
      else Done
    case DeleteCategory(user, c) =>
      if CategoryAnswer(db, user, c) != Done then CategoryAnswer(db, user, c)
      else if exists d :: d in db.dishes && db.dishes[d].category == c && db.dishes[d].deleted == None
      then Failed(Conflict)
      else Done
    case Reorder(user, ids) =>
      if !HasRestaurant(db, user) then Failed(NotFound)
      else if exists c :: c in ids && !Owns(db, user, c) then Failed(BadRequest)
      else Done
    case CreateDish(user, c, _) =>
      if CategoryAnswer(db, user, c) != Done then CategoryAnswer(db, user, c)
      else if NoRoom(set d | d in db.dishes && db.dishes[d].category == c
                             && db.dishes[d].deleted == None :: db.dishes[d].position)
      then Failed(ServerError)
      else Done
    case UpdateDish(user, d, patch) =>
      if DishAnswer(db, user, d) != Done then DishAnswer(db, user, d)
      else if patch.category.Null? then Failed(NotFound)
      else if patch.category.Set? && CategoryAnswer(db, user, patch.category.value) != Done
      then CategoryAnswer(db, user, patch.category.value)
      else if patch.name.Null? || patch.price.Null? || patch.available.Null? || patch.featured.Null?
              || patch.position.Null? || OutOfRange(patch.position)
      then Failed(ServerError)
      else Done
    case DeleteDish(user, d) => DishAnswer(db, user, d)
    case ToggleDish(user, d) => DishAnswer(db, user, d)
  }

  function Told<T>(w: Result<T>): Reply {
    match w case Ok(_) => Done case Err(e) => Failed(e)
  }

  lemma OwnerFound(db: Db, user: Id)
    ensures ByOwner(db, user).Some? <==> HasRestaurant(db, user)
    ensures UniqueRestaurants(db) ==>
              forall c :: c in db.categories ==>
                (Owns(db, user, c) <==> db.categories[c].restaurant in db.restaurants
                                        && ByOwner(db, user) == Some(db.categories[c].restaurant))
  {
  }

  lemma RoomIs(positions: map<Id, int>)
    ensures NoRoom(positions.Values) <==> !Int32(AfterGreatest(Greatest(positions)))
  {
    hide AfterGreatest;
    var next := AfterGreatest(Greatest(positions));
    PositionFollows(positions);
    forall p | Follows(p, positions.Values) ensures p == next {
      FollowsOne(p, next, positions.Values);
    }
  }

  lemma FollowsOne(p: int, q: int, positions: set<int>)
    requires Follows(p, positions) && Follows(q, positions)
    ensures p == q
  {
  }

  lemma RestaurantAnswered(db: Db, req: Request, env: Env)
    requires Valid(db)
    requires req.CreateRestaurant? || req.UpdateRestaurant? || req.DeleteRestaurant?
    ensures Told(Write(db, req, env)) == Answer(db, req)
  {
    OwnerFound(db, req.user);
  }

  lemma NewCategoryAnswered(db: Db, req: Request, env: Env)
    requires Valid(db) && req.CreateCategory?
    ensures Told(Write(db, req, env)) == Answer(db, req)
  {
    hide AfterGreatest, NoRoom, ByOwner;
    OwnerFound(db, req.user);
    if ByOwner(db, req.user).Some? {
      var r := ByOwner(db, req.user).value;
      CategoryPositionValues(db, r);
      RoomIs(CategoryPositions(db, r));
      assert (set c | c in db.categories && Owns(db, req.user, c) :: db.categories[c].position) ==
             set c | c in db.categories && db.categories[c].restaurant == r :: db.categories[c].position;
    }
  }

  lemma ReorderAnswered(db: Db, req: Request, env: Env)
    requires Valid(db) && req.Reorder?
    ensures Told(Write(db, req, env)) == Answer(db, req)
  {
    hide ByOwner;
    OwnerFound(db, req.user);
    if ByOwner(db, req.user).Some? {
      var r := ByOwner(db, req.user).value;
      if AllBelongTo(db, req.ids, r) {
        forall c | c in req.ids ensures Owns(db, req.user, c) {}
      } else {
        var i :| 0 <= i < |req.ids| && !(req.ids[i] in db.categories && db.categories[req.ids[i]].restaurant == r);
        assert req.ids[i] in req.ids && !Owns(db, req.user, req.ids[i]);
      }
    }
  }

  lemma CategoryAnswered(db: Db, req: Request, env: Env)
    requires Valid(db) && (req.UpdateCategory? || req.DeleteCategory?)
    ensures Told(Write(db, req, env)) == Answer(db, req)
  {
  }

  lemma NewDishAnswered(db: Db, req: Request, env: Env)
    requires Valid(db) && req.CreateDish?
    ensures Told(Write(db, req, env)) == Answer(db, req)
  {
    hide AfterGreatest, NoRoom;
    DishPositionValues(db, req.category);
    RoomIs(DishPositions(db, req.category));
  }

  lemma GuardsAnswer(db: Db, user: Id, c: Id, d: Id)
    requires Valid(db)
    ensures CategoryAnswer(db, user, c) ==
            match DishCategoryGuard(db, c, user) case None => Done case Some(e) => Failed(e)
    ensures DishAnswer(db, user, d) == match DishGuard(db, d, user) case None => Done case Some(e) => Failed(e)
  {
  }

  lemma DishAnswered(db: Db, req: Request, env: Env)
    requires Valid(db) && (req.UpdateDish? || req.DeleteDish? || req.ToggleDish?)
    ensures Told(Write(db, req, env)) == Answer(db, req)
  {
    hide DishCategoryGuard, DishGuard, CategoryAnswer, DishAnswer;
    var target := if req.UpdateDish? && req.dishPatch.category.Set? then req.dishPatch.category.value else 0;
    GuardsAnswer(db, req.user, target, req.dish);
  }

  lemma Answered(db: Db, req: Request, env: Env)
    requires Valid(db)
    ensures Told(Write(db, req, env)) == Answer(db, req)
  {
    hide Write, Answer;
    if req.CreateRestaurant? || req.UpdateRestaurant? || req.DeleteRestaurant? { RestaurantAnswered(db, req, env); }
    else if req.CreateCategory? { NewCategoryAnswered(db, req, env); }
    else if req.UpdateCategory? || req.DeleteCategory? { CategoryAnswered(db, req, env); }
    else if req.Reorder? { ReorderAnswered(db, req, env); }
    else if req.CreateDish? { NewDishAnswered(db, req, env); }
    else { DishAnswered(db, req, env); }
  }

  /** In every reachable state every request gets the answer that the rows call for. */
  lemma AnsweredInEveryRun(events: seq<Event>, req: Request, env: Env)
    ensures Serve(Run(START, events).sys, Owner(req), env).0 == Answer(Run(START, events).sys.db, req)
  {
    ReachableCoherent(events);
    Answered(Run(START, events).sys.db, req, env);
  }
}
