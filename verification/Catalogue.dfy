/** The tables behind the menu, and what each owner request does to them. */
module Catalogue {
  import opened Clock
  import opened Wrappers
  import opened Ordering
  import Slugs
  import SlugAllocator

  // ----- Rows

  datatype Info = Info(
    description: Option<string>, logo: Option<string>, phone: Option<string>,
    address: Option<string>, hours: Option<string>)

  datatype Restaurant = Restaurant(owner: Id, name: string, slug: string, info: Info)

  datatype Category = Category(
    restaurant: Id, name: string, description: Option<string>,
    position: int, active: bool, created: Time)

  datatype Dish = Dish(
    category: Id, name: string, description: Option<string>, price: int, salePrice: Option<int>,
    image: Option<string>, available: bool, featured: bool, tags: Option<seq<string>>,
    position: int, created: Time, deleted: Option<Time>)

  datatype Db = Db(restaurants: map<Id, Restaurant>, categories: map<Id, Category>, dishes: map<Id, Dish>)

  // ----- Requests

  datatype InfoPatch = InfoPatch(
    description: Patch<string>, logo: Patch<string>, phone: Patch<string>,
    address: Patch<string>, hours: Patch<string>)

  datatype CategoryPatch = CategoryPatch(
    name: Patch<string>, description: Patch<string>, active: Patch<bool>, position: Patch<int>)

  datatype DishPatch = DishPatch(
    category: Patch<Id>, name: Patch<string>, description: Patch<string>, price: Patch<int>,
    salePrice: Patch<int>, image: Patch<string>, available: Patch<bool>, featured: Patch<bool>,
    tags: Patch<seq<string>>, position: Patch<int>)

  datatype DishData = DishData(
    name: string, description: Option<string>, price: int, salePrice: Option<int>,
    image: Option<string>, available: bool, featured: bool, tags: Option<seq<string>>)

  datatype Request =
    | CreateRestaurant(user: Id, name: string, info: Info)
    | UpdateRestaurant(user: Id, rename: Patch<string>, infoPatch: InfoPatch)
    | DeleteRestaurant(user: Id)
    | CreateCategory(user: Id, name: string, description: Option<string>, active: bool)
    | UpdateCategory(user: Id, category: Id, categoryPatch: CategoryPatch)
    | DeleteCategory(user: Id, category: Id)
    | Reorder(user: Id, ids: seq<Id>)
    | CreateDish(user: Id, category: Id, data: DishData)
    | UpdateDish(user: Id, dish: Id, dishPatch: DishPatch)
    | DeleteDish(user: Id, dish: Id)
    | ToggleDish(user: Id, dish: Id)
  {
    predicate Creates() { CreateRestaurant? || CreateCategory? || CreateDish? }
  }

  /** What a request draws from outside the tables: the clock and a fresh row id. */
  datatype Env = Env(now: Time, id: Id)

  // ----- Table invariants: unique keys, foreign keys, and the assumption on timestamps

  ghost predicate UniqueRestaurants(db: Db) {
    forall r, s :: r in db.restaurants && s in db.restaurants && r != s ==>
      && db.restaurants[r].slug != db.restaurants[s].slug
      && db.restaurants[r].owner != db.restaurants[s].owner
  }

  ghost predicate Linked(db: Db) {
    && (forall c :: c in db.categories ==> db.categories[c].restaurant in db.restaurants)
    && (forall d :: d in db.dishes ==> db.dishes[d].category in db.categories)
  }

  ghost predicate DistinctStamps(db: Db) {
    && (forall c, e :: c in db.categories && e in db.categories && c != e ==>
          db.categories[c].created != db.categories[e].created)
    && (forall d, e :: d in db.dishes && e in db.dishes && d != e ==>
          db.dishes[d].created != db.dishes[e].created)
  }

  ghost predicate Valid(db: Db) {
    UniqueRestaurants(db) && Linked(db) && DistinctStamps(db)
  }

  /** A drawn id is new, and a new row is stamped later than every row before it. */
  ghost predicate Fresh(db: Db, env: Env) {
    && env.id !in db.restaurants && env.id !in db.categories && env.id !in db.dishes
    && (forall c :: c in db.categories ==> db.categories[c].created < env.now)
    && (forall d :: d in db.dishes ==> db.dishes[d].created < env.now)
  }

  const EMPTY := Db(map[], map[], map[])

  // ----- Queries

  ghost function FindOwner(rows: map<Id, Restaurant>, user: Id): Option<Id> {
    if exists r :: r in rows && rows[r].owner == user then
      var r :| r in rows && rows[r].owner == user;
      Some(r)
    else None
  }

  ghost function FindSlug(rows: map<Id, Restaurant>, slug: string): Option<Id> {
    if exists r :: r in rows && rows[r].slug == slug then
      var r :| r in rows && rows[r].slug == slug;
      Some(r)
    else None
  }

  /** `get_by_owner_id` and `get_by_slug`; the unique columns leave at most one row each. */
  ghost function ByOwner(db: Db, user: Id): Option<Id> { FindOwner(db.restaurants, user) }

  ghost function BySlug(db: Db, slug: string): Option<Id> { FindSlug(db.restaurants, slug) }

  /** The slugs of the restaurants other than the excluded one. */
  ghost function TakenSlugs(db: Db, exclude: Option<Id>): set<string> {
    set r | r in db.restaurants && exclude != Some(r) :: db.restaurants[r].slug
  }

  predicate Live(dish: Dish) { dish.deleted == None }

  ghost predicate HasLiveDishes(db: Db, c: Id) {
    exists d :: d in db.dishes && db.dishes[d].category == c && Live(db.dishes[d])
  }

  /** The category service's check: None, or the error to raise. */
  function CategoryGuard(db: Db, c: Id, user: Id): Option<Error> {
    if c !in db.categories then Some(NotFound)
    else if db.categories[c].restaurant !in db.restaurants then Some(NotFound)
    else if db.restaurants[db.categories[c].restaurant].owner != user then Some(Forbidden)
    else None
  }

  /** The dish service's check of the same chain; it reports a missing restaurant as Forbidden. */
  function DishCategoryGuard(db: Db, c: Id, user: Id): Option<Error> {
    if c !in db.categories then Some(NotFound)
    else if db.categories[c].restaurant !in db.restaurants then Some(Forbidden)
    else if db.restaurants[db.categories[c].restaurant].owner != user then Some(Forbidden)
    else None
  }

  /** `get_dish`: deleted dishes are not found. */
  function DishGuard(db: Db, d: Id, user: Id): Option<Error> {
    if d !in db.dishes || !Live(db.dishes[d]) then Some(NotFound)
    else DishCategoryGuard(db, db.dishes[d].category, user)
  }

  lemma {:induction false} GreatestExists(rows: set<Id>, positions: map<Id, int>)
    requires rows <= positions.Keys && rows != {}
    ensures exists g :: g in rows && forall x :: x in rows ==> positions[x] <= positions[g]
    decreases |rows|
  {
    var y :| y in rows;
    var rest := rows - {y};
    if rest == {} {
      assert rows == {y};
    } else {
      GreatestExists(rest, positions);
      var m :| m in rest && forall x :: x in rest ==> positions[x] <= positions[m];
      var g := if positions[m] < positions[y] then y else m;
      assert g in rows && forall x :: x in rows ==> positions[x] <= positions[g];
    }
  }

  /** SQL `MAX` over the rows, null when there are none. */
  ghost function Greatest(positions: map<Id, int>): (m: Option<int>)
    ensures m == None <==> positions == map[]
    ensures m.Some? ==> m.value in positions.Values && forall x :: x in positions ==> positions[x] <= m.value
  {
    if positions == map[] then None
    else
      GreatestExists(positions.Keys, positions);
      var g :| g in positions && forall x :: x in positions ==> positions[x] <= positions[g];
      Some(positions[g])
  }

  /** `(max_position or -1) + 1`: a maximum of zero counts as no maximum. */
  function AfterGreatest(greatest: Option<int>): int {
    (if greatest.Some? && greatest.value != 0 then greatest.value else -1) + 1
  }

  function CategoryPositions(db: Db, r: Id): map<Id, int> {
    map c | c in db.categories && db.categories[c].restaurant == r :: db.categories[c].position
  }

  function DishPositions(db: Db, c: Id): map<Id, int> {
    map d | d in db.dishes && db.dishes[d].category == c && Live(db.dishes[d]) :: db.dishes[d].position
  }

  /** Postgres INTEGER; a position outside it is refused by the database. */
  predicate Int32(p: int) { -0x8000_0000 <= p < 0x8000_0000 }

  // ----- What each request does

  function PatchInfo(info: Info, p: InfoPatch): Info {
    Info(p.description.OnNullable(info.description), p.logo.OnNullable(info.logo),
         p.phone.OnNullable(info.phone), p.address.OnNullable(info.address),
         p.hours.OnNullable(info.hours))
  }

  function PatchCategory(c: Category, p: CategoryPatch): Category {
    c.(name := p.name.OnRequired(c.name), description := p.description.OnNullable(c.description),
       active := p.active.OnRequired(c.active), position := p.position.OnRequired(c.position))
  }

  predicate CategoryPatchFits(p: CategoryPatch) {
    !p.name.Null? && !p.active.Null? && !p.position.Null? && (p.position.Set? ==> Int32(p.position.value))
  }

  function PatchDish(d: Dish, p: DishPatch): Dish {
    d.(category := p.category.OnRequired(d.category), name := p.name.OnRequired(d.name),
       description := p.description.OnNullable(d.description), price := p.price.OnRequired(d.price),
       salePrice := p.salePrice.OnNullable(d.salePrice), image := p.image.OnNullable(d.image),
       available := p.available.OnRequired(d.available), featured := p.featured.OnRequired(d.featured),
       tags := p.tags.OnNullable(d.tags), position := p.position.OnRequired(d.position))
  }

  predicate DishPatchFits(p: DishPatch) {
    && !p.name.Null? && !p.price.Null? && !p.available.Null? && !p.featured.Null?
    && !p.position.Null? && (p.position.Set? ==> Int32(p.position.value))
  }

  /** The error of a request to move a dish, if it asks to. */
  function MoveGuard(db: Db, move: Patch<Id>, user: Id): Option<Error> {
    match move
    case Unset => None
    case Null => Some(NotFound)
    case Set(c) => DishCategoryGuard(db, c, user)
  }

  function NewDish(c: Id, data: DishData, position: int, now: Time): Dish {
    Dish(c, data.name, data.description, data.price, data.salePrice, data.image,
         data.available, data.featured, data.tags, position, now, None)
  }

  /** The index of the last occurrence. */
  function LastIndex(ids: seq<Id>, c: Id): (k: nat)
    requires c in ids
    ensures k < |ids| && ids[k] == c && c !in ids[k + 1..]
  {
    var n := |ids| - 1;
    if ids[n] == c then n
    else
      assert ids == ids[..n] + [ids[n]];
      var k := LastIndex(ids[..n], c);
      assert ids[k + 1..] == ids[..n][k + 1..] + [ids[n]];
      k
  }

  /** Each listed category at the index of its last occurrence, all others untouched. */
  function Placed(categories: map<Id, Category>, ids: seq<Id>): map<Id, Category> {
    map c | c in categories ::
      if c in ids then categories[c].(position := LastIndex(ids, c)) else categories[c]
  }

  ghost predicate AllBelongTo(db: Db, ids: seq<Id>, r: Id) {
    forall i :: 0 <= i < |ids| ==> ids[i] in db.categories && db.categories[ids[i]].restaurant == r
  }

  /** `session.delete(restaurant)` with its cascades. */
  function WithoutRestaurant(db: Db, r: Id): Db {
    Db(db.restaurants - {r},
       map c | c in db.categories && db.categories[c].restaurant != r :: db.categories[c],
       map d | d in db.dishes && !(db.dishes[d].category in db.categories
                                   && db.categories[db.dishes[d].category].restaurant == r) :: db.dishes[d])
  }

  /** `session.delete(category)` with its cascade. */
  function WithoutCategory(db: Db, c: Id): Db {
    Db(db.restaurants,
       db.categories - {c},
       map d | d in db.dishes && db.dishes[d].category != c :: db.dishes[d])
  }

  ghost function Write(db: Db, req: Request, env: Env): Result<Db> {
    match req
    case CreateRestaurant(user, name, info) =>
      if ByOwner(db, user).Some? then Err(Conflict)
      else
        var slug := SlugAllocator.FirstFree(Slugs.GenerateSlug(name), TakenSlugs(db, None));
        Ok(db.(restaurants := db.restaurants[env.id := Restaurant(user, name, slug, info)]))

    case UpdateRestaurant(user, rename, infoPatch) =>
      (match ByOwner(db, user)
       case None => Err(NotFound)
       case Some(r) =>
         if rename.Null? then Err(ServerError)
         else
           var row := db.restaurants[r];
           var slug := if rename.Unset? then row.slug
                       else SlugAllocator.FirstFree(Slugs.GenerateSlug(rename.value), TakenSlugs(db, Some(r)));
           Ok(db.(restaurants := db.restaurants[r :=
                    row.(name := rename.OnRequired(row.name), slug := slug,
                         info := PatchInfo(row.info, infoPatch))])))

    case DeleteRestaurant(user) =>
      (match ByOwner(db, user)
       case None => Err(NotFound)
       case Some(r) => Ok(WithoutRestaurant(db, r)))

    case CreateCategory(user, name, description, active) =>
      (match ByOwner(db, user)
       case None => Err(NotFound)
       case Some(r) =>
         var position := AfterGreatest(Greatest(CategoryPositions(db, r)));
         if !Int32(position) then Err(ServerError)
         else Ok(db.(categories := db.categories[env.id :=
                       Category(r, name, description, position, active, env.now)])))

    case UpdateCategory(user, c, patch) =>
      var guard := CategoryGuard(db, c, user);
      if guard.Some? then Err(guard.value)
      else if !CategoryPatchFits(patch) then Err(ServerError)
      else Ok(db.(categories := db.categories[c := PatchCategory(db.categories[c], patch)]))

    case DeleteCategory(user, c) =>
      var guard := CategoryGuard(db, c, user);
      if guard.Some? then Err(guard.value)
      else if HasLiveDishes(db, c) then Err(Conflict)
      else Ok(WithoutCategory(db, c))

    case Reorder(user, ids) =>
      (match ByOwner(db, user)
       case None => Err(NotFound)
       case Some(r) =>
         if !AllBelongTo(db, ids, r) then Err(BadRequest)
         else Ok(db.(categories := Placed(db.categories, ids))))

    case CreateDish(user, c, data) =>
      var guard := DishCategoryGuard(db, c, user);
      if guard.Some? then Err(guard.value)
      else
        var position := AfterGreatest(Greatest(DishPositions(db, c)));
        if !Int32(position) then Err(ServerError)
        else Ok(db.(dishes := db.dishes[env.id := NewDish(c, data, position, env.now)]))

    case UpdateDish(user, d, patch) =>
      var guard := DishGuard(db, d, user);
      if guard.Some? then Err(guard.value)
      else
        var move := MoveGuard(db, patch.category, user);
        if move.Some? then Err(move.value)
        else if !DishPatchFits(patch) then Err(ServerError)
        else Ok(db.(dishes := db.dishes[d := PatchDish(db.dishes[d], patch)]))

    case DeleteDish(user, d) =>
      var guard := DishGuard(db, d, user);
      if guard.Some? then Err(guard.value)
      else Ok(db.(dishes := db.dishes[d := db.dishes[d].(deleted := Some(env.now))]))

    case ToggleDish(user, d) =>
      var guard := DishGuard(db, d, user);
      if guard.Some? then Err(guard.value)
      else Ok(db.(dishes := db.dishes[d := db.dishes[d].(available := !db.dishes[d].available)]))
  }

  /** The tables after a request: a failed one leaves them alone. */
  ghost function After(db: Db, req: Request, env: Env): Db {
    var w := Write(db, req, env);
    if w.Ok? then w.value else db
  }

  lemma SlugRowKeepsUnique(db: Db, r: Id, row: Restaurant, base: string)
    requires UniqueRestaurants(db)
    requires row.slug == SlugAllocator.FirstFree(base, TakenSlugs(db, Some(r)))
    requires forall s :: s in db.restaurants && s != r ==> db.restaurants[s].owner != row.owner
    ensures UniqueRestaurants(db.(restaurants := db.restaurants[r := row]))
  {
    SlugAllocator.FirstFreeIsFirst(base, TakenSlugs(db, Some(r)), 0);
    assert forall s :: s in db.restaurants && s != r ==> db.restaurants[s].slug in TakenSlugs(db, Some(r));
  }

  lemma UniqueKept(db: Db, req: Request, env: Env)
    requires UniqueRestaurants(db) && (req.CreateRestaurant? ==> env.id !in db.restaurants)
    ensures UniqueRestaurants(After(db, req, env))
  {
    var next := After(db, req, env);
    if req.CreateRestaurant? && next != db {
      assert TakenSlugs(db, None) == TakenSlugs(db, Some(env.id));
      SlugRowKeepsUnique(db, env.id, next.restaurants[env.id], Slugs.GenerateSlug(req.name));
    } else if req.UpdateRestaurant? && next != db {
      var r := ByOwner(db, req.user).value;
      if req.rename.Set? {
        SlugRowKeepsUnique(db, r, next.restaurants[r], Slugs.GenerateSlug(req.rename.value));
      }
    } else {
      assert forall r :: r in next.restaurants ==> r in db.restaurants && next.restaurants[r] == db.restaurants[r];
    }
  }

  lemma LinkedKept(db: Db, req: Request, env: Env)
    requires Linked(db)
    ensures Linked(After(db, req, env))
  {
    match req
    case _ =>
  }

  lemma StampsKept(db: Db, req: Request, env: Env)
    requires DistinctStamps(db) && (req.Creates() ==> Fresh(db, env))
    ensures DistinctStamps(After(db, req, env))
  {
    match req
    case _ =>
  }

  /** Every request keeps unique slugs and owners, foreign keys and distinct stamps. */
  lemma ValidKept(db: Db, req: Request, env: Env)
    requires Valid(db) && (req.Creates() ==> Fresh(db, env))
    ensures Valid(After(db, req, env))
  {
    UniqueKept(db, req, env);
    LinkedKept(db, req, env);
    StampsKept(db, req, env);
  }
}
