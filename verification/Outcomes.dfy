/** What an accepted request leaves in each field of each row, said of the rows themselves. */
module Outcomes {
  import opened Clock
  import opened Wrappers
  import opened Ordering
  import opened Catalogue
  import opened Menus
  import Slugs
  import SlugAllocator

  // ----- Fields

  /** A field that admits no null: what was named is there, what was left out is kept. */
  predicate Takes<T(==)>(patch: Patch<T>, before: T, after: T) {
    && (patch.Set? ==> after == patch.value)
    && (patch.Unset? ==> after == before)
  }

  predicate TakesNullable<T(==)>(patch: Patch<T>, before: Option<T>, after: Option<T>) {
    && (patch.Set? ==> after == Some(patch.value))
    && (patch.Null? ==> after == None)
    && (patch.Unset? ==> after == before)
  }

  /** Nothing but row `d` of the dishes may differ. */
  ghost predicate OnlyDish(before: Db, after: Db, d: Id) {
    && after.restaurants == before.restaurants && after.categories == before.categories
    && d in after.dishes
    && (forall e :: e != d ==> (e in after.dishes <==> e in before.dishes))
    && (forall e :: e != d && e in before.dishes ==> after.dishes[e] == before.dishes[e])
  }

  ghost predicate OnlyCategory(before: Db, after: Db, c: Id) {
    && after.restaurants == before.restaurants && after.dishes == before.dishes
    && c in after.categories
    && (forall e :: e != c ==> (e in after.categories <==> e in before.categories))
    && (forall e :: e != c && e in before.categories ==> after.categories[e] == before.categories[e])
  }

  ghost predicate OnlyRestaurant(before: Db, after: Db, r: Id) {
    && after.categories == before.categories && after.dishes == before.dishes
    && r in after.restaurants
    && (forall s :: s != r ==> (s in after.restaurants <==> s in before.restaurants))
    && (forall s :: s != r && s in before.restaurants ==> after.restaurants[s] == before.restaurants[s])
  }

  // ----- Dishes

  /** An accepted update gives every named field its value, keeps the others, and keeps the stamps. */
  lemma UpdatedDish(db: Db, user: Id, d: Id, patch: DishPatch, env: Env)
    requires Write(db, UpdateDish(user, d, patch), env).Ok?
    ensures var next := After(db, UpdateDish(user, d, patch), env);
            && d in db.dishes && OnlyDish(db, next, d)
            && var was, row := db.dishes[d], next.dishes[d];
            && Takes(patch.category, was.category, row.category)
            && Takes(patch.name, was.name, row.name)
            && TakesNullable(patch.description, was.description, row.description)
            && Takes(patch.price, was.price, row.price)
            && TakesNullable(patch.salePrice, was.salePrice, row.salePrice)
            && TakesNullable(patch.image, was.image, row.image)
            && Takes(patch.available, was.available, row.available)
            && Takes(patch.featured, was.featured, row.featured)
            && TakesNullable(patch.tags, was.tags, row.tags)
            && Takes(patch.position, was.position, row.position)
            && row.created == was.created && row.deleted == was.deleted == None
  {
    hide DishCategoryGuard, MoveGuard, DishPatchFits;
  }

  /** An accepted toggle flips availability, and an accepted deletion sets the deletion stamp to now;
      neither touches any other field or row. */
  lemma ToggledOrDeleted(db: Db, req: Request, env: Env)
    requires (req.ToggleDish? || req.DeleteDish?) && Write(db, req, env).Ok?
    ensures var next := After(db, req, env);
            && req.dish in db.dishes && OnlyDish(db, next, req.dish)
            && var was, row := db.dishes[req.dish], next.dishes[req.dish];
            && row.available == (if req.ToggleDish? then !was.available else was.available)
            && was.deleted == None && row.deleted == (if req.DeleteDish? then Some(env.now) else None)
            && row.category == was.category && row.name == was.name && row.description == was.description
            && row.price == was.price && row.salePrice == was.salePrice && row.image == was.image
            && row.featured == was.featured && row.tags == was.tags
            && row.position == was.position && row.created == was.created
  {
    hide DishCategoryGuard;
  }

  /** A new dish holds what was given, is stamped now, and is placed after the category's dishes that are
      not deleted: one beyond their greatest position, or at zero if that is zero or there are none. */
  lemma CreatedDish(db: Db, user: Id, c: Id, data: DishData, env: Env)
    requires env.id !in db.dishes && Write(db, CreateDish(user, c, data), env).Ok?
    ensures var next := After(db, CreateDish(user, c, data), env);
            && OnlyDish(db, next, env.id)
            && var row := next.dishes[env.id];
            && row.category == c && row.name == data.name && row.description == data.description
            && row.price == data.price && row.salePrice == data.salePrice && row.image == data.image
            && row.available == data.available && row.featured == data.featured && row.tags == data.tags
            && row.created == env.now && row.deleted == None
            && Follows(row.position, set d | d in db.dishes && db.dishes[d].category == c
                                             && db.dishes[d].deleted == None :: db.dishes[d].position)
  {
    hide DishCategoryGuard, AfterGreatest;
    PositionFollows(DishPositions(db, c));
    DishPositionValues(db, c);
  }

  /** `p` is one above the greatest of the positions; but zero if that is zero or there are none. */
  predicate Follows(p: int, positions: set<int>) {
    if positions == {} || (0 in positions && forall q :: q in positions ==> q <= 0) then p == 0
    else p - 1 in positions && forall q :: q in positions ==> q < p
  }

  lemma PositionFollows(positions: map<Id, int>)
    ensures Follows(AfterGreatest(Greatest(positions)), positions.Values)
  {
    if positions != map[] {
      var g := Greatest(positions).value;
      assert g in positions.Values;
      forall q | q in positions.Values ensures q <= g {
        var x :| x in positions && positions[x] == q;
      }
    }
  }

  lemma DishPositionValues(db: Db, c: Id)
    ensures DishPositions(db, c).Values ==
            set d | d in db.dishes && db.dishes[d].category == c
                    && db.dishes[d].deleted == None :: db.dishes[d].position
  {
    var positions := DishPositions(db, c);
    forall d | d in db.dishes && db.dishes[d].category == c && db.dishes[d].deleted == None
      ensures db.dishes[d].position in positions.Values
    {
      assert d in positions;
    }
  }

  lemma CategoryPositionValues(db: Db, r: Id)
    ensures CategoryPositions(db, r).Values ==
            set c | c in db.categories && db.categories[c].restaurant == r :: db.categories[c].position
  {
    var positions := CategoryPositions(db, r);
    forall c | c in db.categories && db.categories[c].restaurant == r
      ensures db.categories[c].position in positions.Values
    {
      assert c in positions;
    }
  }

  // ----- Categories

  lemma UpdatedCategory(db: Db, user: Id, c: Id, patch: CategoryPatch, env: Env)
    requires Write(db, UpdateCategory(user, c, patch), env).Ok?
    ensures var next := After(db, UpdateCategory(user, c, patch), env);
            && c in db.categories && OnlyCategory(db, next, c)
            && var was, row := db.categories[c], next.categories[c];
            && Takes(patch.name, was.name, row.name)
            && TakesNullable(patch.description, was.description, row.description)
            && Takes(patch.active, was.active, row.active)
            && Takes(patch.position, was.position, row.position)
            && row.restaurant == was.restaurant && row.created == was.created
  {
  }

  /** Switching a category off hides all of it, on every menu. */
  lemma SwitchedOffIsHidden(db: Db, user: Id, c: Id, patch: CategoryPatch, env: Env, r: Id, d: Id)
    requires patch.active == Set(false) && Write(db, UpdateCategory(user, c, patch), env).Ok?
    requires r in After(db, UpdateCategory(user, c, patch), env).restaurants
    ensures !Shows(BuildMenu(After(db, UpdateCategory(user, c, patch), env), r), c, d)
  {
    hide Write, Shows, BuildMenu;
    UpdatedCategory(db, user, c, patch, env);
    MenuHolds(After(db, UpdateCategory(user, c, patch), env), r, c, d);
  }

  lemma CreatedCategory(db: Db, user: Id, name: string, description: Option<string>, active: bool, env: Env)
    requires UniqueRestaurants(db) && env.id !in db.categories
    requires Write(db, CreateCategory(user, name, description, active), env).Ok?
    ensures var next := After(db, CreateCategory(user, name, description, active), env);
            && OnlyCategory(db, next, env.id)
            && var row := next.categories[env.id];
            && row.restaurant in db.restaurants && db.restaurants[row.restaurant].owner == user
            && row.name == name && row.description == description && row.active == active
            && row.created == env.now
            && Follows(row.position,
                       set c | c in db.categories
                               && db.categories[c].restaurant == row.restaurant :: db.categories[c].position)
  {
    hide AfterGreatest;
    var r := ByOwner(db, user).value;
    PositionFollows(CategoryPositions(db, r));
    CategoryPositionValues(db, r);
  }

  /** An accepted deletion removes the category and exactly its dishes, none of which is live. */
  lemma DeletedCategory(db: Db, user: Id, c: Id, env: Env)
    requires Write(db, DeleteCategory(user, c), env).Ok?
    ensures var next := After(db, DeleteCategory(user, c), env);
            && next.restaurants == db.restaurants
            && c in db.categories && next.categories.Keys == db.categories.Keys - {c}
            && (forall e :: e in next.categories ==> next.categories[e] == db.categories[e])
            && (forall d :: d in next.dishes <==> d in db.dishes && db.dishes[d].category != c)
            && (forall d :: d in next.dishes ==> next.dishes[d] == db.dishes[d])
            && (forall d :: d in db.dishes && db.dishes[d].category == c ==> db.dishes[d].deleted != None)
  {
  }

  /** An accepted reorder gives each listed category the place of its last mention and changes nothing
      else of it, nor any other row. */
  lemma ReorderedCategories(db: Db, user: Id, ids: seq<Id>, env: Env, k: nat)
    requires Write(db, Request.Reorder(user, ids), env).Ok? && k < |ids| && ids[k] !in ids[k + 1..]
    ensures var next := After(db, Request.Reorder(user, ids), env);
            && next.restaurants == db.restaurants && next.dishes == db.dishes
            && next.categories.Keys == db.categories.Keys
            && ids[k] in db.categories && next.categories[ids[k]].position == k
            && (forall c :: c in db.categories && c !in ids ==> next.categories[c] == db.categories[c])
            && (forall c :: c in db.categories ==> SameButPosition(db.categories[c], next.categories[c]))
  {
    assert ids[k] in ids;
    LastMention(ids, k);
  }

  lemma LastMention(ids: seq<Id>, k: nat)
    requires k < |ids| && ids[k] !in ids[k + 1..]
    ensures LastIndex(ids, ids[k]) == k
  {
    var l := LastIndex(ids, ids[k]);
    assert forall i :: k < i < |ids| ==> ids[i] == ids[k + 1..][i - k - 1];
    assert forall i :: l < i < |ids| ==> ids[i] == ids[l + 1..][i - l - 1];
    assert !(l < k) && !(k < l);
  }

  predicate SameButPosition(was: Category, row: Category) {
    && row.restaurant == was.restaurant && row.name == was.name && row.description == was.description
    && row.active == was.active && row.created == was.created
  }

  // ----- Restaurants

  /** An accepted update gives every named detail its value and keeps the others; the owner stays, and
      name and slug move only together. */
  lemma UpdatedRestaurant(db: Db, user: Id, rename: Patch<string>, patch: InfoPatch, env: Env, r: Id)
    requires UniqueRestaurants(db) && r in db.restaurants && db.restaurants[r].owner == user
    requires Write(db, UpdateRestaurant(user, rename, patch), env).Ok?
    ensures var next := After(db, UpdateRestaurant(user, rename, patch), env);
            && OnlyRestaurant(db, next, r)
            && var was, row := db.restaurants[r], next.restaurants[r];
            && Takes(rename, was.name, row.name) && (rename.Unset? ==> row.slug == was.slug)
            && TakesNullable(patch.description, was.info.description, row.info.description)
            && TakesNullable(patch.logo, was.info.logo, row.info.logo)
            && TakesNullable(patch.phone, was.info.phone, row.info.phone)
            && TakesNullable(patch.address, was.info.address, row.info.address)
            && TakesNullable(patch.hours, was.info.hours, row.info.hours)
            && row.owner == was.owner
  {
    hide TakenSlugs, SlugAllocator.FirstFree, Slugs.GenerateSlug;
    assert ByOwner(db, user) == Some(r);
  }

  /** `slug` is the name's slug, or that with the least number that makes it nobody else's. */
  ghost predicate FirstFreeSlug(db: Db, except: Option<Id>, name: string, slug: string) {
    exists k: nat :: slug == Numbered(name, k) && !Held(db, except, slug)
                     && forall j :: 0 <= j < k ==> Held(db, except, Numbered(name, j))
  }

  function Numbered(name: string, k: nat): string {
    Slugs.GenerateSlug(name) + if k == 0 then "" else "-" + SlugAllocator.Digits(k)
  }

  ghost predicate Held(db: Db, except: Option<Id>, slug: string) {
    exists r :: r in db.restaurants && Some(r) != except && db.restaurants[r].slug == slug
  }

  lemma AllocatedIsFirst(db: Db, except: Option<Id>, name: string)
    ensures FirstFreeSlug(db, except, name,
                          SlugAllocator.FirstFree(Slugs.GenerateSlug(name), TakenSlugs(db, except)))
  {
    var base, taken := Slugs.GenerateSlug(name), TakenSlugs(db, except);
    var k := SlugAllocator.FreeIndex(base, taken);
    SlugAllocator.FirstFreeIsFirst(base, taken, k);
    forall slug ensures Held(db, except, slug) <==> slug in taken {}
    forall j: nat ensures Numbered(name, j) == SlugAllocator.Candidate(base, j) {
      assert base + ("-" + SlugAllocator.Digits(j)) == base + "-" + SlugAllocator.Digits(j);
      assert base + "" == base;
    }
  }

  /** A new restaurant holds what was given, at the first free slug of its name. */
  lemma CreatedRestaurant(db: Db, user: Id, name: string, info: Info, env: Env)
    requires env.id !in db.restaurants && Write(db, CreateRestaurant(user, name, info), env).Ok?
    ensures var next := After(db, CreateRestaurant(user, name, info), env);
            && OnlyRestaurant(db, next, env.id)
            && var row := next.restaurants[env.id];
            && row.owner == user && row.name == name && row.info == info && FirstFreeSlug(db, None, name, row.slug)
  {
    hide TakenSlugs, SlugAllocator.FirstFree, Slugs.GenerateSlug, FirstFreeSlug;
    AllocatedIsFirst(db, None, name);
  }

  /** A rename moves the slug to the first one of the new name that no other restaurant holds. */
  lemma RenamedRestaurant(db: Db, user: Id, name: string, patch: InfoPatch, env: Env, r: Id)
    requires UniqueRestaurants(db) && r in db.restaurants && db.restaurants[r].owner == user
    ensures var next := After(db, UpdateRestaurant(user, Set(name), patch), env);
            && r in next.restaurants && next.restaurants[r].name == name
            && FirstFreeSlug(db, Some(r), name, next.restaurants[r].slug)
  {
    hide TakenSlugs, SlugAllocator.FirstFree, Slugs.GenerateSlug, FirstFreeSlug, PatchInfo;
    assert ByOwner(db, user) == Some(r);
    AllocatedIsFirst(db, Some(r), name);
  }

  /** An accepted deletion removes the restaurant, exactly its categories and exactly their dishes. */
  lemma DeletedRestaurant(db: Db, user: Id, env: Env, r: Id)
    requires UniqueRestaurants(db) && Linked(db) && r in db.restaurants && db.restaurants[r].owner == user
    ensures var next := After(db, DeleteRestaurant(user), env);
            && next.restaurants == db.restaurants - {r}
            && (forall c :: c in next.categories <==> c in db.categories && db.categories[c].restaurant != r)
            && (forall c :: c in next.categories ==> next.categories[c] == db.categories[c])
            && (forall d :: d in next.dishes <==>
                  d in db.dishes && db.categories[db.dishes[d].category].restaurant != r)
            && (forall d :: d in next.dishes ==> next.dishes[d] == db.dishes[d])
  {
    assert ByOwner(db, user) == Some(r);
  }
}
