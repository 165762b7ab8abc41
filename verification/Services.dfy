/** The services and repositories as they run: rows changed in place, then the menus cleared. */
module Services {
  import opened Wrappers
  import opened Ordering
  import opened Catalogue
  import opened Menus
  import opened Caching
  import opened Serving
  import Slugs
  import SlugAllocator

  // ----- The tables and the repositories' queries

  class Store {
    var restaurants: map<Id, Restaurant>
    var categories: map<Id, Category>
    var dishes: map<Id, Dish>

    function Tables(): Db reads this { Db(restaurants, categories, dishes) }

    constructor ()
      ensures Tables() == EMPTY && Valid(Tables())
    {
      restaurants, categories, dishes := map[], map[], map[];
    }

    method GetByOwner(user: Id) returns (r: Option<Id>)
      requires Valid(Tables())
      ensures r == ByOwner(Tables(), user)
    {
      if s :| s in restaurants && restaurants[s].owner == user { return Some(s); }
      return None;
    }

    method GetBySlug(slug: string) returns (r: Option<Id>)
      requires Valid(Tables())
      ensures r == BySlug(Tables(), slug)
    {
      if s :| s in restaurants && restaurants[s].slug == slug { return Some(s); }
      return None;
    }

    method GetRestaurant(r: Id) returns (row: Option<Restaurant>)
      ensures row == if r in restaurants then Some(restaurants[r]) else None
    {
      if r in restaurants { return Some(restaurants[r]); }
      return None;
    }

    method GetCategory(c: Id) returns (row: Option<Category>)
      ensures row == if c in categories then Some(categories[c]) else None
    {
      if c in categories { return Some(categories[c]); }
      return None;
    }

    /** Deleted dishes are not found. */
    method GetDish(d: Id) returns (row: Option<Dish>)
      ensures row == if d in dishes && Live(dishes[d]) then Some(dishes[d]) else None
    {
      if d in dishes && dishes[d].deleted == None { return Some(dishes[d]); }
      return None;
    }

    method DishesIn(c: Id) returns (ids: set<Id>)
      ensures ids == set d | d in dishes && dishes[d].category == c
    {
      ids := set d | d in dishes && dishes[d].category == c;
    }

    /** `has_active_dishes`: counts the dishes that are not deleted. */
    method HasActiveDishes(c: Id) returns (r: bool)
      ensures r <==> HasLiveDishes(Tables(), c)
    {
      var rest := DishesIn(c);
      ghost var all := rest;
      var count := 0;
      while rest != {}
        invariant rest <= all
        invariant 0 <= count
        invariant count > 0 <==> exists d :: d in all - rest && Live(dishes[d])
        decreases |rest|
      {
        var d :| d in rest;
        if dishes[d].deleted == None {
          assert d in all - (rest - {d}) && Live(dishes[d]);
          count := count + 1;
        }
        rest := rest - {d};
      }
      r := count > 0;
    }

    /** Deletes a category after each of its dishes. */
    method DeleteCategory(c: Id)
      modifies this`categories, this`dishes
      ensures Tables() == WithoutCategory(old(Tables()), c)
    {
      var rest := DishesIn(c);
      ghost var all := rest;
      while rest != {}
        invariant rest <= all && categories == old(categories)
        invariant dishes == old(dishes) - (all - rest)
        decreases |rest|
      {
        var d :| d in rest;
        dishes := dishes - {d};
        rest := rest - {d};
      }
      assert dishes == WithoutCategory(old(Tables()), c).dishes;
      categories := categories - {c};
    }

    /** Deletes a restaurant after each of its categories. */
    method DeleteRestaurant(r: Id)
      modifies this
      ensures Tables() == WithoutRestaurant(old(Tables()), r)
    {
      ghost var before := Tables();
      var rest := set c | c in categories && categories[c].restaurant == r;
      ghost var all, done: set<Id> := rest, {};
      NothingRemoved(before);
      while rest != {}
        invariant all == done + rest
        invariant Tables() == WithoutCategories(before, done)
        decreases |rest|
      {
        hide WithoutCategory, WithoutCategories;
        var c :| c in rest;
        DeleteCategory(c);
        OneMoreRemoved(before, done, c);
        rest, done := rest - {c}, done + {c};
      }
      CascadeIsWhole(before, r, all);
      restaurants := restaurants - {r};
    }

    method MaxPosition(positions: map<Id, int>) returns (m: Option<int>)
      ensures m == Greatest(positions)
    {
      if positions == map[] { return None; }
      GreatestExists(positions.Keys, positions);
      var g :| g in positions && forall x :: x in positions ==> positions[x] <= positions[g];
      return Some(positions[g]);
    }

    /** `reorder_categories`: one UPDATE for each listed id, in order. */
    method ReorderCategories(r: Id, ids: seq<Id>)
      requires AllBelongTo(Tables(), ids, r)
      modifies this`categories
      ensures categories == Placed(old(categories), ids)
    {
      for position := 0 to |ids|
        invariant categories == Placed(old(categories), ids[..position])
      {
        var c := ids[position];
        assert ids[..position + 1] == ids[..position] + [c];
        if c in categories && categories[c].restaurant == r {
          categories := categories[c := categories[c].(position := position)];
        }
        PlacedSnoc(old(categories), ids[..position], c);
      }
      assert ids[..|ids|] == ids;
    }

    /** The repositories' `update`: one assignment for each field that the request names. */
    method UpdateRestaurant(r: Id, rename: Option<(string, string)>, patch: InfoPatch)
      requires r in restaurants
      modifies this`restaurants
      ensures restaurants == old(restaurants)[r := RestaurantRow(old(restaurants)[r], rename, patch)]
    {
      var row := restaurants[r];
      if rename.Some? { row := row.(name := rename.value.0, slug := rename.value.1); }
      var info := row.info;
      var description := AssignNullable(info.description, patch.description);
      info := info.(description := description);
      var logo := AssignNullable(info.logo, patch.logo);
      info := info.(logo := logo);
      var phone := AssignNullable(info.phone, patch.phone);
      info := info.(phone := phone);
      var address := AssignNullable(info.address, patch.address);
      info := info.(address := address);
      var hours := AssignNullable(info.hours, patch.hours);
      info := info.(hours := hours);
      restaurants := restaurants[r := row.(info := info)];
    }

    method UpdateCategory(c: Id, patch: CategoryPatch)
      requires c in categories && CategoryPatchFits(patch)
      modifies this`categories
      ensures categories == old(categories)[c := PatchCategory(old(categories)[c], patch)]
    {
      var row := categories[c];
      var name := AssignRequired(row.name, patch.name);
      row := row.(name := name);
      var description := AssignNullable(row.description, patch.description);
      row := row.(description := description);
      var active := AssignRequired(row.active, patch.active);
      row := row.(active := active);
      var position := AssignRequired(row.position, patch.position);
      row := row.(position := position);
      categories := categories[c := row];
    }

    method UpdateDish(d: Id, patch: DishPatch)
      requires d in dishes && DishPatchFits(patch) && !patch.category.Null?
      modifies this`dishes
      ensures dishes == old(dishes)[d := PatchDish(old(dishes)[d], patch)]
    {
      var row := dishes[d];
      var category := AssignRequired(row.category, patch.category);
      row := row.(category := category);
      var name := AssignRequired(row.name, patch.name);
      row := row.(name := name);
      var description := AssignNullable(row.description, patch.description);
      row := row.(description := description);
      var price := AssignRequired(row.price, patch.price);
      row := row.(price := price);
      var salePrice := AssignNullable(row.salePrice, patch.salePrice);
      row := row.(salePrice := salePrice);
      var image := AssignNullable(row.image, patch.image);
      row := row.(image := image);
      var available := AssignRequired(row.available, patch.available);
      row := row.(available := available);
      var featured := AssignRequired(row.featured, patch.featured);
      row := row.(featured := featured);
      var tags := AssignNullable(row.tags, patch.tags);
      row := row.(tags := tags);
      var position := AssignRequired(row.position, patch.position);
      row := row.(position := position);
      dishes := dishes[d := row];
    }
  }

  /** `setattr` for one field, if the request names it. */
  method AssignRequired<T>(current: T, patch: Patch<T>) returns (value: T)
    requires !patch.Null?
    ensures value == patch.OnRequired(current)
  {
    value := current;
    if patch.Set? { value := patch.value; }
  }

  method AssignNullable<T>(current: Option<T>, patch: Patch<T>) returns (value: Option<T>)
    ensures value == patch.OnNullable(current)
  {
    value := current;
    if patch.Set? { value := Some(patch.value); }
    if patch.Null? { value := None; }
  }

  function RestaurantRow(row: Restaurant, rename: Option<(string, string)>, patch: InfoPatch): Restaurant {
    var named := if rename.Some? then row.(name := rename.value.0, slug := rename.value.1) else row;
    named.(info := PatchInfo(named.info, patch))
  }

  function WithoutCategories(db: Db, cats: set<Id>): Db {
    Db(db.restaurants, db.categories - cats, map d | d in db.dishes && db.dishes[d].category !in cats :: db.dishes[d])
  }

  lemma NothingRemoved(db: Db)
    ensures WithoutCategories(db, {}) == db
  {
    assert WithoutCategories(db, {}).dishes == db.dishes;
  }

  lemma OneMoreRemoved(db: Db, cats: set<Id>, c: Id)
    ensures WithoutCategory(WithoutCategories(db, cats), c) == WithoutCategories(db, cats + {c})
  {
  }

  lemma CascadeIsWhole(db: Db, r: Id, cats: set<Id>)
    requires cats == set c | c in db.categories && db.categories[c].restaurant == r
    ensures WithoutRestaurant(db, r) == WithoutCategories(db, cats).(restaurants := db.restaurants - {r})
  {
    assert WithoutRestaurant(db, r).categories == db.categories - cats;
    assert WithoutRestaurant(db, r).dishes == WithoutCategories(db, cats).dishes;
  }

  lemma PlacedSnoc(rows: map<Id, Category>, ids: seq<Id>, c: Id)
    requires c in rows
    ensures Placed(rows, ids + [c]) == Placed(rows, ids)[c := rows[c].(position := |ids|)]
  {
    assert (ids + [c])[..|ids|] == ids;
    forall e | e in ids && e != c ensures LastIndex(ids + [c], e) == LastIndex(ids, e) {}
  }

  // ----- Restaurants

  class RestaurantService {
    const store: Store
    const cache: Cache<Menu>

    constructor (store: Store, cache: Cache<Menu>)
      ensures this.store == store && this.cache == cache
    {
      this.store, this.cache := store, cache;
    }

    ghost function State(): System reads store, cache { System(store.Tables(), cache.entries) }

    /** The unbounded search for a slug that no other restaurant holds. */
    method EnsureUniqueSlug(base: string, exclude: Option<Id>) returns (slug: string)
      requires Valid(store.Tables())
      ensures slug == SlugAllocator.FirstFree(base, TakenSlugs(store.Tables(), exclude))
    {
      ghost var taken := TakenSlugs(store.Tables(), exclude);
      var existing := store.GetBySlug(base);
      TakenIff(store.Tables(), base, exclude);
      if existing == None || existing == exclude {
        SlugAllocator.FirstFreeIsFirst(base, taken, 0);
        return base;
      }
      var counter := 1;
      while true
        invariant 1 <= counter
        invariant forall j :: 0 <= j < counter ==> SlugAllocator.Candidate(base, j) in taken
        decreases |taken| - counter
      {
        SlugAllocator.Pigeonhole(base, taken, counter);
        var candidate := base + "-" + SlugAllocator.Digits(counter);
        existing := store.GetBySlug(candidate);
        TakenIff(store.Tables(), candidate, exclude);
        if existing == None || existing == exclude {
          SlugAllocator.FirstFreeIsFirst(base, taken, counter);
          return candidate;
        }
        counter := counter + 1;
        SlugAllocator.Pigeonhole(base, taken, counter);
      }
    }

    method Create(owner: Id, name: string, info: Info, env: Env) returns (reply: Reply)
      requires Valid(store.Tables()) && Fresh(store.Tables(), env)
      modifies store
      ensures (reply, State()) == Serve(old(State()), Owner(CreateRestaurant(owner, name, info)), env)
    {
      var existing := store.GetByOwner(owner);
      if existing.Some? { return Failed(Conflict); }
      var slug := EnsureUniqueSlug(Slugs.GenerateSlug(name), None);
      store.restaurants := store.restaurants[env.id := Restaurant(owner, name, slug, info)];
      return Done;
    }

    method Update(owner: Id, rename: Patch<string>, patch: InfoPatch, env: Env) returns (reply: Reply)
      requires Valid(store.Tables())
      modifies store, cache
      ensures (reply, State()) == Serve(old(State()), Owner(UpdateRestaurant(owner, rename, patch)), env)
    {
      var found := store.GetByOwner(owner);
      if found.None? { return Failed(NotFound); }
      var r := found.value;
      if rename.Null? { return Failed(ServerError); }
      var renamed: Option<(string, string)> := None;
      if rename.Set? {
        var slug := EnsureUniqueSlug(Slugs.GenerateSlug(rename.value), Some(r));
        renamed := Some((rename.value, slug));
      }
      store.UpdateRestaurant(r, renamed, patch);
      cache.InvalidatePrefix(PREFIX);
      return Done;
    }

    method Delete(owner: Id, env: Env) returns (reply: Reply)
      requires Valid(store.Tables())
      modifies store, cache
      ensures (reply, State()) == Serve(old(State()), Owner(DeleteRestaurant(owner)), env)
    {
      var found := store.GetByOwner(owner);
      if found.None? { return Failed(NotFound); }
      store.DeleteRestaurant(found.value);
      cache.InvalidatePrefix(PREFIX);
      return Done;
    }
  }

  lemma TakenIff(db: Db, slug: string, exclude: Option<Id>)
    requires UniqueRestaurants(db)
    ensures slug in TakenSlugs(db, exclude) <==> BySlug(db, slug).Some? && BySlug(db, slug) != exclude
  {
  }

  // ----- Categories

  class CategoryService {
    const store: Store
    const cache: Cache<Menu>

    constructor (store: Store, cache: Cache<Menu>)
      ensures this.store == store && this.cache == cache
    {
      this.store, this.cache := store, cache;
    }

    ghost function State(): System reads store, cache { System(store.Tables(), cache.entries) }

    method Create(user: Id, name: string, description: Option<string>, active: bool, env: Env)
      returns (reply: Reply)
      requires Valid(store.Tables()) && Fresh(store.Tables(), env)
      modifies store, cache
      ensures (reply, State()) == Serve(old(State()), Owner(CreateCategory(user, name, description, active)), env)
    {
      var found := store.GetByOwner(user);
      if found.None? { return Failed(NotFound); }
      var greatest := store.MaxPosition(CategoryPositions(store.Tables(), found.value));
      var position := AfterGreatest(greatest);
      if !Int32(position) { return Failed(ServerError); }
      store.categories := store.categories[env.id :=
        Category(found.value, name, description, position, active, env.now)];
      cache.InvalidatePrefix(PREFIX);
      return Done;
    }

    method VerifyRestaurantOwnership(r: Id, user: Id) returns (error: Option<Error>)
      ensures error == if r !in store.restaurants then Some(NotFound)
                       else if store.restaurants[r].owner != user then Some(Forbidden)
                       else None
    {
      var restaurant := store.GetRestaurant(r);
      if restaurant.None? { return Some(NotFound); }
      if restaurant.value.owner != user { return Some(Forbidden); }
      return None;
    }

    /** The category that both update and delete look up, and whether the user may touch it. */
    method GetOwned(c: Id, user: Id) returns (error: Option<Error>)
      ensures error == CategoryGuard(store.Tables(), c, user)
    {
      var category := store.GetCategory(c);
      if category.None? { return Some(NotFound); }
      error := VerifyRestaurantOwnership(category.value.restaurant, user);
    }

    method Update(user: Id, c: Id, patch: CategoryPatch, env: Env) returns (reply: Reply)
      modifies store, cache
      ensures (reply, State()) == Serve(old(State()), Owner(UpdateCategory(user, c, patch)), env)
    {
      var guard := GetOwned(c, user);
      if guard.Some? { return Failed(guard.value); }
      if !CategoryPatchFits(patch) { return Failed(ServerError); }
      store.UpdateCategory(c, patch);
      cache.InvalidatePrefix(PREFIX);
      return Done;
    }

    method Delete(user: Id, c: Id, env: Env) returns (reply: Reply)
      modifies store, cache
      ensures (reply, State()) == Serve(old(State()), Owner(DeleteCategory(user, c)), env)
    {
      var guard := GetOwned(c, user);
      if guard.Some? { return Failed(guard.value); }
      var occupied := store.HasActiveDishes(c);
      if occupied { return Failed(Conflict); }
      store.DeleteCategory(c);
      cache.InvalidatePrefix(PREFIX);
      return Done;
    }

    /** Checks every id before it moves any row. */
    method Reorder(user: Id, ids: seq<Id>, env: Env) returns (reply: Reply)
      requires Valid(store.Tables())
      modifies store, cache
      ensures (reply, State()) == Serve(old(State()), Owner(Request.Reorder(user, ids)), env)
    {
      var found := store.GetByOwner(user);
      if found.None? { return Failed(NotFound); }
      for i := 0 to |ids|
        invariant AllBelongTo(store.Tables(), ids[..i], found.value)
        invariant store.Tables() == old(store.Tables()) && cache.entries == old(cache.entries)
      {
        if ids[i] !in store.categories || store.categories[ids[i]].restaurant != found.value {
          assert !AllBelongTo(store.Tables(), ids, found.value);
          return Failed(BadRequest);
        }
      }
      assert ids[..|ids|] == ids;
      store.ReorderCategories(found.value, ids);
      cache.InvalidatePrefix(PREFIX);
      return Done;
    }
  }

  // ----- Dishes

  class DishService {
    const store: Store
    const cache: Cache<Menu>

    constructor (store: Store, cache: Cache<Menu>)
      ensures this.store == store && this.cache == cache
    {
      this.store, this.cache := store, cache;
    }

    ghost function State(): System reads store, cache { System(store.Tables(), cache.entries) }

    method VerifyCategoryOwnership(c: Id, user: Id) returns (error: Option<Error>)
      ensures error == DishCategoryGuard(store.Tables(), c, user)
    {
      var category := store.GetCategory(c);
      if category.None? { return Some(NotFound); }
      var restaurant := store.GetRestaurant(category.value.restaurant);
      if restaurant.None? || restaurant.value.owner != user { return Some(Forbidden); }
      return None;
    }

    method GetDish(d: Id, user: Id) returns (error: Option<Error>)
      ensures error == DishGuard(store.Tables(), d, user)
    {
      var dish := store.GetDish(d);
      if dish.None? { return Some(NotFound); }
      error := VerifyCategoryOwnership(dish.value.category, user);
    }

    method Create(user: Id, c: Id, data: DishData, env: Env) returns (reply: Reply)
      modifies store, cache
      ensures (reply, State()) == Serve(old(State()), Owner(CreateDish(user, c, data)), env)
    {
      var guard := VerifyCategoryOwnership(c, user);
      if guard.Some? { return Failed(guard.value); }
      var greatest := store.MaxPosition(DishPositions(store.Tables(), c));
      var position := AfterGreatest(greatest);
      if !Int32(position) { return Failed(ServerError); }
      store.dishes := store.dishes[env.id := NewDish(c, data, position, env.now)];
      cache.InvalidatePrefix(PREFIX);
      return Done;
    }

    method Update(user: Id, d: Id, patch: DishPatch, env: Env) returns (reply: Reply)
      modifies store, cache
      ensures (reply, State()) == Serve(old(State()), Owner(UpdateDish(user, d, patch)), env)
    {
      var guard := GetDish(d, user);
      if guard.Some? { return Failed(guard.value); }
      if patch.category.Null? { return Failed(NotFound); }
      if patch.category.Set? {
        var refused := VerifyCategoryOwnership(patch.category.value, user);
        if refused.Some? { return Failed(refused.value); }
      }
      if !DishPatchFits(patch) { return Failed(ServerError); }
      store.UpdateDish(d, patch);
      cache.InvalidatePrefix(PREFIX);
      return Done;
    }

    method Delete(user: Id, d: Id, env: Env) returns (reply: Reply)
      modifies store, cache
      ensures (reply, State()) == Serve(old(State()), Owner(DeleteDish(user, d)), env)
    {
      var guard := GetDish(d, user);
      if guard.Some? { return Failed(guard.value); }
      store.dishes := store.dishes[d := store.dishes[d].(deleted := Some(env.now))];
      cache.InvalidatePrefix(PREFIX);
      return Done;
    }

    method ToggleAvailability(user: Id, d: Id, env: Env) returns (reply: Reply)
      modifies store, cache
      ensures (reply, State()) == Serve(old(State()), Owner(ToggleDish(user, d)), env)
    {
      var guard := GetDish(d, user);
      if guard.Some? { return Failed(guard.value); }
      store.dishes := store.dishes[d := store.dishes[d].(available := !store.dishes[d].available)];
      cache.InvalidatePrefix(PREFIX);
      return Done;
    }
  }

  // ----- The public menu

  class MenuService {
    const store: Store
    const cache: Cache<Menu>

    constructor (store: Store, cache: Cache<Menu>)
      ensures this.store == store && this.cache == cache
    {
      this.store, this.cache := store, cache;
    }

    ghost function State(): System reads store, cache { System(store.Tables(), cache.entries) }

    method GetMenuBySlug(slug: string, env: Env) returns (reply: Reply)
      requires Valid(store.Tables())
      modifies cache
      ensures (reply, State()) == ServeVisit(old(State()), slug, env.now)
    {
      var cached := cache.Get(CacheKey(slug), env.now);
      if cached.Some? { return Served(cached.value); }
      var found := store.GetBySlug(slug);
      if found.None? { return Failed(NotFound); }
      var menu := Build(found.value);
      cache.Put(CacheKey(slug), menu, MENU_TTL, env.now);
      return Served(menu);
    }

    /** The loop over the active categories: filter, sort, render, skip the empty. */
    method Build(r: Id) returns (menu: Menu)
      requires Valid(store.Tables()) && r in store.restaurants
      ensures menu == BuildMenu(store.Tables(), r)
    {
      ghost var db := store.Tables();
      var cats := Select(ActiveKeys(store.Tables(), r));
      var responses: seq<MenuCategory> := [];
      for i := 0 to |cats|
        invariant responses == Rendered(db, r, cats[..i])
      {
        var c := cats[i];
        assert cats[..i + 1] == cats[..i] + [c];
        RenderedSnoc(db, r, cats[..i], c);
        var dishes := AvailableDishes(c);
        if dishes != [] {
          responses := responses + [RenderCategory(c, store.categories[c], dishes)];
        }
      }
      assert cats[..|cats|] == cats;
      RenderedAll(db, r);
      var row := store.restaurants[r];
      menu := Menu(r, row.name, row.slug, row.info, responses);
    }

    method AvailableDishes(c: Id) returns (responses: seq<MenuDish>)
      requires Valid(store.Tables())
      ensures responses == DishesOf(store.Tables(), c)
      ensures responses == [] <==> DishKeys(store.Tables(), c) == map[]
    {
      var all := Fetch(map d | d in store.dishes && store.dishes[d].category == c ::
                         Key(store.dishes[d].position, store.dishes[d].created));
      var available: seq<Id> := [];
      var keys := DishKeys(store.Tables(), c);
      for i := 0 to |all|
        invariant forall x :: x in available <==> x in all[..i] && x in keys
        invariant forall j, k :: 0 <= j < k < |available| ==> available[j] != available[k]
      {
        assert all[..i + 1] == all[..i] + [all[i]];
        assert all[i] in all;
        assert all[i] !in all[..i];
        if store.dishes[all[i]].available && store.dishes[all[i]].deleted == None {
          available := available + [all[i]];
        }
      }
      assert all[..|all|] == all;
      var sorted := SortByKey(available, keys);
      OrderUnique(sorted, SortIds(keys), keys);
      ListsLength(sorted, keys.Keys, keys);
      responses := RenderDishes(sorted, store.dishes);
    }
  }

  /** The entries of those among the listed categories that the menu shows. */
  ghost function Rendered(db: Db, r: Id, ids: seq<Id>): seq<MenuCategory> {
    FilteredMembers(ids, ShownKeys(db, r).Keys);
    var shown := Filtered(ids, ShownKeys(db, r).Keys);
    assert forall i :: 0 <= i < |shown| ==> shown[i] in shown;
    RenderCategories(shown, db)
  }

  lemma RenderedSnoc(db: Db, r: Id, ids: seq<Id>, c: Id)
    requires Active(db, r, c)
    ensures Rendered(db, r, ids + [c]) == Rendered(db, r, ids) +
            (if DishKeys(db, c) == map[] then [] else [RenderCategory(c, db.categories[c], DishesOf(db, c))])
  {
    FilteredSnoc(ids, c, ShownKeys(db, r).Keys);
  }

  lemma RenderedAll(db: Db, r: Id)
    requires DistinctStamps(db)
    ensures Distinct(ActiveKeys(db, r))
    ensures Rendered(db, r, SortIds(ActiveKeys(db, r))) == RenderCategories(SortIds(ShownKeys(db, r)), db)
  {
    RestrictedOrder(ActiveKeys(db, r), ShownKeys(db, r));
  }
}
