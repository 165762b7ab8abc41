/** What the requests achieve: what undoes what, and what new rows show. */
module Effects {
  import opened Wrappers
  import opened Ordering
  import opened Catalogue
  import opened Menus
  import Slugs
  import SlugAllocator

  // ----- What is undone

  lemma ToggleTwice(db: Db, user: Id, d: Id, env: Env, env': Env)
    ensures After(After(db, ToggleDish(user, d), env), ToggleDish(user, d), env') == db
  {
    var once := After(db, ToggleDish(user, d), env);
    if once != db {
      assert DishGuard(once, d, user) == None;
      assert once.dishes[d := db.dishes[d]] == db.dishes;
    }
  }

  function Restore<T>(value: Option<T>): Patch<T> {
    match value case None => Null case Some(v) => Set(v)
  }

  function DishAsPatch(d: Dish): DishPatch {
    DishPatch(Set(d.category), Set(d.name), Restore(d.description), Set(d.price), Restore(d.salePrice),
              Restore(d.image), Set(d.available), Set(d.featured), Restore(d.tags), Set(d.position))
  }

  function Later<T>(first: Patch<T>, second: Patch<T>): Patch<T> {
    if second.Unset? then first else second
  }

  /** What the two updates ask for together: of each field, the last value named. */
  function Combined(p: DishPatch, q: DishPatch): DishPatch {
    DishPatch(Later(p.category, q.category), Later(p.name, q.name), Later(p.description, q.description),
              Later(p.price, q.price), Later(p.salePrice, q.salePrice), Later(p.image, q.image),
              Later(p.available, q.available), Later(p.featured, q.featured), Later(p.tags, q.tags),
              Later(p.position, q.position))
  }

  /** Two accepted updates in a row are one update with the last value of each field, so fields that
      the second leaves out keep what the first gave them. */
  lemma DishUpdatesCombine(db: Db, user: Id, d: Id, p: DishPatch, q: DishPatch, env: Env, env': Env)
    requires Write(db, UpdateDish(user, d, p), env).Ok?
    requires Write(After(db, UpdateDish(user, d, p), env), UpdateDish(user, d, q), env').Ok?
    ensures Write(db, UpdateDish(user, d, Combined(p, q)), env) ==
            Write(After(db, UpdateDish(user, d, p), env), UpdateDish(user, d, q), env')
  {
    var once := After(db, UpdateDish(user, d, p), env);
    assert MoveGuard(db, Later(p.category, q.category), user) == None;
    assert DishPatchFits(Combined(p, q));
    assert PatchDish(once.dishes[d], q) == PatchDish(db.dishes[d], Combined(p, q));
    assert once.dishes[d := PatchDish(once.dishes[d], q)] == db.dishes[d := PatchDish(once.dishes[d], q)];
  }

  /** Any accepted dish update is undone by writing the old values back. */
  lemma DishUpdateUndone(db: Db, user: Id, d: Id, patch: DishPatch, env: Env, env': Env)
    requires Write(db, UpdateDish(user, d, patch), env).Ok? && Int32(db.dishes[d].position)
    ensures After(After(db, UpdateDish(user, d, patch), env),
                  UpdateDish(user, d, DishAsPatch(db.dishes[d])), env') == db
  {
    var was, back := db.dishes[d], DishAsPatch(db.dishes[d]);
    var once := After(db, UpdateDish(user, d, patch), env);
    assert DishGuard(once, d, user) == None && MoveGuard(once, back.category, user) == None;
    assert PatchDish(once.dishes[d], back) == was;
    assert once.dishes[d := was] == db.dishes;
  }

  function CategoryAsPatch(c: Category): CategoryPatch {
    CategoryPatch(Set(c.name), Restore(c.description), Set(c.active), Set(c.position))
  }

  lemma CategoryUpdateUndone(db: Db, user: Id, c: Id, patch: CategoryPatch, env: Env, env': Env)
    requires Write(db, UpdateCategory(user, c, patch), env).Ok? && Int32(db.categories[c].position)
    ensures After(After(db, UpdateCategory(user, c, patch), env),
                  UpdateCategory(user, c, CategoryAsPatch(db.categories[c])), env') == db
  {
    var was, back := db.categories[c], CategoryAsPatch(db.categories[c]);
    var once := After(db, UpdateCategory(user, c, patch), env);
    assert CategoryGuard(once, c, user) == None;
    assert PatchCategory(once.categories[c], back) == was;
    assert once.categories[c := was] == db.categories;
  }

  function InfoAsPatch(i: Info): InfoPatch {
    InfoPatch(Restore(i.description), Restore(i.logo), Restore(i.phone), Restore(i.address), Restore(i.hours))
  }

  /** Writing the old details back undoes a change of details; the slug never moved. */
  lemma InfoUpdateUndone(db: Db, user: Id, patch: InfoPatch, env: Env, env': Env)
    requires UniqueRestaurants(db) && ByOwner(db, user).Some?
    ensures var was := db.restaurants[ByOwner(db, user).value];
            After(After(db, UpdateRestaurant(user, Unset, patch), env),
                  UpdateRestaurant(user, Unset, InfoAsPatch(was.info)), env') == db
  {
    var r := ByOwner(db, user).value;
    var once := After(db, UpdateRestaurant(user, Unset, patch), env);
    assert r in once.restaurants && once.restaurants[r].owner == user;
    assert ByOwner(once, user) == Some(r);
    assert PatchInfo(once.restaurants[r].info, InfoAsPatch(db.restaurants[r].info)) == db.restaurants[r].info;
    assert once.restaurants[r := db.restaurants[r]] == db.restaurants;
  }

  ghost function RenamedRow(db: Db, r: Id, name: string, patch: InfoPatch): Restaurant
    requires r in db.restaurants
  {
    Restaurant(db.restaurants[r].owner, name,
               SlugAllocator.FirstFree(Slugs.GenerateSlug(name), TakenSlugs(db, Some(r))),
               PatchInfo(db.restaurants[r].info, patch))
  }

  lemma RenameResult(db: Db, user: Id, name: string, patch: InfoPatch, env: Env)
    ensures After(db, UpdateRestaurant(user, Set(name), patch), env) ==
            match ByOwner(db, user)
            case None => db
            case Some(r) => db.(restaurants := db.restaurants[r := RenamedRow(db, r, name, patch)])
  {
  }

  lemma PatchInfoTwice(info: Info, patch: InfoPatch)
    ensures PatchInfo(PatchInfo(info, patch), patch) == PatchInfo(info, patch)
  {
  }

  /** Repeating a rename changes nothing more: the restaurant's own slug does not count as taken. */
  lemma RenameTwice(db: Db, user: Id, name: string, patch: InfoPatch, env: Env, env': Env, once: Db)
    requires UniqueRestaurants(db) && once == After(db, UpdateRestaurant(user, Set(name), patch), env)
    ensures After(once, UpdateRestaurant(user, Set(name), patch), env') == once
  {
    RenameResult(db, user, name, patch, env);
    RenameResult(once, user, name, patch, env');
    if ByOwner(db, user).Some? {
      var r := ByOwner(db, user).value;
      assert r in once.restaurants && once.restaurants[r].owner == user;
      assert ByOwner(once, user) == Some(r);
      assert TakenSlugs(once, Some(r)) == TakenSlugs(db, Some(r));
      PatchInfoTwice(db.restaurants[r].info, patch);
      assert RenamedRow(once, r, name, patch) == once.restaurants[r];
    }
  }

  // ----- What shows

  /** A new dish is on the restaurant's menu at once, under its category and with the data it was given,
      exactly when it is available and the category active. */
  lemma CreatedDishShows(db: Db, user: Id, c: Id, data: DishData, env: Env)
    requires Valid(db) && Fresh(db, env) && Write(db, CreateDish(user, c, data), env).Ok?
    ensures var m := BuildMenu(After(db, CreateDish(user, c, data), env), db.categories[c].restaurant);
            if data.available && db.categories[c].active
            then exists i, j :: At(m, i, j, c, env.id) && m.categories[i].name == db.categories[c].name
                                && CarriesData(m.categories[i].dishes[j], data)
            else !Shows(m, c, env.id)
  {
    var next, r := After(db, CreateDish(user, c, data), env), db.categories[c].restaurant;
    MenuHolds(next, r, c, env.id);
    if !(data.available && db.categories[c].active) { return; }
    var i, j :| At(BuildMenu(next, r), i, j, c, env.id);
    MenuShowsRows(next, r, i, j, c, env.id);
  }

  predicate CarriesData(shown: MenuDish, data: DishData) {
    && shown.name == data.name && shown.description == data.description && shown.price == data.price
    && shown.salePrice == data.salePrice && shown.image == data.image && shown.tags == data.tags
    && shown.featured == data.featured
  }

  lemma EmptyMenu(db: Db, r: Id)
    requires r in db.restaurants && forall c :: c in db.categories ==> db.categories[c].restaurant != r
    ensures BuildMenu(db, r) ==
            Menu(r, db.restaurants[r].name, db.restaurants[r].slug, db.restaurants[r].info, [])
  {
    assert ShownKeys(db, r) == map[];
  }

  lemma SlugIsNew(db: Db, base: string)
    ensures BySlug(db, SlugAllocator.FirstFree(base, TakenSlugs(db, None))) == None
  {
    var taken := TakenSlugs(db, None);
    SlugAllocator.FirstFreeIsFirst(base, taken, 0);
    assert forall r :: r in db.restaurants ==> db.restaurants[r].slug in taken;
  }

  /** A new restaurant is its user's, and its slug, which led nowhere before, serves an empty menu
      with the data given. */
  lemma CreatedRestaurantServed(db: Db, user: Id, name: string, info: Info, env: Env)
    requires Valid(db) && Fresh(db, env) && ByOwner(db, user) == None
    ensures var next := After(db, CreateRestaurant(user, name, info), env);
            && ByOwner(next, user) == Some(env.id)
            && BySlug(db, next.restaurants[env.id].slug) == None
            && MenuFor(next, next.restaurants[env.id].slug) ==
               Some(Menu(env.id, name, next.restaurants[env.id].slug, info, []))
  {
    hide BuildMenu, Slugs.GenerateSlug, SlugAllocator.FirstFree;
    var next := After(db, CreateRestaurant(user, name, info), env);
    var slug := next.restaurants[env.id].slug;
    SlugIsNew(db, Slugs.GenerateSlug(name));
    UniqueKept(db, CreateRestaurant(user, name, info), env);
    SlugNamesOne(next, slug, env.id);
    EmptyMenu(next, env.id);
    assert next.restaurants[env.id].owner == user;
  }
}
