/** The public menu as a view of the tables. */
module Menus {
  import opened Wrappers
  import opened Ordering
  import opened Catalogue

  datatype MenuDish = MenuDish(
    id: Id, name: string, description: Option<string>, price: int, salePrice: Option<int>,
    image: Option<string>, tags: Option<seq<string>>, featured: bool, position: int)

  datatype MenuCategory = MenuCategory(
    id: Id, name: string, description: Option<string>, position: int, dishes: seq<MenuDish>)

  datatype Menu = Menu(restaurant: Id, name: string, slug: string, info: Info, categories: seq<MenuCategory>)

  predicate Visible(dish: Dish) { dish.available && Live(dish) }

  /** The rows of one category that its menu entry shows. */
  function DishKeys(db: Db, c: Id): map<Id, Key> {
    map d | d in db.dishes && db.dishes[d].category == c && Visible(db.dishes[d]) ::
      Key(db.dishes[d].position, db.dishes[d].created)
  }

  predicate Active(db: Db, r: Id, c: Id) {
    c in db.categories && db.categories[c].restaurant == r && db.categories[c].active
  }

  /** The categories that the menu query fetches. */
  function ActiveKeys(db: Db, r: Id): map<Id, Key> {
    map c | c in db.categories && Active(db, r, c) :: Key(db.categories[c].position, db.categories[c].created)
  }

  /** The categories that the menu shows: active ones with something to show. */
  ghost function ShownKeys(db: Db, r: Id): map<Id, Key> {
    map c | c in db.categories && Active(db, r, c) && DishKeys(db, c) != map[] ::
      Key(db.categories[c].position, db.categories[c].created)
  }

  function RenderDish(id: Id, d: Dish): MenuDish {
    MenuDish(id, d.name, d.description, d.price, d.salePrice, d.image, d.tags, d.featured, d.position)
  }

  function RenderDishes(ids: seq<Id>, dishes: map<Id, Dish>): (r: seq<MenuDish>)
    requires forall i :: 0 <= i < |ids| ==> ids[i] in dishes
  {
    seq(|ids|, i requires 0 <= i < |ids| => RenderDish(ids[i], dishes[ids[i]]))
  }

  function RenderCategory(id: Id, c: Category, dishes: seq<MenuDish>): MenuCategory {
    MenuCategory(id, c.name, c.description, c.position, dishes)
  }

  ghost function DishesOf(db: Db, c: Id): seq<MenuDish> {
    RenderDishes(SortIds(DishKeys(db, c)), db.dishes)
  }

  ghost function RenderCategories(ids: seq<Id>, db: Db): seq<MenuCategory>
    requires forall i :: 0 <= i < |ids| ==> ids[i] in db.categories
  {
    seq(|ids|, i requires 0 <= i < |ids| => RenderCategory(ids[i], db.categories[ids[i]], DishesOf(db, ids[i])))
  }

  ghost function BuildMenu(db: Db, r: Id): Menu
    requires r in db.restaurants
  {
    var row := db.restaurants[r];
    Menu(r, row.name, row.slug, row.info, RenderCategories(SortIds(ShownKeys(db, r)), db))
  }

  /** The menu behind a slug, read from the tables; None is the 404. */
  ghost function MenuFor(db: Db, slug: string): Option<Menu> {
    match BySlug(db, slug)
    case None => None
    case Some(r) => Some(BuildMenu(db, r))
  }

  // ----- What a menu holds

  /** The dish at place j of the category at place i. */
  predicate At(m: Menu, i: int, j: int, c: Id, d: Id) {
    && 0 <= i < |m.categories| && m.categories[i].id == c
    && 0 <= j < |m.categories[i].dishes| && m.categories[i].dishes[j].id == d
  }

  ghost predicate Shows(m: Menu, c: Id, d: Id) {
    exists i, j :: At(m, i, j, c, d)
  }

  lemma MenuEntry(db: Db, r: Id, i: nat)
    requires r in db.restaurants && i < |BuildMenu(db, r).categories|
    ensures var c := BuildMenu(db, r).categories[i].id;
            && i < |SortIds(ShownKeys(db, r))| && SortIds(ShownKeys(db, r))[i] == c
            && c in ShownKeys(db, r)
            && BuildMenu(db, r).categories[i].dishes == DishesOf(db, c)
  {
  }

  lemma DishEntry(db: Db, c: Id, j: nat)
    requires j < |DishesOf(db, c)|
    ensures j < |SortIds(DishKeys(db, c))| && SortIds(DishKeys(db, c))[j] == DishesOf(db, c)[j].id
    ensures DishesOf(db, c)[j].id in DishKeys(db, c)
  {
  }

  lemma ShownIsVisible(db: Db, r: Id, i: nat, j: nat, c: Id, d: Id)
    requires r in db.restaurants && At(BuildMenu(db, r), i, j, c, d)
    ensures c in ShownKeys(db, r) && d in DishKeys(db, c)
  {
    MenuEntry(db, r, i);
    DishEntry(db, c, j);
  }

  lemma VisibleIsShown(db: Db, r: Id, c: Id, d: Id)
    requires r in db.restaurants && Active(db, r, c) && d in DishKeys(db, c)
    ensures Shows(BuildMenu(db, r), c, d)
  {
    var cats, ids := SortIds(ShownKeys(db, r)), SortIds(DishKeys(db, c));
    assert c in ShownKeys(db, r);
    var i :| 0 <= i < |cats| && cats[i] == c;
    var j :| 0 <= j < |ids| && ids[j] == d;
    MenuEntry(db, r, i);
    DishEntry(db, c, j);
    assert At(BuildMenu(db, r), i, j, c, d);
  }

  /** A menu shows exactly the available dishes, not deleted, of the restaurant's active categories. */
  lemma MenuHolds(db: Db, r: Id, c: Id, d: Id)
    requires r in db.restaurants
    ensures Shows(BuildMenu(db, r), c, d) <==>
              && d in db.dishes && db.dishes[d].category == c
              && db.dishes[d].available && db.dishes[d].deleted == None
              && c in db.categories && db.categories[c].restaurant == r && db.categories[c].active
  {
    if Shows(BuildMenu(db, r), c, d) {
      var i, j :| At(BuildMenu(db, r), i, j, c, d);
      ShownIsVisible(db, r, i, j, c, d);
    }
    if Active(db, r, c) && d in DishKeys(db, c) {
      VisibleIsShown(db, r, c, d);
    }
  }

  /** Whatever a menu shows carries the data of its rows, and the menu that of its restaurant. */
  lemma MenuShowsRows(db: Db, r: Id, i: nat, j: nat, c: Id, d: Id)
    requires r in db.restaurants && At(BuildMenu(db, r), i, j, c, d)
    ensures c in db.categories && d in db.dishes
    ensures var entry, row := BuildMenu(db, r).categories[i], db.categories[c];
            entry.name == row.name && entry.description == row.description && entry.position == row.position
    ensures var shown, row := BuildMenu(db, r).categories[i].dishes[j], db.dishes[d];
            && shown.name == row.name && shown.description == row.description && shown.price == row.price
            && shown.salePrice == row.salePrice && shown.image == row.image && shown.tags == row.tags
            && shown.featured == row.featured && shown.position == row.position
    ensures var m, row := BuildMenu(db, r), db.restaurants[r];
            m.restaurant == r && m.name == row.name && m.slug == row.slug && m.info == row.info
  {
    MenuEntry(db, r, i);
    DishEntry(db, c, j);
  }

  lemma NoEmptyCategory(db: Db, r: Id)
    requires r in db.restaurants
    ensures forall i :: 0 <= i < |BuildMenu(db, r).categories| ==> BuildMenu(db, r).categories[i].dishes != []
  {
    forall i | 0 <= i < |BuildMenu(db, r).categories| ensures BuildMenu(db, r).categories[i].dishes != [] {
      MenuEntry(db, r, i);
      var keys := DishKeys(db, BuildMenu(db, r).categories[i].id);
      var d :| d in keys;
      assert d in SortIds(keys);
    }
  }

  lemma EachDishOnce(db: Db, r: Id, i: nat, j: nat, c: Id, k: nat, l: nat, e: Id, d: Id)
    requires r in db.restaurants
    requires At(BuildMenu(db, r), i, j, c, d) && At(BuildMenu(db, r), k, l, e, d)
    ensures i == k && j == l && c == e
  {
    MenuEntry(db, r, i);
    MenuEntry(db, r, k);
    DishEntry(db, c, j);
    DishEntry(db, e, l);
  }

  /** Both levels ascend strictly by (position, created_at). */
  lemma MenuAscends(db: Db, r: Id, i: nat, k: nat)
    requires Valid(db) && r in db.restaurants
    requires i < k < |BuildMenu(db, r).categories|
    ensures var first, second := BuildMenu(db, r).categories[i].id, BuildMenu(db, r).categories[k].id;
            && first in db.categories && second in db.categories
            && var a, b := db.categories[first], db.categories[second];
            a.position < b.position || (a.position == b.position && a.created < b.created)
  {
    MenuEntry(db, r, i);
    MenuEntry(db, r, k);
  }

  lemma DishesAscend(db: Db, r: Id, n: nat, i: nat, k: nat)
    requires Valid(db) && r in db.restaurants && n < |BuildMenu(db, r).categories|
    requires i < k < |BuildMenu(db, r).categories[n].dishes|
    ensures var entry := BuildMenu(db, r).categories[n];
            && entry.dishes[i].id in db.dishes && entry.dishes[k].id in db.dishes
            && var a, b := db.dishes[entry.dishes[i].id], db.dishes[entry.dishes[k].id];
            a.position < b.position || (a.position == b.position && a.created < b.created)
  {
    MenuEntry(db, r, n);
    DishEntry(db, BuildMenu(db, r).categories[n].id, i);
    DishEntry(db, BuildMenu(db, r).categories[n].id, k);
  }

  // ----- What a menu depends on

  /** The part of the tables that belongs to one restaurant. */
  ghost function Slice(db: Db, r: Id): Db {
    Db(map s | s in db.restaurants && s == r :: db.restaurants[s],
       map c | c in db.categories && db.categories[c].restaurant == r :: db.categories[c],
       map d | d in db.dishes && db.dishes[d].category in db.categories
               && db.categories[db.dishes[d].category].restaurant == r :: db.dishes[d])
  }

  lemma DishesFrame(a: Db, b: Db, c: Id)
    requires DishKeys(a, c) == DishKeys(b, c)
    requires forall d :: d in DishKeys(a, c) ==> a.dishes[d] == b.dishes[d]
    ensures DishesOf(a, c) == DishesOf(b, c)
  {
    var ids := SortIds(DishKeys(a, c));
    assert forall i :: 0 <= i < |ids| ==> ids[i] in DishKeys(a, c);
  }

  lemma CategoriesFrame(a: Db, b: Db, ids: seq<Id>)
    requires forall i :: 0 <= i < |ids| ==> ids[i] in a.categories && ids[i] in b.categories
    requires forall i :: 0 <= i < |ids| ==>
               a.categories[ids[i]] == b.categories[ids[i]] && DishesOf(a, ids[i]) == DishesOf(b, ids[i])
    ensures RenderCategories(ids, a) == RenderCategories(ids, b)
  {
  }

  /** The same shown categories with the same rows make the same menu. */
  lemma MenuFrame(a: Db, b: Db, r: Id)
    requires r in a.restaurants && r in b.restaurants && a.restaurants[r] == b.restaurants[r]
    requires ShownKeys(a, r) == ShownKeys(b, r)
    requires forall c :: c in ShownKeys(a, r) ==>
               a.categories[c] == b.categories[c] && DishKeys(a, c) == DishKeys(b, c)
    requires forall c, d :: c in ShownKeys(a, r) && d in DishKeys(a, c) ==> a.dishes[d] == b.dishes[d]
    ensures BuildMenu(a, r) == BuildMenu(b, r)
  {
    var cats := SortIds(ShownKeys(a, r));
    forall i | 0 <= i < |cats|
      ensures cats[i] in ShownKeys(a, r) && DishesOf(a, cats[i]) == DishesOf(b, cats[i])
    {
      DishesFrame(a, b, cats[i]);
    }
    CategoriesFrame(a, b, cats);
  }

  /** A restaurant's menu depends on nothing outside its slice. */
  lemma MenuOfSlice(db: Db, r: Id)
    requires r in db.restaurants
    ensures BuildMenu(Slice(db, r), r) == BuildMenu(db, r)
  {
    hide BuildMenu;
    var s := Slice(db, r);
    forall c | c in db.categories && db.categories[c].restaurant == r ensures DishKeys(s, c) == DishKeys(db, c) {}
    assert ShownKeys(s, r) == ShownKeys(db, r);
    MenuFrame(s, db, r);
  }

  lemma SlugNamesOne(db: Db, slug: string, r: Id)
    requires UniqueRestaurants(db)
    ensures r in db.restaurants && db.restaurants[r].slug == slug <==> BySlug(db, slug) == Some(r)
  {
  }

  /** A slug is a 404 exactly when no restaurant holds it; otherwise it serves the menu of the one that
      does. */
  lemma SlugServes(db: Db, slug: string)
    requires UniqueRestaurants(db)
    ensures MenuFor(db, slug) == None <==> forall r :: r in db.restaurants ==> db.restaurants[r].slug != slug
    ensures forall r :: r in db.restaurants && db.restaurants[r].slug == slug ==>
              MenuFor(db, slug) == Some(BuildMenu(db, r))
  {
    hide BuildMenu;
  }

  // ----- Requests that no menu shows

  lemma EmptyCategoryAdded(db: Db, id: Id, row: Category, slug: string)
    requires Linked(db) && id !in db.categories
    ensures MenuFor(db.(categories := db.categories[id := row]), slug) == MenuFor(db, slug)
  {
    hide BuildMenu;
    var next := db.(categories := db.categories[id := row]);
    assert DishKeys(db, id) == map[];
    if BySlug(db, slug).Some? {
      var r := BySlug(db, slug).value;
      forall c ensures DishKeys(next, c) == DishKeys(db, c) {}
      assert ShownKeys(next, r) == ShownKeys(db, r);
      MenuFrame(next, db, r);
    }
  }

  lemma EmptyCategoryRemoved(db: Db, id: Id, slug: string)
    requires !HasLiveDishes(db, id)
    ensures MenuFor(WithoutCategory(db, id), slug) == MenuFor(db, slug)
  {
    hide BuildMenu;
    var next := WithoutCategory(db, id);
    assert DishKeys(db, id) == map[];
    if BySlug(db, slug).Some? {
      var r := BySlug(db, slug).value;
      forall c | c != id ensures DishKeys(next, c) == DishKeys(db, c) {}
      assert ShownKeys(next, r) == ShownKeys(db, r);
      MenuFrame(next, db, r);
    }
  }

  /** A new category is empty, so every public menu stays as it was. */
  lemma NewCategoryIsInvisible(db: Db, req: Request, env: Env, slug: string)
    requires Valid(db) && req.CreateCategory? && Fresh(db, env)
    ensures MenuFor(After(db, req, env), slug) == MenuFor(db, slug)
  {
    var next := After(db, req, env);
    if next != db { EmptyCategoryAdded(db, env.id, next.categories[env.id], slug); }
  }

  /** A permitted category deletion removes no live dish and leaves every public menu as it was. */
  lemma CategoryDeletionIsInvisible(db: Db, req: Request, env: Env, slug: string)
    requires Valid(db) && req.DeleteCategory?
    ensures MenuFor(After(db, req, env), slug) == MenuFor(db, slug)
    ensures forall d :: d in db.dishes && Live(db.dishes[d]) ==>
              d in After(db, req, env).dishes && After(db, req, env).dishes[d] == db.dishes[d]
  {
    if Write(db, req, env).Ok? { EmptyCategoryRemoved(db, req.category, slug); }
  }
}
