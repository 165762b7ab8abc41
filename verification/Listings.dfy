/** The owner's dish listing: filters, pages, and its order against the public menu's. */
module Listings {
  import opened Wrappers
  import opened Ordering
  import opened Catalogue
  import opened Menus

  // ----- Filters

  datatype Filters = Filters(
    category: Option<Id>, available: Option<bool>, featured: Option<bool>,
    search: Option<string>, tag: Option<string>, minPrice: Option<int>, maxPrice: Option<int>)

  const NO_FILTERS := Filters(None, None, None, None, None, None, None)

  /** The database's case-insensitive pattern match, left uninterpreted. */
  type Like = (string, string) -> bool

  predicate Matches(d: Dish, f: Filters, like: Like) {
    && (f.category.Some? ==> d.category == f.category.value)
    && (f.available.Some? ==> d.available == f.available.value)
    && (f.featured.Some? ==> d.featured == f.featured.value)
    && (f.search.Some? && f.search.value != "" ==>
          like(f.search.value, d.name)
          || (d.description.Some? && like(f.search.value, d.description.value)))
    && (f.tag.Some? && f.tag.value != "" ==> d.tags.Some? && f.tag.value in d.tags.value)
    && (f.minPrice.Some? ==> d.price >= f.minPrice.value)
    && (f.maxPrice.Some? ==> d.price <= f.maxPrice.value)
  }

  /** Newest first among equal positions. */
  function AdminKey(d: Dish): Key { Key(d.position, -d.created) }

  ghost function MatchKeys(db: Db, r: Id, f: Filters, like: Like): map<Id, Key> {
    map d | && d in db.dishes && db.dishes[d].category in db.categories
            && db.categories[db.dishes[d].category].restaurant == r
            && Live(db.dishes[d]) && Matches(db.dishes[d], f, like) :: AdminKey(db.dishes[d])
  }

  // ----- Pages

  datatype Page = Page(items: seq<Id>, total: nat, limit: nat, offset: nat) {
    predicate HasMore() { offset + limit < total }

    function Number(): nat { if limit == 0 then 1 else offset / limit + 1 }

    function TotalPages(): nat { if limit == 0 then 1 else (total + limit - 1) / limit }
  }

  function Min(a: nat, b: nat): nat { if a < b then a else b }

  /** LIMIT and OFFSET. */
  function Window(all: seq<Id>, limit: nat, offset: nat): seq<Id> {
    all[Min(offset, |all|)..Min(offset + limit, |all|)]
  }

  /** `list_dishes`: one query counts, a twin query fetches the window. */
  ghost function ListDishes(db: Db, user: Id, f: Filters, like: Like, limit: nat, offset: nat): Result<Page> {
    match ByOwner(db, user)
    case None => Err(NotFound)
    case Some(r) =>
      var guard := if f.category.Some? then DishCategoryGuard(db, f.category.value, user) else None;
      if guard.Some? then Err(guard.value)
      else
        var keys := MatchKeys(db, r, f, like);
        Ok(Page(Window(SortIds(keys), limit, offset), |keys|, limit, offset))
  }

  function PageOf(all: seq<Id>, limit: nat, offset: nat): Page {
    Page(Window(all, limit, offset), |all|, limit, offset)
  }

  /** Every page is a window of one sequence, and `total` is the length of that sequence:
      each matching dish once, in (position, newest first) order. */
  lemma PagesOfOneListing(db: Db, user: Id, f: Filters, like: Like, limit: nat, offset: nat)
    requires ListDishes(db, user, f, like, limit, offset).Ok?
    ensures var keys := MatchKeys(db, ByOwner(db, user).value, f, like);
            && ListDishes(db, user, f, like, limit, offset).value == PageOf(SortIds(keys), limit, offset)
            && IsOrder(SortIds(keys), keys)
    ensures var all := SortIds(MatchKeys(db, ByOwner(db, user).value, f, like));
            var page := ListDishes(db, user, f, like, limit, offset).value;
            && page.total == |all| && page.limit == limit && page.offset == offset
            && |page.items| == (if |all| <= offset then 0 else if |all| - offset < limit then |all| - offset else limit)
            && forall i :: 0 <= i < |page.items| ==> page.items[i] == all[offset + i]
  {
    var keys := MatchKeys(db, ByOwner(db, user).value, f, like);
    ListsLength(SortIds(keys), keys.Keys, keys);
    assert |keys| == |keys.Keys|;
  }

  /** Asking for page after page while `has_more`. */
  function Walk(all: seq<Id>, limit: nat, offset: nat): seq<Page>
    requires 1 <= limit
    decreases |all| - offset
  {
    var page := PageOf(all, limit, offset);
    if page.HasMore() then [page] + Walk(all, limit, offset + limit) else [page]
  }

  function Items(pages: seq<Page>): seq<Id> {
    if pages == [] then [] else pages[0].items + Items(pages[1..])
  }

  lemma MulMonotone(a: int, b: int, d: nat)
    requires a <= b
    ensures a * d <= b * d
  {
    assert (b - a) * d >= 0;
  }

  lemma QuotientIs(n: int, d: nat, q: int)
    requires 0 < d && q * d <= n < q * d + d
    ensures n / d == q
  {
    var k := n / d;
    if k < q { MulMonotone(k + 1, q, d); }
    if q < k { MulMonotone(q + 1, k, d); }
  }

  lemma {:induction false} WalkItems(all: seq<Id>, limit: nat, offset: nat)
    requires 1 <= limit && offset <= |all|
    ensures Items(Walk(all, limit, offset)) == all[offset..]
    decreases |all| - offset
  {
    var page, pages := PageOf(all, limit, offset), Walk(all, limit, offset);
    if page.HasMore() {
      assert pages[1..] == Walk(all, limit, offset + limit);
      WalkItems(all, limit, offset + limit);
      assert all[offset..] == all[offset..offset + limit] + all[offset + limit..];
    } else {
      assert pages[1..] == [];
    }
  }

  lemma {:induction false} WalkPage(all: seq<Id>, limit: nat, offset: nat, i: nat)
    requires 1 <= limit && i < |Walk(all, limit, offset)|
    ensures Walk(all, limit, offset)[i] == PageOf(all, limit, offset + i * limit)
    decreases i
  {
    if 0 < i {
      WalkPage(all, limit, offset + limit, i - 1);
      assert limit + (i - 1) * limit == i * limit;
    }
  }

  lemma {:induction false} WalkLength(all: seq<Id>, limit: nat, offset: nat)
    requires 1 <= limit && (offset < |all| || offset == 0)
    ensures var n := |Walk(all, limit, offset)|;
            && 1 <= n
            && offset + (n - 1) * limit <= |all| <= offset + (n - 1) * limit + limit
            && (0 < |all| ==> offset + (n - 1) * limit < |all|)
    decreases |all| - offset
  {
    var n := |Walk(all, limit, offset)|;
    if offset + limit < |all| {
      WalkLength(all, limit, offset + limit);
      assert limit + (n - 2) * limit == (n - 1) * limit;
    } else {
      assert n == 1;
    }
  }

  /** Walking the pages yields the whole listing, in as many pages as announced, numbered from 1. */
  lemma PageWalk(all: seq<Id>, limit: nat)
    requires 1 <= limit
    ensures var pages := Walk(all, limit, 0);
            && Items(pages) == all
            && (forall i :: 0 <= i < |pages| ==> pages[i].Number() == i + 1 && pages[i].total == |all|)
            && (|all| > 0 ==> |pages| == pages[0].TotalPages())
            && (|all| == 0 ==> |pages| == 1 && pages[0].TotalPages() == 0)
  {
    var pages := Walk(all, limit, 0);
    WalkItems(all, limit, 0);
    forall i | 0 <= i < |pages| ensures pages[i].Number() == i + 1 && pages[i].total == |all| {
      WalkPage(all, limit, 0, i);
      QuotientIs(i * limit, limit, i);
    }
    WalkCount(all, limit);
  }

  lemma WalkCount(all: seq<Id>, limit: nat)
    requires 1 <= limit
    ensures var pages := Walk(all, limit, 0);
            && (|all| > 0 ==> |pages| == pages[0].TotalPages())
            && (|all| == 0 ==> |pages| == 1 && pages[0].TotalPages() == 0)
  {
    if |all| == 0 {
      QuotientIs(limit - 1, limit, 0);
    } else {
      var n := |Walk(all, limit, 0)|;
      WalkLength(all, limit, 0);
      assert (n - 1) * limit + limit == n * limit;
      QuotientIs(|all| + limit - 1, limit, n);
    }
  }

  /** How many dishes a user's filters match. */
  ghost function Matching(db: Db, user: Id, f: Filters, like: Like): nat {
    match ByOwner(db, user)
    case None => 0
    case Some(r) => |MatchKeys(db, r, f, like)|
  }

  /** A client that asks the service for page after page while `has_more`. */
  ghost function AskPages(db: Db, user: Id, f: Filters, like: Like, limit: nat, offset: nat): seq<Result<Page>>
    requires 1 <= limit
    decreases Matching(db, user, f, like) - offset
  {
    var reply := ListDishes(db, user, f, like, limit, offset);
    if reply.Ok? && reply.value.HasMore() then [reply] + AskPages(db, user, f, like, limit, offset + limit)
    else [reply]
  }

  function AllOk(pages: seq<Page>): seq<Result<Page>> {
    seq(|pages|, i requires 0 <= i < |pages| => Ok(pages[i]))
  }

  lemma SameGuard(db: Db, user: Id, f: Filters, like: Like, limit: nat, offset: nat, limit': nat, offset': nat)
    ensures ListDishes(db, user, f, like, limit, offset).Ok? <==> ListDishes(db, user, f, like, limit', offset').Ok?
  {
  }

  lemma {:induction false} AskedPages(db: Db, user: Id, f: Filters, like: Like, limit: nat, offset: nat)
    requires 1 <= limit && ListDishes(db, user, f, like, limit, offset).Ok?
    ensures AskPages(db, user, f, like, limit, offset) ==
            AllOk(Walk(SortIds(MatchKeys(db, ByOwner(db, user).value, f, like)), limit, offset))
    decreases Matching(db, user, f, like) - offset
  {
    hide MatchKeys;
    var all := SortIds(MatchKeys(db, ByOwner(db, user).value, f, like));
    PagesOfOneListing(db, user, f, like, limit, offset);
    if PageOf(all, limit, offset).HasMore() {
      SameGuard(db, user, f, like, limit, offset, limit, offset + limit);
      AskedPages(db, user, f, like, limit, offset + limit);
    }
  }

  ghost function Pages(db: Db, user: Id, f: Filters, like: Like, limit: nat): seq<Page>
    requires 1 <= limit && ByOwner(db, user).Some?
  {
    Walk(SortIds(MatchKeys(db, ByOwner(db, user).value, f, like)), limit, 0)
  }

  /** The i-th page, asked for by its offset. */
  lemma ServicePage(db: Db, user: Id, f: Filters, like: Like, limit: nat, i: nat, offset: nat)
    requires 1 <= limit && ListDishes(db, user, f, like, limit, 0).Ok?
    requires i < |Pages(db, user, f, like, limit)| && offset == i * limit
    ensures ListDishes(db, user, f, like, limit, offset) == Ok(Pages(db, user, f, like, limit)[i])
  {
    hide MatchKeys, Walk;
    WalkPage(SortIds(MatchKeys(db, ByOwner(db, user).value, f, like)), limit, 0, i);
    SameGuard(db, user, f, like, limit, 0, limit, offset);
    PagesOfOneListing(db, user, f, like, limit, offset);
  }

  /** Whatever the filters and the limit: the pages that a client is given while `has_more` hold every
      matching dish once, in (position, newest first) order; there are as many as announced, numbered
      from 1. */
  lemma ServicePageWalk(db: Db, user: Id, f: Filters, like: Like, limit: nat)
    requires 1 <= limit && ListDishes(db, user, f, like, limit, 0).Ok?
    ensures AskPages(db, user, f, like, limit, 0) == AllOk(Pages(db, user, f, like, limit))
    ensures var keys, pages := MatchKeys(db, ByOwner(db, user).value, f, like), Pages(db, user, f, like, limit);
            && Items(pages) == SortIds(keys) && IsOrder(Items(pages), keys)
            && (forall i :: 0 <= i < |pages| ==> pages[i].Number() == i + 1 && pages[i].total == |keys|)
            && (|keys| > 0 ==> |pages| == pages[0].TotalPages())
            && (|keys| == 0 ==> |pages| == 1 && pages[0].TotalPages() == 0)
  {
    hide MatchKeys, Walk, AskPages, AllOk;
    var keys := MatchKeys(db, ByOwner(db, user).value, f, like);
    AskedPages(db, user, f, like, limit, 0);
    PageWalk(SortIds(keys), limit);
    ListsLength(SortIds(keys), keys.Keys, keys);
    assert |keys| == |keys.Keys|;
  }

  // ----- Filters pick out of one listing

  ghost function Listing(db: Db, r: Id, f: Filters, like: Like): seq<Id> {
    SortIds(MatchKeys(db, r, f, like))
  }

  lemma MatchKeysDistinct(db: Db, r: Id, f: Filters, like: Like)
    requires DistinctStamps(db)
    ensures Distinct(MatchKeys(db, r, f, like))
  {
  }

  /** Every filtered listing is the whole listing with rows left out. */
  lemma FilteredListing(db: Db, r: Id, f: Filters, like: Like)
    requires DistinctStamps(db)
    ensures Listing(db, r, f, like) ==
            Filtered(Listing(db, r, NO_FILTERS, like), MatchKeys(db, r, f, like).Keys)
  {
    MatchKeysDistinct(db, r, NO_FILTERS, like);
    RestrictedOrder(MatchKeys(db, r, NO_FILTERS, like), MatchKeys(db, r, f, like));
  }

  lemma Listed(db: Db, r: Id, f: Filters, like: Like, d: Id)
    ensures d in MatchKeys(db, r, f, like) <==>
              d in MatchKeys(db, r, NO_FILTERS, like) && Matches(db.dishes[d], f, like)
  {
  }

  /** Without filters the listing holds exactly the restaurant's dishes that are not deleted. */
  lemma UnfilteredHolds(db: Db, r: Id, like: Like, d: Id)
    ensures d in MatchKeys(db, r, NO_FILTERS, like) <==>
              d in db.dishes && db.dishes[d].deleted == None && db.dishes[d].category in db.categories
              && db.categories[db.dishes[d].category].restaurant == r
  {
  }

  /** Each further filter, set to any value, keeps exactly the dishes that have it. */
  lemma EachFilterNarrows(
      db: Db, r: Id, f: Filters, like: Like, d: Id, category: Id, flag: bool, price: int)
    ensures f.category == None ==>
              (d in MatchKeys(db, r, f.(category := Some(category)), like) <==>
               d in MatchKeys(db, r, f, like) && db.dishes[d].category == category)
    ensures f.available == None ==>
              (d in MatchKeys(db, r, f.(available := Some(flag)), like) <==>
               d in MatchKeys(db, r, f, like) && db.dishes[d].available == flag)
    ensures f.featured == None ==>
              (d in MatchKeys(db, r, f.(featured := Some(flag)), like) <==>
               d in MatchKeys(db, r, f, like) && db.dishes[d].featured == flag)
    ensures f.minPrice == None ==>
              (d in MatchKeys(db, r, f.(minPrice := Some(price)), like) <==>
               d in MatchKeys(db, r, f, like) && price <= db.dishes[d].price)
    ensures f.maxPrice == None ==>
              (d in MatchKeys(db, r, f.(maxPrice := Some(price)), like) <==>
               d in MatchKeys(db, r, f, like) && db.dishes[d].price <= price)
  {
    hide MatchKeys;
    Listed(db, r, f, like, d);
    Listed(db, r, f.(category := Some(category)), like, d);
    Listed(db, r, f.(available := Some(flag)), like, d);
    Listed(db, r, f.(featured := Some(flag)), like, d);
    Listed(db, r, f.(minPrice := Some(price)), like, d);
    Listed(db, r, f.(maxPrice := Some(price)), like, d);
  }

  /** So do the texts; an empty one filters nothing. */
  lemma EachTextNarrows(db: Db, r: Id, f: Filters, like: Like, d: Id, text: string)
    ensures f.tag == None ==>
              (d in MatchKeys(db, r, f.(tag := Some(text)), like) <==>
               d in MatchKeys(db, r, f, like)
               && (text == "" || (db.dishes[d].tags.Some? && text in db.dishes[d].tags.value)))
    ensures f.search == None ==>
              (d in MatchKeys(db, r, f.(search := Some(text)), like) <==>
               d in MatchKeys(db, r, f, like)
               && (text == "" || like(text, db.dishes[d].name)
                   || (db.dishes[d].description.Some? && like(text, db.dishes[d].description.value))))
  {
    hide MatchKeys;
    Listed(db, r, f, like, d);
    Listed(db, r, f.(tag := Some(text)), like, d);
    Listed(db, r, f.(search := Some(text)), like, d);
  }

  /** Position by position, the newest first. */
  lemma ListingAscends(db: Db, r: Id, f: Filters, like: Like, i: nat, k: nat)
    requires DistinctStamps(db) && i < k < |Listing(db, r, f, like)|
    ensures var first, second := Listing(db, r, f, like)[i], Listing(db, r, f, like)[k];
            && first in db.dishes && second in db.dishes
            && var a, b := db.dishes[first], db.dishes[second];
            a.position < b.position || (a.position == b.position && a.created > b.created)
  {
    var keys := MatchKeys(db, r, f, like);
    MatchKeysDistinct(db, r, f, like);
    assert IsOrder(Listing(db, r, f, like), keys);
    assert keys[Listing(db, r, f, like)[i]] != keys[Listing(db, r, f, like)[k]];
  }

  /** Who is answered with a page: owners of a restaurant who filter by no category or by one of their own. */
  lemma ListingAnswered(db: Db, user: Id, f: Filters, like: Like, limit: nat, offset: nat)
    requires Valid(db)
    ensures var reply := ListDishes(db, user, f, like, limit, offset);
            var known := f.category.Some? ==> f.category.value in db.categories;
            var owns := exists r :: r in db.restaurants && db.restaurants[r].owner == user;
            && (reply == Err(NotFound) <==> !owns || !known)
            && (reply == Err(Forbidden) <==>
                owns && known && f.category.Some?
                && db.restaurants[db.categories[f.category.value].restaurant].owner != user)
            && (reply.Err? ==> reply.error == NotFound || reply.error == Forbidden)
  {
    hide MatchKeys;
  }

  /** `f` asks for what `g` and `h` ask for between them, and they never ask for the same dish. */
  ghost predicate Splits(f: Filters, g: Filters, h: Filters, like: Like) {
    forall d :: (Matches(d, f, like) <==> Matches(d, g, like) || Matches(d, h, like))
                && !(Matches(d, g, like) && Matches(d, h, like))
  }

  lemma SplitTotals(db: Db, r: Id, f: Filters, g: Filters, h: Filters, like: Like)
    requires Splits(f, g, h, like)
    ensures |MatchKeys(db, r, f, like)| == |MatchKeys(db, r, g, like)| + |MatchKeys(db, r, h, like)|
  {
    var whole, one, two := MatchKeys(db, r, f, like), MatchKeys(db, r, g, like), MatchKeys(db, r, h, like);
    assert whole.Keys == one.Keys + two.Keys && one.Keys !! two.Keys;
    assert |whole| == |whole.Keys| && |one| == |one.Keys| && |two| == |two.Keys|;
  }

  /** Asking for each value of a yes-or-no filter, or for the prices up to and from a bound, divides
      the dishes among the answers: the totals add up. */
  lemma FilterValuesDivide(db: Db, r: Id, f: Filters, like: Like, bound: int)
    ensures f.available == None ==>
              |MatchKeys(db, r, f, like)| == |MatchKeys(db, r, f.(available := Some(true)), like)|
                                             + |MatchKeys(db, r, f.(available := Some(false)), like)|
    ensures f.featured == None ==>
              |MatchKeys(db, r, f, like)| == |MatchKeys(db, r, f.(featured := Some(true)), like)|
                                             + |MatchKeys(db, r, f.(featured := Some(false)), like)|
    ensures (f.minPrice.Some? ==> f.minPrice.value <= bound + 1) && (f.maxPrice.Some? ==> bound <= f.maxPrice.value) ==>
              |MatchKeys(db, r, f, like)| == |MatchKeys(db, r, f.(maxPrice := Some(bound)), like)|
                                             + |MatchKeys(db, r, f.(minPrice := Some(bound + 1)), like)|
  {
    if f.available == None {
      SplitTotals(db, r, f, f.(available := Some(true)), f.(available := Some(false)), like);
    }
    if f.featured == None {
      SplitTotals(db, r, f, f.(featured := Some(true)), f.(featured := Some(false)), like);
    }
    if (f.minPrice.Some? ==> f.minPrice.value <= bound + 1) && (f.maxPrice.Some? ==> bound <= f.maxPrice.value) {
      SplitTotals(db, r, f, f.(maxPrice := Some(bound)), f.(minPrice := Some(bound + 1)), like);
    }
  }

  // ----- Two orders

  predicate Known(ids: seq<Id>, keys: map<Id, Key>) { forall i :: 0 <= i < |ids| ==> ids[i] in keys }

  /** The run of ties at the head of a listing moves behind `x`. */
  function TiesOf(x: Id, ids: seq<Id>, keys: map<Id, Key>): (k: nat)
    requires x in keys && Known(ids, keys)
    ensures k <= |ids| && forall i :: 0 <= i < k ==> keys[ids[i]].position == keys[x].position
    ensures k < |ids| ==> keys[ids[k]].position != keys[x].position
  {
    if ids == [] || keys[ids[0]].position != keys[x].position then 0 else 1 + TiesOf(x, ids[1..], keys)
  }

  function InsertAt(x: Id, k: nat, ids: seq<Id>): seq<Id>
    requires k <= |ids|
  {
    ids[..k] + [x] + ids[k..]
  }

  /** Each maximal run of equal positions, reversed in place. */
  function ReverseTies(ids: seq<Id>, keys: map<Id, Key>): (r: seq<Id>)
    requires Known(ids, keys)
    ensures Known(r, keys)
    decreases |ids|
  {
    if ids == [] then []
    else
      var rest := ReverseTies(ids[1..], keys);
      var k := TiesOf(ids[0], rest, keys);
      InsertAt(ids[0], k, rest)
  }

  function Reverse(ids: seq<Id>): seq<Id> {
    if ids == [] then [] else Reverse(ids[1..]) + [ids[0]]
  }

  lemma ReverseMembers(ids: seq<Id>)
    ensures |Reverse(ids)| == |ids| && forall x :: x in Reverse(ids) <==> x in ids
  {
  }

  lemma TiesAre(x: Id, ids: seq<Id>, keys: map<Id, Key>, k: nat)
    requires x in keys && Known(ids, keys)
    requires k <= |ids| && forall i :: 0 <= i < k ==> keys[ids[i]].position == keys[x].position
    requires k < |ids| ==> keys[ids[k]].position != keys[x].position
    ensures TiesOf(x, ids, keys) == k
  {
    var t := TiesOf(x, ids, keys);
    assert !(t < k) && !(k < t);
  }

  lemma HeadBehindTies(ids: seq<Id>, mid: seq<Id>, tail: seq<Id>, keys: map<Id, Key>)
    requires ids != [] && Known(ids, keys)
    requires ReverseTies(ids[1..], keys) == mid + tail
    requires forall i :: 0 <= i < |mid| ==> mid[i] in keys && keys[mid[i]].position == keys[ids[0]].position
    requires tail != [] ==> tail[0] in keys && keys[tail[0]].position != keys[ids[0]].position
    ensures ReverseTies(ids, keys) == mid + [ids[0]] + tail
  {
    TiesAre(ids[0], mid + tail, keys, |mid|);
    assert (mid + tail)[..|mid|] == mid && (mid + tail)[|mid|..] == tail;
  }

  lemma HeadKept(ids: seq<Id>, keys: map<Id, Key>, i: nat)
    requires ids != [] && forall k :: 0 <= k < |ids| ==> ids[k] in keys
    requires |ReverseTies(ids[1..], keys)| == |ids| - 1 && i < |ids|
    ensures |ReverseTies(ids, keys)| == |ids|
    ensures keys[ReverseTies(ids, keys)[i]].position ==
            if i == 0 then keys[ids[0]].position else keys[ReverseTies(ids[1..], keys)[i - 1]].position
  {
    var rest := ReverseTies(ids[1..], keys);
    var k := TiesOf(ids[0], rest, keys);
    InsertedAt(ids[0], k, rest, i);
  }

  /** Reversing ties keeps the position found at every place. */
  lemma {:induction false} PositionsKept(ids: seq<Id>, keys: map<Id, Key>)
    requires Known(ids, keys)
    ensures |ReverseTies(ids, keys)| == |ids|
    ensures forall i :: 0 <= i < |ids| ==> keys[ReverseTies(ids, keys)[i]].position == keys[ids[i]].position
    decreases |ids|
  {
    if ids != [] {
      PositionsKept(ids[1..], keys);
      forall i | 0 <= i < |ids|
        ensures |ReverseTies(ids, keys)| == |ids|
                && keys[ReverseTies(ids, keys)[i]].position == keys[ids[i]].position
      {
        HeadKept(ids, keys, i);
      }
    }
  }

  ghost predicate AllAt(ids: seq<Id>, keys: map<Id, Key>, p: int) {
    forall i :: 0 <= i < |ids| ==> ids[i] in keys && keys[ids[i]].position == p
  }

  /** A leading run of ties comes out reversed, followed by the rest treated likewise. */
  lemma {:induction false} LeadingBlock(block: seq<Id>, rest: seq<Id>, keys: map<Id, Key>, p: int)
    requires AllAt(block, keys, p) && Known(rest, keys)
    requires rest != [] ==> keys[rest[0]].position != p
    ensures ReverseTies(block + rest, keys) == Reverse(block) + ReverseTies(rest, keys)
  {
    hide ReverseTies;
    if block == [] {
      assert block + rest == rest;
    } else {
      var mid, tail := Reverse(block[1..]), ReverseTies(rest, keys);
      LeadingBlock(block[1..], rest, keys, p);
      assert (block + rest)[1..] == block[1..] + rest;
      forall i | 0 <= i < |mid| ensures mid[i] in keys && keys[mid[i]].position == p {
        ReverseMembers(block[1..]);
        assert mid[i] in mid;
      }
      PositionsKept(rest, keys);
      assert tail != [] ==> tail[0] in keys;
      HeadBehindTies(block + rest, mid, tail, keys);
    }
  }

  lemma HeadTies(x: Id, a: seq<Id>, b: seq<Id>, keys: map<Id, Key>)
    requires x in keys && Known(a, keys) && Known(b, keys)
    requires b != [] ==> keys[b[0]].position != keys[if a == [] then x else a[|a| - 1]].position
    ensures Known(a + b, keys) && TiesOf(x, a + b, keys) == TiesOf(x, a, keys)
  {
    var k := TiesOf(x, a, keys);
    assert forall i :: 0 <= i < |a| ==> (a + b)[i] == a[i];
    if k == |a| && b != [] { assert (a + b)[|a|] == b[0]; }
    TiesAre(x, a + b, keys, k);
  }

  lemma ReverseTiesHead(ids: seq<Id>, rest: seq<Id>, keys: map<Id, Key>)
    requires ids != [] && Known(ids, keys) && rest == ReverseTies(ids[1..], keys)
    ensures ReverseTies(ids, keys) == InsertAt(ids[0], TiesOf(ids[0], rest, keys), rest)
  {
  }

  lemma InsertedConcat(x: Id, k: nat, a: seq<Id>, b: seq<Id>)
    requires k <= |a|
    ensures InsertAt(x, k, a + b) == InsertAt(x, k, a) + b
  {
  }

  lemma HeadBeforeChange(ids: seq<Id>, more: seq<Id>, rest: seq<Id>, keys: map<Id, Key>)
    requires ids != [] && Known(ids, keys) && Known(more, keys) && Known(rest, keys)
    requires ids[1..] == more + rest
    requires ReverseTies(more + rest, keys) == ReverseTies(more, keys) + ReverseTies(rest, keys)
    requires rest != [] ==> keys[rest[0]].position != keys[if more == [] then ids[0] else more[|more| - 1]].position
    ensures Known([ids[0]] + more, keys)
    ensures ReverseTies(ids, keys) == ReverseTies([ids[0]] + more, keys) + ReverseTies(rest, keys)
  {
    hide ReverseTies, TiesOf, InsertAt;
    assert ([ids[0]] + more)[1..] == more;
    var x, a, b := ids[0], ReverseTies(more, keys), ReverseTies(rest, keys);
    assert b != [] ==> keys[b[0]].position != keys[if a == [] then x else a[|a| - 1]].position by {
      PositionsKept(more, keys);
      PositionsKept(rest, keys);
    }
    HeadTies(x, a, b, keys);
    ReverseTiesHead(ids, a + b, keys);
    ReverseTiesHead([x] + more, a, keys);
    InsertedConcat(x, TiesOf(x, a, keys), a, b);
  }

  /** Where the position changes, the two parts are treated separately. */
  lemma {:induction false} SplitsAtChange(ids: seq<Id>, k: nat, keys: map<Id, Key>)
    requires Known(ids, keys) && k <= |ids|
    requires 0 < k < |ids| ==> keys[ids[k - 1]].position != keys[ids[k]].position
    ensures ReverseTies(ids, keys) == ReverseTies(ids[..k], keys) + ReverseTies(ids[k..], keys)
    decreases k
  {
    hide ReverseTies;
    if k == 0 {
      assert ids[..0] == [] && ids[0..] == ids;
      NothingReversed(keys);
    } else {
      var more := ids[1..];
      SplitsAtChange(more, k - 1, keys);
      assert more[..k - 1] == ids[1..k] && more[k - 1..] == ids[k..] && more == ids[1..k] + ids[k..];
      HeadBeforeChange(ids, ids[1..k], ids[k..], keys);
      assert [ids[0]] + ids[1..k] == ids[..k];
    }
  }

  lemma NothingReversed(keys: map<Id, Key>)
    ensures ReverseTies([], keys) == []
  {
  }

  /** A longest run of one position. */
  predicate MaximalBlock(ids: seq<Id>, keys: map<Id, Key>, a: int, b: int) {
    && Known(ids, keys) && 0 <= a < b <= |ids|
    && (forall i :: a <= i < b ==> keys[ids[i]].position == keys[ids[a]].position)
    && (0 < a ==> keys[ids[a - 1]].position != keys[ids[a]].position)
    && (b < |ids| ==> keys[ids[b]].position != keys[ids[a]].position)
  }

  /** Every maximal block of ties comes out reversed, and what is around it is treated separately. */
  lemma ReverseTiesBlock(ids: seq<Id>, keys: map<Id, Key>, a: nat, b: nat)
    requires MaximalBlock(ids, keys, a, b)
    ensures ReverseTies(ids, keys) ==
            ReverseTies(ids[..a], keys) + Reverse(ids[a..b]) + ReverseTies(ids[b..], keys)
  {
    hide ReverseTies, Reverse;
    LeadingBlock(ids[a..b], ids[b..], keys, keys[ids[a]].position);
    SplitsAtChange(ids, a, keys);
    assert ids[a..] == ids[a..b] + ids[b..];
  }

  /** In its place: the two listings hold the same block in opposite orders. */
  lemma BlockReversed(ids: seq<Id>, keys: map<Id, Key>, a: nat, b: nat)
    requires MaximalBlock(ids, keys, a, b)
    ensures |ReverseTies(ids, keys)| == |ids| && ReverseTies(ids, keys)[a..b] == Reverse(ids[a..b])
  {
    hide ReverseTies, Reverse;
    ReverseTiesBlock(ids, keys, a, b);
    PositionsKept(ids[..a], keys);
    PositionsKept(ids, keys);
    ReverseMembers(ids[a..b]);
  }

  ghost predicate Mirrors(mirrored: map<Id, Key>, keys: map<Id, Key>) {
    && mirrored.Keys == keys.Keys
    && forall x :: x in keys ==> mirrored[x] == Key(keys[x].position, -keys[x].stamp)
  }

  lemma HeadBefore(ids: seq<Id>, rows: set<Id>, keys: map<Id, Key>, y: Id)
    requires rows <= keys.Keys && Distinct(keys) && Lists(ids, rows, keys)
    requires ids != [] && y in rows && y != ids[0]
    ensures Before(keys[ids[0]], keys[y])
  {
    assert y in ids;
    var j :| 0 <= j < |ids| && ids[j] == y;
    assert keys[ids[0]] != keys[y];
  }

  lemma BehindTies(x: Id, rest: seq<Id>, rows: set<Id>, keys: map<Id, Key>, mirrored: map<Id, Key>)
    requires Mirrors(mirrored, keys) && rows <= keys.Keys && x in keys && x !in rows
    requires Lists(rest, rows, mirrored)
    requires forall y :: y in rows ==> Before(keys[x], keys[y])
    ensures var k := TiesOf(x, rest, keys);
            Lists(rest[..k] + [x] + rest[k..], rows + {x}, mirrored)
  {
    var k := TiesOf(x, rest, keys);
    forall i | k <= i < |rest| ensures Before(mirrored[x], mirrored[rest[i]]) {
      assert rest[k] in rows && rest[i] in rows;
      assert Before(keys[x], keys[rest[k]]);
      assert i == k || !Before(mirrored[rest[i]], mirrored[rest[k]]);
    }
    if 0 < k {
      assert rest[k - 1] in rows;
    }
    InsertLists(x, k, rest, rows, mirrored);
  }

  lemma {:induction false} ReverseTiesLists(ids: seq<Id>, rows: set<Id>, keys: map<Id, Key>, mirrored: map<Id, Key>)
    requires rows <= keys.Keys && Mirrors(mirrored, keys) && Distinct(keys) && Lists(ids, rows, keys)
    ensures Lists(ReverseTies(ids, keys), rows, mirrored)
    decreases |ids|
  {
    if ids != [] {
      var x, rest := ids[0], ReverseTies(ids[1..], keys);
      TailLists(ids, rows, keys);
      ReverseTiesLists(ids[1..], rows - {x}, keys, mirrored);
      forall y | y in rows - {x} ensures Before(keys[x], keys[y]) { HeadBefore(ids, rows, keys, y); }
      BehindTies(x, rest, rows - {x}, keys, mirrored);
      assert rows - {x} + {x} == rows;
    }
  }

  ghost predicate NoTies(keys: map<Id, Key>) {
    forall x, y :: x in keys && y in keys && x != y ==> keys[x].position != keys[y].position
  }

  lemma {:induction false} NoTiesNoChange(ids: seq<Id>, rows: set<Id>, keys: map<Id, Key>)
    requires rows <= keys.Keys && Lists(ids, rows, keys) && NoTies(keys)
    ensures ReverseTies(ids, keys) == ids
    decreases |ids|
  {
    if ids != [] {
      TailLists(ids, rows, keys);
      NoTiesNoChange(ids[1..], rows - {ids[0]}, keys);
      assert TiesOf(ids[0], ids[1..], keys) == 0;
    }
  }

  /** The owner's filter for the available dishes of one category. */
  function AvailableIn(c: Id): Filters { NO_FILTERS.(category := Some(c), available := Some(true)) }

  lemma SameDishes(db: Db, r: Id, c: Id, like: Like)
    requires Active(db, r, c)
    ensures Mirrors(MatchKeys(db, r, AvailableIn(c), like), DishKeys(db, c))
  {
  }

  lemma MirroredDistinct(keys: map<Id, Key>, mirrored: map<Id, Key>)
    requires Distinct(keys) && Mirrors(mirrored, keys)
    ensures Distinct(mirrored)
  {
  }

  lemma MirroredOrder(keys: map<Id, Key>, mirrored: map<Id, Key>)
    requires Distinct(keys) && Mirrors(mirrored, keys)
    ensures SortIds(mirrored) == ReverseTies(SortIds(keys), keys)
  {
    var reversed := ReverseTies(SortIds(keys), keys);
    MirroredDistinct(keys, mirrored);
    assert IsOrder(reversed, mirrored) by { ReverseTiesLists(SortIds(keys), keys.Keys, keys, mirrored); }
    OrderUnique(SortIds(mirrored), reversed, mirrored);
  }

  lemma DishKeysDistinct(db: Db, c: Id)
    requires DistinctStamps(db)
    ensures Distinct(DishKeys(db, c))
  {
  }

  /** For one active category, the owner's listing of its available dishes holds the dishes that
      the public menu shows, with each block of equal positions reversed; without ties the two
      are the same sequence. */
  lemma TwoOrders(db: Db, r: Id, c: Id, like: Like)
    requires DistinctStamps(db) && Active(db, r, c)
    ensures var admin, public := SortIds(MatchKeys(db, r, AvailableIn(c), like)), SortIds(DishKeys(db, c));
            && admin == ReverseTies(public, DishKeys(db, c))
            && (NoTies(DishKeys(db, c)) ==> admin == public)
            && |admin| == |public|
            && forall a, b :: MaximalBlock(public, DishKeys(db, c), a, b) ==> admin[a..b] == Reverse(public[a..b])
  {
    SameDishes(db, r, c, like);
    DishKeysDistinct(db, c);
    MirroredOrder(DishKeys(db, c), MatchKeys(db, r, AvailableIn(c), like));
    PositionsKept(SortIds(DishKeys(db, c)), DishKeys(db, c));
    forall a, b | MaximalBlock(SortIds(DishKeys(db, c)), DishKeys(db, c), a, b)
      ensures ReverseTies(SortIds(DishKeys(db, c)), DishKeys(db, c))[a..b] == Reverse(SortIds(DishKeys(db, c))[a..b])
    {
      BlockReversed(SortIds(DishKeys(db, c)), DishKeys(db, c), a, b);
    }
    if NoTies(DishKeys(db, c)) { NoTiesNoChange(SortIds(DishKeys(db, c)), DishKeys(db, c).Keys, DishKeys(db, c)); }
  }
}
