/** One request at a time against the tables and one process's menu cache. */
module Serving {
  import opened Clock
  import opened Wrappers
  import opened Ordering
  import opened Catalogue
  import opened Menus
  import opened Caching

  const PREFIX: string := "menu:"
  const MENU_TTL: int := 300 * SECOND

  function CacheKey(slug: string): string { PREFIX + slug }

  datatype System = System(db: Db, cache: map<string, Entry<Menu>>)

  datatype Call = Owner(request: Request) | Visit(slug: string)

  datatype Reply = Done | Failed(error: Error) | Served(menu: Menu)

  /** Every writer clears the menus after its commit, except restaurant creation. */
  predicate Invalidates(req: Request) { !req.CreateRestaurant? }

  ghost function ServeOwner(s: System, req: Request, env: Env): (Reply, System) {
    match Write(s.db, req, env)
    case Err(e) => (Failed(e), s)
    case Ok(db) => (Done, System(db, if Invalidates(req) then Dropped(s.cache, PREFIX) else s.cache))
  }

  ghost function ServeVisit(s: System, slug: string, now: Time): (Reply, System) {
    var cached := Lookup(s.cache, CacheKey(slug), now);
    if cached.Some? then (Served(cached.value), s)
    else
      var cache := AfterLookup(s.cache, CacheKey(slug), now);
      match MenuFor(s.db, slug)
      case None => (Failed(NotFound), System(s.db, cache))
      case Some(m) => (Served(m), System(s.db, cache[CacheKey(slug) := Entry(m, now + MENU_TTL)]))
  }

  ghost function Serve(s: System, call: Call, env: Env): (Reply, System) {
    match call
    case Owner(req) => ServeOwner(s, req, env)
    case Visit(slug) => ServeVisit(s, slug, env.now)
  }

  /** The same request without any cache. */
  ghost function ServeUncached(db: Db, call: Call, env: Env): (Reply, Db) {
    match call
    case Owner(req) =>
      (match Write(db, req, env)
       case Err(e) => (Failed(e), db)
       case Ok(next) => (Done, next))
    case Visit(slug) =>
      match MenuFor(db, slug)
      case None => (Failed(NotFound), db)
      case Some(m) => (Served(m), db)
  }

  /** Every entry, expired or not, is the current menu of an existing restaurant. */
  ghost predicate Coherent(s: System) {
    forall k :: k in s.cache ==> PREFIX <= k && MenuFor(s.db, k[|PREFIX|..]) == Some(s.cache[k].value)
  }

  // ----- Runs

  /** The tables and cache, the ids drawn so far (numbered in order) and the clock. */
  datatype World = World(sys: System, issued: Id, now: Time)

  /** A call, and how long after the previous one it arrives. */
  datatype Event = Event(call: Call, delay: nat)

  predicate Draws(call: Call) { call.Owner? && call.request.Creates() }

  /** The clock never goes back, and creations are stamped later than all that came before. */
  function EnvOf(w: World, ev: Event): Env {
    Env(w.now + ev.delay + (if Draws(ev.call) then 1 else 0), w.issued)
  }

  ghost function Next(w: World, ev: Event): World {
    World(Serve(w.sys, ev.call, EnvOf(w, ev)).1,
          w.issued + (if Draws(ev.call) then 1 else 0), EnvOf(w, ev).now)
  }

  ghost function Run(w: World, events: seq<Event>): World
    decreases |events|
  {
    if events == [] then w else Run(Next(w, events[0]), events[1..])
  }

  ghost function Replies(w: World, events: seq<Event>): (replies: seq<Reply>)
    ensures |replies| == |events|
    decreases |events|
  {
    if events == [] then []
    else [Serve(w.sys, events[0].call, EnvOf(w, events[0])).0] + Replies(Next(w, events[0]), events[1..])
  }

  /** The replies of the same run with no cache anywhere. */
  ghost function RepliesUncached(w: World, events: seq<Event>): seq<Reply>
    decreases |events|
  {
    if events == [] then []
    else
      var (reply, db) := ServeUncached(w.sys.db, events[0].call, EnvOf(w, events[0]));
      [reply] + RepliesUncached(Next(w, events[0]).(sys := System(db, map[])), events[1..])
  }

  const START := World(System(EMPTY, map[]), 0, 0)

  ghost predicate Issued(w: World) {
    && (forall r :: r in w.sys.db.restaurants ==> r < w.issued)
    && (forall c :: c in w.sys.db.categories ==> c < w.issued && w.sys.db.categories[c].created <= w.now)
    && (forall d :: d in w.sys.db.dishes ==> d < w.issued && w.sys.db.dishes[d].created <= w.now)
  }

  ghost predicate Inv(w: World) {
    Valid(w.sys.db) && Issued(w) && Coherent(w.sys)
  }

  lemma NextDb(w: World, ev: Event)
    ensures Next(w, ev).sys.db ==
            if ev.call.Owner? then After(w.sys.db, ev.call.request, EnvOf(w, ev)) else w.sys.db
  {
  }

  lemma IssuedAfter(db: Db, req: Request, env: Env, issued: Id, now: Time)
    requires Issued(World(System(db, map[]), issued, now)) && now <= env.now && env.id == issued
    ensures Issued(World(System(After(db, req, env), map[]), issued + (if req.Creates() then 1 else 0), env.now))
  {
    match req
    case _ =>
  }

  lemma IssuedKept(w: World, ev: Event)
    requires Issued(w)
    ensures Issued(Next(w, ev))
  {
    NextDb(w, ev);
    if ev.call.Owner? {
      IssuedAfter(w.sys.db, ev.call.request, EnvOf(w, ev), w.issued, w.now);
    }
  }

  /** A new restaurant takes a new slug, so it makes no cached menu stale. */
  lemma NewRestaurantKeepsMenus(db: Db, id: Id, row: Restaurant, slug: string)
    requires Valid(db) && id !in db.restaurants && MenuFor(db, slug).Some?
    requires forall r :: r in db.restaurants ==> db.restaurants[r].slug != row.slug
    ensures MenuFor(db.(restaurants := db.restaurants[id := row]), slug) == MenuFor(db, slug)
  {
    var next := db.(restaurants := db.restaurants[id := row]);
    var r := BySlug(db, slug).value;
    assert r in next.restaurants && next.restaurants[r].slug == slug;
    assert BySlug(next, slug) == Some(r);
    forall c ensures DishKeys(next, c) == DishKeys(db, c) {}
    assert ShownKeys(next, r) == ShownKeys(db, r);
    MenuFrame(next, db, r);
  }

  lemma CoherentAfterWrite(s: System, req: Request, env: Env)
    requires Valid(s.db) && Coherent(s) && (req.Creates() ==> Fresh(s.db, env))
    ensures Coherent(Serve(s, Owner(req), env).1)
  {
    if req.CreateRestaurant? && ByOwner(s.db, req.user) == None {
      var taken, base := TakenSlugs(s.db, None), Slugs.GenerateSlug(req.name);
      var row := Restaurant(req.user, req.name, SlugAllocator.FirstFree(base, taken), req.info);
      SlugAllocator.FirstFreeIsFirst(base, taken, 0);
      assert forall r :: r in s.db.restaurants ==> s.db.restaurants[r].slug in taken;
      forall k | k in s.cache
        ensures MenuFor(After(s.db, req, env), k[|PREFIX|..]) == Some(s.cache[k].value)
      {
        NewRestaurantKeepsMenus(s.db, env.id, row, k[|PREFIX|..]);
      }
    }
  }

  lemma CoherentAfterVisit(s: System, slug: string, env: Env)
    requires Coherent(s)
    ensures Coherent(Serve(s, Visit(slug), env).1)
  {
    assert CacheKey(slug)[|PREFIX|..] == slug;
  }

  lemma InvKept(w: World, ev: Event)
    requires Inv(w)
    ensures Inv(Next(w, ev))
  {
    IssuedKept(w, ev);
    NextDb(w, ev);
    if ev.call.Owner? {
      ValidKept(w.sys.db, ev.call.request, EnvOf(w, ev));
      CoherentAfterWrite(w.sys, ev.call.request, EnvOf(w, ev));
    } else {
      CoherentAfterVisit(w.sys, ev.call.slug, EnvOf(w, ev));
    }
  }

  /** In every reachable state each cache entry is the menu freshly built from the tables. */
  lemma {:induction false} InvAlways(w: World, events: seq<Event>)
    requires Inv(w)
    ensures Inv(Run(w, events))
    decreases |events|
  {
    if events != [] {
      InvKept(w, events[0]);
      InvAlways(Next(w, events[0]), events[1..]);
    }
  }

  lemma ReachableCoherent(events: seq<Event>)
    ensures Inv(Run(START, events))
  {
    InvAlways(START, events);
  }

  /** From a coherent state a request gets the reply it would get without a cache. */
  lemma ReplyUncached(s: System, call: Call, env: Env)
    requires Coherent(s)
    ensures Serve(s, call, env).0 == ServeUncached(s.db, call, env).0
    ensures Serve(s, call, env).1.db == ServeUncached(s.db, call, env).1
  {
    if call.Visit? && CacheKey(call.slug) in s.cache {
      assert CacheKey(call.slug)[|PREFIX|..] == call.slug;
    }
  }

  /** What a miss has stored answers the same visit, whatever the tables hold by then, for 300 seconds and
      not a microsecond longer. */
  lemma CachedExactlyFor(s: System, slug: string, now: Time, db: Db, later: Time)
    requires Lookup(s.cache, CacheKey(slug), now).None? && MenuFor(s.db, slug).Some?
    ensures var cache := ServeVisit(s, slug, now).1.cache;
            ServeVisit(System(db, cache), slug, later).0 ==
            if later <= now + 300_000_000 then Served(MenuFor(s.db, slug).value)
            else ServeUncached(db, Visit(slug), Env(later, 0)).0
  {
    hide MenuFor;
  }

  /** A visit stores or discards nothing but its own slug's menu, and a missing slug's never. */
  lemma VisitTouchesOwnKey(s: System, slug: string, now: Time, key: string)
    ensures var next := ServeVisit(s, slug, now).1;
            && next.db == s.db
            && (key != "menu:" + slug ==> (key in next.cache <==> key in s.cache))
            && (key != "menu:" + slug && key in s.cache ==> next.cache[key] == s.cache[key])
            && (MenuFor(s.db, slug).None? && Coherent(s) ==> "menu:" + slug !in next.cache)
  {
    hide MenuFor;
    assert ("menu:" + slug)[|PREFIX|..] == slug;
  }

  /** A successful write leaves no menu cached, except that creating a restaurant leaves them all; a failed
      one changes nothing. */
  lemma ClearsExactly(s: System, req: Request, env: Env)
    requires Coherent(s)
    ensures var (reply, next) := ServeOwner(s, req, env);
            && (reply == Done && !req.CreateRestaurant? ==> next.cache == map[])
            && (reply == Done && req.CreateRestaurant? ==> next.cache == s.cache)
            && (reply != Done ==> next == s)
  {
    hide MenuFor, Write;
  }

  lemma {:induction false} TransparentFrom(w: World, events: seq<Event>)
    requires Inv(w)
    ensures Replies(w, events) == RepliesUncached(w.(sys := System(w.sys.db, map[])), events)
    decreases |events|
  {
    if events != [] {
      var bare := w.(sys := System(w.sys.db, map[]));
      var ev := events[0];
      assert EnvOf(bare, ev) == EnvOf(w, ev);
      ReplyUncached(w.sys, ev.call, EnvOf(w, ev));
      InvKept(w, ev);
      TransparentFrom(Next(w, ev), events[1..]);
      var (_, db) := ServeUncached(bare.sys.db, ev.call, EnvOf(bare, ev));
      assert Next(bare, ev).(sys := System(db, map[])) ==
             Next(w, ev).(sys := System(Next(w, ev).sys.db, map[]));
    }
  }

  /** Over every run of requests taken one at a time, the cached service answers exactly as
      the service without a cache. */
  lemma CacheIsTransparent(events: seq<Event>)
    ensures Replies(START, events) == RepliesUncached(START, events)
  {
    TransparentFrom(START, events);
  }
}
