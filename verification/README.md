# LiveMenu: a verified model

LiveMenu lets restaurant owners keep a menu of categories and dishes and serves it to the public
by slug. This project models the parts of its backend where state, order and time interact, and
proves what they guarantee. `dafny verify dfyconfig.toml` checks everything.

| module | what it covers |
|---|---|
| `Catalogue`, `Menus` | the tables, every owner request as a change of the tables, the public menu as a view of them |
| `Caching`, `Serving` | the TTL cache, and runs of requests taken one at a time |
| `Services` | the services and repositories as classes whose methods change rows and clear the cache, each proved equal to its request in `Serving` |
| `Interleaved` | several processes with a cache each, whose readers and writers interleave at every await |
| `Processes` | what processes keep apart in that model, and what a writer owes its own |
| `Outcomes`, `Answers` | what each request leaves in each field of each row, and how it is answered, said of the rows |
| `Isolation`, `Lifetimes`, `Positions`, `Effects`, `Listings` | consequences: tenants, how long rows live, ordering, what undoes what, paging |
| `Slugs`, `SlugAllocator` | the slug normaliser and the search for a free slug |
| `Tokens` | register, login, refresh and logout |
| `Analytics`, `ObjectKeys` | scan reports, storage keys and their public URLs |
| `Ordering`, `Wrappers`, `Clock` | `ORDER BY position, created_at`; results, errors and partial updates; time |

Functions such as `Catalogue.Write`, `Menus.BuildMenu`, `Serving.Serve`, `Interleaved.Next` and
`Tokens.Serve` say what one step does. The methods of `Services` and `Tokens.AuthService` perform
the same steps by assignment and are proved against them; the lemmas then reason about whole runs.

Main results:

- **The cache is invisible.** `Serving.CacheIsTransparent`: over every run of serial requests the
  replies are those of a service with no cache. This holds although creating a restaurant clears
  nothing: its slug is new, and missing slugs are never cached.
- **Staleness is bounded.** `Interleaved.BoundedStaleness`: under any interleaving a served menu
  was the true menu at some moment, was stored no earlier, and is at most 300 seconds past its
  storing; `Interleaved.ServedWasStored` names the read and store steps of the run.
  `Interleaved.SettlesExactlyWhen` and `Processes.ReadOwnCommit` give the exact conditions under
  which old menus die out; `Interleaved.StaleHitAfterClear` exhibits the race
  (read, commit, clear, store) that makes a condition necessary. The step model is tied back to
  the serial one by `Interleaved.SoloHit`, `SoloMiss`, `SoloNotFound` and `SoloWrite`.
- **Slugs.** The unbounded search ends, by pigeonhole over candidates made distinct by injective
  decimal printing, and returns the first free candidate; the normaliser's values are exactly the
  short normal forms. `Slugs.PartsJoined`, `SeparatorsAlike`, `CaseIgnored`, `UnknownDropped` and
  `LimitOnlyCuts` reduce any text to one.
- **Answers and rows.** `Answers.AnsweredInEveryRun` gives every request's answer from the rows alone;
  `Outcomes` gives what an accepted one leaves in every field.
- **Isolation and permanence.** Other owners' requests leave a restaurant's rows and menu as they
  were; a deleted dish never changes and is never served again; a dish lives exactly until its owner
  deletes it or the restaurant (`Lifetimes.DishLivesExactlyUntil`).
- **Tokens.** Revocation is final, a token is exchanged at most once, a chain of rotations has at
  most one open token, and a user's open tokens are tallied over every run.
  `Tokens.AcceptedExactlyWhen` says exactly when an issued token is still accepted, and
  `Tokens.LoginAnswered` who may log in.

Where the plain reading of the code is false, the exact condition is proved:

- Appending is not always strictly last by position: `max_position or -1` reads a maximum of zero
  as no maximum (`Positions.NextPosition`). Rows still come last because of `created_at`, and from
  empty tables all positions stay zero (`Positions.PositionsStayZero`).
- `make_unique_slug` promises a unique slug but does not check its random suffix
  (`SlugAllocator.BoundedSearchAgrees`, `BoundedSearchMayCollide`). The services do not call it.
- An allocated slug is not always in normal form: a suffixed slug of an empty base starts with a
  hyphen (`SlugAllocator.AllocatedForm`, `PunctuationOnlyName`).
- A cleared cache may become stale again (`Interleaved.StaleHitAfterClear`).
- Deleting by URL does not look for the slash after the public prefix, so a foreign URL with another
  character there deletes too (`ObjectKeys.WhatIsDeleted`, `DeletionIsOwn`).

## Assumptions

- One clock, which never goes back. A row that is created is stamped later than every earlier
  creation, so `created_at` values are distinct within a table; SQL leaves ties open otherwise.
- Row ids and `jti` values are drawn fresh. They are numbered in the order drawn.
- The menu's database reads are one atomic snapshot. The refresh after each commit succeeds.
- In `Serving` and `Tokens` one request runs at a time. In `Interleaved` the steps of menu
  requests, commits and cache clearing interleave freely, commits may install any tables at all,
  and processes may restart. `version`, `readAt`, `storedAt` and the token `chains` are bookkeeping that the
  program does not store.
- A token is its claims; its stored hash is injective; `decodes` stands for the library's check of
  the signature and of the time claims (sections 4.1.4 and 4.1.5 of RFC 7519).
- Lower-casing is ASCII. The normal-form lemmas are stated on already lower-cased text and so hold
  for any lower-casing; `SlugFixpoint` needs one that leaves the slug alphabet alone.
- Times are integer microseconds in one time zone. Months come from an arbitrary function of the
  day number, weeks start on Monday. Prices are integers in the smallest unit.
- The case-insensitive pattern match of the dish search is an arbitrary relation.
- A null in a partial update of a column that admits none, and a position outside a 32-bit
  INTEGER, fail in the database: the request ends in a server error and changes nothing.
- A missing restaurant behind a category is a 404 for category requests and a 403 for dish
  requests, as in the code; it is unreachable (`Lifetimes.ChecksAgree`).
- The Google backend has a bucket, as its constructor demands, and no bucket name holds a slash.

## Model

| member | source | states |
|---|---|---|
| Serving.CacheIsTransparent | api/app/services/menu_service.py:34-115 | over every serial run from empty tables the replies with the cache equal the replies without any cache |
| Serving.ReachableCoherent | api/app/services/menu_service.py:34-47 | in every reachable state each cache entry, expired or not, is the menu freshly built for an existing restaurant |
| Serving.InvAlways | api/app/services/menu_service.py:34-115 | the coherence and table invariants hold after every run from a state that has them |
| Serving.InvKept | api/app/core/cache.py:11-58 | each request of any kind keeps them |
| Serving.NewRestaurantKeepsMenus | api/app/services/restaurant_service.py:60-84 | a restaurant with a new slug changes no existing menu, so creation needs no clearing |
| Serving.CoherentAfterWrite | api/app/services/restaurant_service.py:114-129 | after any write, with its clearing where it clears, no cached menu is outdated |
| Serving.CoherentAfterVisit | api/app/services/menu_service.py:34-38 | after a visit, hit or miss, found or not, the cache is still coherent |
| Serving.ReplyUncached | api/app/services/menu_service.py:22-115 | from a coherent state one request gets the reply, and leaves the tables, of the cacheless service |
| Serving.CachedExactlyFor | api/app/core/cache.py:24-38 | what a miss stored answers the same visit for 300 seconds, whatever the tables hold, and not a microsecond longer |
| Serving.VisitTouchesOwnKey | api/app/services/menu_service.py:34-113 | a visit stores or discards its own slug's menu only, and never one for a missing slug |
| Serving.ClearsExactly | api/app/services/restaurant_service.py:72-84 | a successful write leaves no menu cached, except that creating a restaurant leaves all; a failed one changes nothing |
| Serving.TransparentFrom | api/app/services/menu_service.py:34-115 | transparency of the cache from any state with the invariants |
| Interleaved.BoundedStaleness | api/app/services/menu_service.py:34-38 | under any interleaving of processes a served menu was true when read, read no later than the recorded moment of its storing, and served at most 300 s after that moment |
| Interleaved.ServedWasStored | api/app/services/menu_service.py:58-113 | a menu served from a cache repeats the reply of an earlier store step of the run in that process, itself preceded by the read step it came from, at most 300 s before; one served on a miss was read by an earlier step |
| Interleaved.InvKept | api/app/core/cache.py:24-38 | each step keeps: entries and menus in flight were true when read, an entry was read no later than it was stored, and it expires 300 s after it was stored |
| Interleaved.InvAlways | infra/terraform/cloud_run.tf:51-54 | that invariant after every run, for any number of processes |
| Interleaved.SettlesExactlyWhen | api/app/services/menu_service.py:58-113 | once commits stop, every menu served more than 300 s later is current if and only if no request in flight holds an outdated menu |
| Interleaved.NeverOlderExactlyWhen | api/app/services/menu_service.py:34-113 | a process whose cache is empty never serves anything older than a version if and only if no request in flight there has read an older one |
| Interleaved.ReadYourWrites | api/app/services/category_service.py:135-137 | after a writer has cleared its process's menus that process serves nothing older than the commit if and only if no request in flight there had read before it |
| Interleaved.StaleHitAfterClear | api/app/services/menu_service.py:58-113 | a run in one process after which an outdated menu is served from the cache although the writer has cleared it |
| Processes.ReadOwnCommit | api/app/services/category_service.py:135-137 | after a commit and any run that leaves its writer pending, the writer is still there to clear, and from its clearing its process serves nothing older than that very commit if and only if no request in flight there holds an older menu |
| Processes.PendingKept | api/app/services/category_service.py:135-137 | a committed writer stays pending over every run without its clearing, a restart of its process or another process taking its id, whatever others commit |
| Processes.WriterSteps | api/app/core/cache.py:50-58 | a commit appends its tables and touches no cache; a clearing empties its own process's menus and ends that writer only |
| Processes.ProcessesApart | infra/terraform/cloud_run.tf:51-54 | no step of one process changes another's cache, requests in flight or pending writers |
| Processes.RestartForgets | api/app/core/cache.py:5-5 | a restarted process has an empty cache and nothing in flight, and the tables stay |
| Interleaved.SoloHit | api/app/services/menu_service.py:34-38 | a cache hit in the step model is the serial service's hit |
| Interleaved.SoloMiss | api/app/services/menu_service.py:34-115 | lookup, read and store with nothing in between give the serial service's reply, tables and cache |
| Interleaved.SoloNotFound | api/app/services/menu_service.py:41-47 | so do lookup and read when the slug is unknown: a 404, and nothing cached |
| Interleaved.SoloWrite | api/app/services/category_service.py:135-137 | commit and clear with nothing in between are the serial service's write |
| Caching.Cache.Get | api/app/core/cache.py:11-27 | returns the value up to and including the moment of expiry, and removes the key after it |
| Caching.Cache.Put | api/app/core/cache.py:30-38 | binds the key to the value, expiring a TTL from now, and nothing else |
| Caching.Cache.Invalidate | api/app/core/cache.py:41-47 | removes exactly one key |
| Caching.Cache.InvalidatePrefix | api/app/core/cache.py:50-58 | the deleting loop removes exactly the keys with the prefix |
| Caching.Cache.KeysWith | api/app/core/cache.py:56-56 | collects exactly the keys with the prefix |
| Caching.Cache.Clear | api/app/core/cache.py:61-63 | empties the cache |
| Services.MenuService.GetMenuBySlug | api/app/services/menu_service.py:22-115 | reply and new cache are those of the serial visit |
| Services.MenuService.Build | api/app/services/menu_service.py:49-110 | the filter-sort-append loop yields the menu defined as a view of the tables |
| Services.MenuService.AvailableDishes | api/app/services/menu_service.py:63-86 | filtering then sorting yields the visible dishes of the category in order, empty exactly when there are none |
| Services.RestaurantService.EnsureUniqueSlug | api/app/services/restaurant_service.py:131-158 | the unbounded search ends and returns the first candidate that no other restaurant holds |
| Services.RestaurantService.Create | api/app/services/restaurant_service.py:43-84 | one restaurant per owner; a new row with a free slug; the cache is not cleared |
| Services.RestaurantService.Update | api/app/services/restaurant_service.py:86-116 | partial update, a new slug exactly when a name is given, menus cleared |
| Services.RestaurantService.Delete | api/app/services/restaurant_service.py:118-129 | the restaurant and all its categories and dishes go, menus cleared |
| Services.CategoryService.Create | api/app/services/category_service.py:73-102 | appended row, menus cleared, or 404 |
| Services.CategoryService.Update | api/app/services/category_service.py:104-137 | partial update behind the ownership check |
| Services.CategoryService.Delete | api/app/services/category_service.py:139-172 | refused while live dishes remain, else the category and its dish rows go |
| Services.CategoryService.Reorder | api/app/services/category_service.py:174-206 | all ids are checked before any row moves: all or nothing |
| Services.Store.ReorderCategories | api/app/repositories/category_repo.py:100-114 | the loop of updates leaves each listed category at the index of its last occurrence and every other row alone |
| Services.Store.UpdateDish | api/app/repositories/dish_repo.py:141-149 | assigning field by field yields the patched row and leaves the others alone |
| Services.Store.UpdateCategory | api/app/repositories/category_repo.py:64-72 | likewise for a category |
| Services.Store.UpdateRestaurant | api/app/repositories/restaurant_repo.py:64-76 | likewise for a restaurant, its slug moving with its name only |
| Services.Store.DeleteCategory | api/app/models/category.py:54-58 | the cascading loop removes the category and exactly its dishes |
| Services.Store.DeleteRestaurant | api/app/models/restaurant.py:58-63 | the cascading loops remove the restaurant, exactly its categories and exactly their dishes |
| Services.Store.HasActiveDishes | api/app/repositories/category_repo.py:79-89 | the count is positive if and only if some dish of the category is not deleted |
| Services.CategoryService.VerifyRestaurantOwnership | api/app/services/category_service.py:22-44 | 404 for a missing restaurant, 403 for another owner's |
| Services.CategoryService.GetOwned | api/app/services/category_service.py:123-132 | the lookups of update and delete decide as the ownership guard does |
| Services.DishService.VerifyCategoryOwnership | api/app/services/dish_service.py:25-49 | the chain of lookups decides as the ownership guard does |
| Services.DishService.GetDish | api/app/services/dish_service.py:117-145 | deleted or unknown dishes are a 404 before ownership is looked at |
| Services.Store.MaxPosition | api/app/repositories/category_repo.py:91-98 | the greatest position, or none |
| Services.Store.GetByOwner | api/app/repositories/restaurant_repo.py:50-55 | the owner's one restaurant |
| Services.Store.GetBySlug | api/app/repositories/restaurant_repo.py:57-62 | the one restaurant with the slug |
| Services.DishService.Create | api/app/services/dish_service.py:147-176 | appended row behind the ownership check |
| Services.DishService.Update | api/app/services/dish_service.py:178-204 | partial update; a move is checked against the new category too |
| Services.DishService.Delete | api/app/services/dish_service.py:206-223 | marks the row deleted now, keeps it |
| Services.DishService.ToggleAvailability | api/app/services/dish_service.py:225-242 | flips availability and nothing else |
| Services.PlacedSnoc | api/app/repositories/category_repo.py:107-113 | one more UPDATE extends the placement by its id, overriding earlier occurrences |
| Services.TakenIff | api/app/services/restaurant_service.py:145-157 | the lookup's answer says whether another restaurant holds the slug |
| Services.RenderedAll | api/app/services/menu_service.py:87-97 | dropping empty categories from the fetched list equals listing the non-empty ones |
| Catalogue.ValidKept | api/app/models/restaurant.py:31-39 | every request keeps slugs and owners unique, foreign keys intact and creation stamps distinct |
| Catalogue.UniqueKept | api/app/models/restaurant.py:31-39 | in particular no request can violate a unique column |
| Catalogue.LinkedKept | api/app/models/category.py:30-35 | in particular no request leaves a dangling foreign key |
| Catalogue.Greatest | api/app/repositories/dish_repo.py:165-172 | an upper bound that some row attains, none exactly for no rows |
| Catalogue.LastIndex | api/app/repositories/category_repo.py:107-113 | the place of the last occurrence |
| Menus.MenuHolds | api/app/services/menu_service.py:49-97 | said of the rows: a menu shows a dish under a category if and only if the dish is in it, available and not deleted, and the category is the restaurant's and active |
| Menus.SlugServes | api/app/services/menu_service.py:40-47 | a slug is a 404 if and only if no restaurant holds it, and else serves the menu of the one that does |
| Outcomes.SwitchedOffIsHidden | api/app/services/menu_service.py:50-53 | after an update that switches a category off no menu shows any dish under it |
| Menus.NoEmptyCategory | api/app/services/menu_service.py:87-97 | no category of a menu is empty |
| Menus.MenuShowsRows | api/app/services/menu_service.py:71-110 | every field that the menu shows of a restaurant, category or dish is that of its row |
| Menus.EachDishOnce | api/app/services/menu_service.py:61-97 | a menu shows each dish at one place only |
| Menus.MenuAscends | api/app/services/menu_service.py:55-55 | categories strictly ascend by (position, created_at) |
| Menus.DishesAscend | api/app/services/menu_service.py:69-69 | so do the dishes of each category |
| Menus.MenuFrame | api/app/services/menu_service.py:49-110 | tables that agree on the shown rows give the same menu |
| Menus.MenuOfSlice | api/app/services/menu_service.py:49-110 | a menu depends on the restaurant's own rows only |
| Menus.NewCategoryIsInvisible | api/app/services/category_service.py:73-102 | creating a category changes no public menu |
| Menus.CategoryDeletionIsInvisible | api/app/services/category_service.py:164-172 | a permitted category deletion changes no public menu and removes no live dish |
| Ordering.OrderUnique | api/app/repositories/category_repo.py:59-59 | distinct keys leave only one listing |
| Ordering.RestrictedOrder | api/app/repositories/category_repo.py:48-62 | listing a part of the rows picks them out of the full listing in order |
| Ordering.SortByKey | api/app/services/menu_service.py:69-69 | a sorted permutation of the rows, in which rows with equal keys keep the order they came in |
| Ordering.Select | api/app/services/menu_service.py:50-59 | the rows in order, each once; the one listing when keys are distinct |
| Answers.AnsweredInEveryRun | api/app/services/category_service.py:123-172 | in every reachable state every request gets the answer that the rows call for: success, or the 404, 403, 409, 400 or 500 due first |
| Answers.Answered | api/app/services/dish_service.py:25-49 | the same from any state whose tables are valid |
| Outcomes.UpdatedDish | api/app/repositories/dish_repo.py:141-149 | field by field: a named field holds its value, a null clears, a field left out is kept; stamps and all other rows stay |
| Outcomes.UpdatedCategory | api/app/repositories/category_repo.py:64-72 | likewise for a category |
| Outcomes.UpdatedRestaurant | api/app/repositories/restaurant_repo.py:64-76 | likewise for a restaurant's name and details; the owner stays |
| Outcomes.RenamedRestaurant | api/app/services/restaurant_service.py:107-112 | a rename moves the slug to the name's, or the least numbered one, that no other restaurant holds |
| Outcomes.CreatedRestaurant | api/app/services/restaurant_service.py:68-84 | a new row with the data given, at the first free slug of its name, and no other change |
| Outcomes.DeletedRestaurant | api/app/models/restaurant.py:58-63 | the row goes with exactly its categories and exactly their dishes |
| Outcomes.CreatedCategory | api/app/repositories/category_repo.py:16-39 | a new row of the user's restaurant with the data given, stamped now, one beyond the greatest position of all its categories, or at zero if that is zero or there are none |
| Outcomes.CreatedDish | api/app/repositories/dish_repo.py:19-51 | likewise for a dish, after the dishes of its category that are not deleted |
| Outcomes.DeletedCategory | api/app/services/category_service.py:164-172 | the category goes with exactly its dishes, none of them live |
| Outcomes.ReorderedCategories | api/app/repositories/category_repo.py:100-114 | each listed category gets the place of its last mention; nothing else changes |
| Outcomes.ToggledOrDeleted | api/app/repositories/dish_repo.py:151-163 | a toggle flips availability, a deletion stamps the row with now; no other field or row changes |
| Isolation.TenantIsolation | api/app/services/dish_service.py:25-49 | over every run without requests of its owner a restaurant keeps its rows, slug and public menu |
| Isolation.OthersUntouched | api/app/services/category_service.py:22-44 | one request leaves every restaurant of another owner untouched |
| Isolation.DishStaysHome | api/app/services/dish_service.py:194-204 | over every run a dish stays in its restaurant, and a removed row never returns |
| Isolation.HomeKept | api/app/models/restaurant.py:31-37 | one request, moves included, keeps a dish in its restaurant |
| Isolation.DishMovesWithinOwner | api/app/services/dish_service.py:198-200 | a dish changes category only between two that the user owns |
| Isolation.DeletionIsPermanent | api/app/services/dish_service.py:134-145 | over every run a deleted dish's fields never change and no reply, cached or fresh, shows it |
| Isolation.GoneStays | api/app/repositories/dish_repo.py:53-61 | one request cannot touch a deleted dish, except for a cascade removing its row |
| Isolation.GoneNotServed | api/app/services/menu_service.py:65-68 | a coherent state never serves a deleted dish |
| Positions.ListingHolds | api/app/repositories/category_repo.py:48-57 | exactly the restaurant's categories, or its active ones |
| Positions.ListingAscends | api/app/repositories/category_repo.py:59-59 | strictly by position and creation |
| Positions.FullReorderLists | api/app/repositories/category_repo.py:48-62 | after a duplicate-free reorder of all categories the listing is that list, and the active and public listings are its parts |
| Positions.ReorderPlaces | api/app/services/category_service.py:196-205 | a reorder places if every id is the owner's, else nothing changes |
| Positions.ReorderOverrides | api/app/repositories/category_repo.py:100-114 | a later reorder that covers an earlier one overrides it completely |
| Positions.NextPosition | api/app/repositories/category_repo.py:91-98 | never below an existing position; above all of them if and only if the greatest is not zero, and then without a gap; zero for no rows |
| Positions.NewCategoryListedLast | api/app/repositories/category_repo.py:25-27 | a new category is listed last, ties included |
| Positions.NewDishShownLast | api/app/repositories/dish_repo.py:33-34 | a new available dish is last in its public category |
| Positions.PositionsStayZero | api/app/repositories/dish_repo.py:165-173 | from all-zero positions, runs without updates and reorders keep all positions zero |
| Listings.PagesOfOneListing | api/app/repositories/dish_repo.py:78-139 | a page is a window of one ordered listing of the matches, and `total` is that listing's length |
| Listings.ServicePageWalk | api/app/services/dish_service.py:81-115 | for every filter set and limit, the replies given while `has_more` are pages that together list every matching dish once, in order; there are `total_pages` of them, numbered from 1, and an empty listing has one page and announces none |
| Listings.ServicePage | api/app/utils/pagination.py:17-34 | the page asked for by its offset is that page of the walk |
| Listings.ListingAnswered | api/app/services/dish_service.py:81-92 | 404 without a restaurant or for an unknown category, 403 for someone else's category, else a page |
| Listings.UnfilteredHolds | api/app/repositories/dish_repo.py:81-93 | without filters exactly the restaurant's dishes that are not deleted |
| Listings.EachFilterNarrows | api/app/repositories/dish_repo.py:95-126 | each filter, added to any others, keeps exactly the dishes that have its value |
| Listings.EachTextNarrows | api/app/repositories/dish_repo.py:107-118 | so do search text and tag, and empty ones filter nothing |
| Listings.ListingAscends | api/app/repositories/dish_repo.py:133-133 | by position, the newest first |
| Listings.FilteredListing | api/app/repositories/dish_repo.py:78-139 | every filtered listing is the unfiltered one with rows left out |
| Listings.FilterValuesDivide | api/app/repositories/dish_repo.py:99-126 | totals add up over the two values of a yes-or-no filter, and over the prices up to a bound and above it |
| Listings.TwoOrders | api/app/repositories/dish_repo.py:133-133 | the owner's listing of a category's available dishes and the public one hold the same dishes; every maximal run of equal positions appears in both at the same place and exactly reversed; without ties they coincide |
| Listings.ReverseTiesBlock | api/app/services/menu_service.py:69-69 | any maximal block of equal positions, wherever it stands, comes out reversed, and what is before and after it is treated separately |
| Listings.PositionsKept | api/app/repositories/dish_repo.py:133-133 | the two orders have the same position at every place |
| Lifetimes.DishLivesExactlyUntil | api/app/services/dish_service.py:206-223 | over every run a live dish stays live and its owner's until that owner deletes it or the restaurant, and only until then; in particular no category deletion ends it |
| Lifetimes.DishRequestsAnswered | api/app/services/dish_service.py:134-145 | after any run a request on the dish is a 404 for everyone if it has ended, else a 403 for all but the owner, whose toggles and deletions succeed |
| Lifetimes.RestaurantLivesExactlyUntil | api/app/services/restaurant_service.py:118-129 | over every run a restaurant stays its owner's until the owner deletes it, and then no row of it is left |
| Lifetimes.RemovedStaysRemoved | api/app/models/restaurant.py:58-63 | over every run a removed restaurant, its rows and its menu never come back |
| Lifetimes.ChecksAgree | api/app/services/category_service.py:22-44 | in every reachable state the two services' ownership checks give the same answer, none exactly for the owner |
| Effects.ToggleTwice | api/app/repositories/dish_repo.py:158-163 | toggling twice restores all tables, whether or not it was allowed |
| Effects.DishUpdatesCombine | api/app/services/dish_service.py:196-202 | two accepted updates equal one with the last value named for each field: fields left out are kept |
| Effects.DishUpdateUndone | api/app/repositories/dish_repo.py:141-149 | an accepted update is undone by writing the old values |
| Effects.CategoryUpdateUndone | api/app/repositories/category_repo.py:64-72 | likewise for categories |
| Effects.InfoUpdateUndone | api/app/services/restaurant_service.py:103-116 | likewise for a restaurant's details; the slug does not move |
| Effects.RenameTwice | api/app/services/restaurant_service.py:105-112 | repeating a rename changes nothing, slug included |
| Effects.CreatedDishShows | api/app/services/dish_service.py:161-176 | a new dish is on the menu, under its category and with its data, if and only if it is available and its category active |
| Effects.CreatedRestaurantServed | api/app/services/restaurant_service.py:60-84 | a new restaurant is its user's, and its slug, unknown before, serves an empty menu with the data given |
| Slugs.SlugNormalForm | api/app/utils/slug.py:16-35 | only slug characters, no leading, trailing or doubled hyphen, within the length, for every text |
| Slugs.SlugImage | api/app/utils/slug.py:6-35 | idempotent; the values are exactly the normal forms within the length |
| Slugs.SlugFixpoint | api/app/utils/slug.py:6-35 | a normal form within the length is its own slug |
| Slugs.PartsJoined | api/app/utils/slug.py:19-29 | parts around a space, an underscore or a hyphen are slugged apart and joined by one hyphen; a part without a slug leaves no trace |
| Slugs.NamesJoined | api/app/utils/slug.py:16-35 | so for names whose slugs fit the default length |
| Slugs.SeparatorsAlike | api/app/utils/slug.py:19-20 | spaces, underscores and hyphens may stand for each other |
| Slugs.CaseIgnored | api/app/utils/slug.py:16-17 | texts equal apart from ASCII case have the same slug |
| Slugs.UnknownDropped | api/app/utils/slug.py:22-23 | characters outside letters, digits, dot and the separators do not count |
| Slugs.LimitOnlyCuts | api/app/utils/slug.py:31-33 | a length limit keeps the first characters of the uncut slug, less a hyphen left at the cut |
| Slugs.PastaHouse | api/app/utils/slug.py:6-35 | "Pasta House" is at pasta-house |
| Slugs.PipelineIsJoin | api/app/utils/slug.py:25-29 | collapsing and stripping hyphens equals joining the words |
| SlugAllocator.FirstFreeIsFirst | api/app/services/restaurant_service.py:145-158 | the allocated slug is free, all earlier candidates are taken, the counter is at most the number of taken slugs; nothing else has these properties |
| SlugAllocator.Pigeonhole | api/app/services/restaurant_service.py:152-158 | k taken candidates need k taken slugs, so the search ends |
| SlugAllocator.CandidateInjective | api/app/services/restaurant_service.py:154-154 | different counters give different candidates |
| SlugAllocator.DigitsInjective | api/app/services/restaurant_service.py:154-154 | decimal printing is injective |
| SlugAllocator.DigitsRead | api/app/services/restaurant_service.py:154-154 | the digits read back as the number and have no leading zero |
| SlugAllocator.SlugLength | api/app/services/restaurant_service.py:69-70 | at most 101 characters plus the digits of the number of taken slugs |
| SlugAllocator.SlugFitsColumn | api/app/models/restaurant.py:39-39 | within 150 characters below 10^49 restaurants |
| SlugAllocator.SuffixForm | api/app/services/restaurant_service.py:152-158 | a suffixed candidate keeps the normal form if and only if its base is not empty |
| SlugAllocator.AllocatedForm | api/app/services/restaurant_service.py:68-70 | the slug a restaurant gets is in normal form if and only if its name leaves some slug character or the empty slug is free |
| SlugAllocator.PunctuationOnlyName | api/app/services/restaurant_service.py:145-157 | a name the schema admits, "!", has the empty slug, and the second restaurant with it gets "-1" |
| SlugAllocator.MakeUniqueSlug | api/app/utils/slug.py:38-59 | the bounded loop computes the first free of the first hundred candidates, or the random one |
| SlugAllocator.BoundedSearchAgrees | api/app/utils/slug.py:38-59 | agrees with the unbounded search when one of a hundred is free, as with at most 99 slugs; fresh exactly then or when the random suffix is |
| SlugAllocator.BoundedSearchMayCollide | api/app/utils/slug.py:57-59 | a table for which the answer is already in use |
| Tokens.AuthService.Register | api/app/services/auth_service.py:36-58 | a new user and a stored refresh token, or a conflict and no change |
| Tokens.AuthService.Login | api/app/services/auth_service.py:73-92 | a stored refresh token, or a refusal and no change |
| Tokens.LoginAnswered | api/app/services/auth_service.py:73-92 | over every run a login is granted if and only if its email was registered with exactly its password, and to the user that registration created; else it is a 401 |
| Tokens.RegisterAnswered | api/app/services/auth_service.py:36-58 | over every run a registration is a conflict if and only if its email was registered before; else it creates a new user |
| Tokens.GrantedTokens | api/app/core/security/jwt.py:11-60 | whoever is granted tokens gets one of each kind, both new, for the same known user and email; only the refresh token is stored |
| Tokens.NeverRefreshes | api/app/core/security/jwt.py:98-115 | a token that does not decode, an access token and a token never stored are refused, and nothing changes |
| Tokens.RevocationStamps | api/app/repositories/refresh_token_repo.py:66-86 | each open row that a refresh or a logout closes is stamped with that moment; every other row stays |
| Tokens.AuthService.RefreshTokens | api/app/services/auth_service.py:106-141 | the old token revoked and a new one stored for its subject, or a refusal and no change |
| Tokens.AuthService.Logout | api/app/services/auth_service.py:143-149 | every open token of the user is revoked now |
| Tokens.AuthService.RevokeAllForUser | api/app/repositories/refresh_token_repo.py:73-86 | the loop stamps exactly the user's unrevoked rows |
| Tokens.AuthService.Revoke | api/app/repositories/refresh_token_repo.py:66-71 | stamps the row if there is one |
| Tokens.AuthService.CreateToken | api/app/repositories/refresh_token_repo.py:23-41 | stores an unrevoked row that expires the given number of days from now |
| Tokens.AuthService.GetByEmail | api/app/repositories/user_repo.py:31-41 | the one user with the lower-cased email |
| Tokens.ReachableInv | api/app/services/auth_service.py:106-133 | for every configured lifetime and in every reachable state each stored user id is its token's subject, emails are unique, and each chain has at most one unrevoked token |
| Tokens.InvKept | api/app/services/auth_service.py:23-149 | every request keeps this |
| Tokens.RevocationIsFinal | api/app/repositories/refresh_token_repo.py:66-86 | over every run a revoked row never changes: `revoked_at` is written once |
| Tokens.RotatedOut | api/app/services/auth_service.py:112-133 | a refresh closes the token and opens one new one of the same chain and subject |
| Tokens.RotatedAtMostOnce | api/app/repositories/refresh_token_repo.py:51-64 | after a successful refresh, and any run after it, the same token is refused |
| Tokens.AcceptedExactlyWhen | api/app/services/auth_service.py:106-131 | for every configured lifetime and after any run, an issued token that decodes is accepted if and only if its lifetime has not passed, its user has not logged out and it has not been presented before |
| Tokens.ExpiryKept | api/app/repositories/refresh_token_repo.py:31-37 | over every run a stored expiry never changes |
| Tokens.TallyStep | api/app/services/auth_service.py:81-149 | how each request moves a user's number of open tokens; a refused one changes nothing at all |
| Tokens.OpenTokensTallied | api/app/services/auth_service.py:23-149 | over every run that number is the logins and registrations since the last logout |
| Analytics.SelectedAre | api/app/repositories/analytics_repo.py:35-42 | every report starts from exactly the restaurant's events in the range, each as often as it occurs; an end at midnight means its whole day |
| Analytics.DailyBars | api/app/repositories/analytics_repo.py:56-66 | each daily bar counts the events from one midnight to the next |
| Analytics.WeeklyBars | api/app/repositories/analytics_repo.py:56-66 | each weekly bar counts the events from one Monday to the next |
| Analytics.MonthlyBars | api/app/repositories/analytics_repo.py:56-66 | each monthly bar counts the events on the days the calendar puts in that month |
| Analytics.HourlyBars | api/app/repositories/analytics_repo.py:80-90 | each hourly bar counts the events in that hour of any day |
| Analytics.ReportCounts | api/app/repositories/analytics_repo.py:66-71 | a grouped report has one bar per occurring bucket, ascending, with its count, adding up to the rows |
| Analytics.SameCountsSameReport | api/app/repositories/analytics_repo.py:66-66 | the counts determine the report |
| Analytics.ReportsAgree | api/app/services/analytics_service.py:51-79 | for every granularity string, total, period counts, hour counts and export rows agree |
| Analytics.RollupIsReport | api/app/repositories/analytics_repo.py:56-66 | summing a finer report by a coarser bucket gives the coarser report |
| Analytics.PeriodsRollUp | api/app/services/analytics_service.py:51-62 | for every granularity string the report is the daily one summed over its periods, and an unknown string gives the daily one |
| Analytics.BucketsAreIntervals | api/app/repositories/analytics_repo.py:56-81 | day, week and hour buckets are the intervals from midnight, from Monday and of the day that contain the event |
| Analytics.TopAgentsListed | api/app/repositories/analytics_repo.py:97-122 | at most five agents, descending, each with its count and none below an unlisted one |
| Analytics.TopAgentsTotal | api/app/services/analytics_service.py:82-88 | the listed counts sum to the total if and only if there are at most five distinct agents |
| Analytics.RangesTile | api/app/repositories/analytics_repo.py:11-19 | adjacent day ranges split the whole range exactly, in the total and in every bucket |
| ObjectKeys.GeneratedKey | api/app/core/storage.py:192-196 | a generated key ends in what follows the file name's last dot, or in webp if it has none |
| ObjectKeys.KeyIgnoresFilename | api/app/services/upload_service.py:149-155 | the stored key is prefix/variant/unique.webp for every file name |
| ObjectKeys.VariantKeysDiffer | api/app/services/upload_service.py:30-34 | the variants of an upload have distinct keys |
| ObjectKeys.StoredKeys | api/app/services/upload_service.py:149-155 | the three keys of a dish image, in full |
| ObjectKeys.UploadUrls | api/app/core/storage.py:94-147 | the URL is the configured address without its trailing slashes, or the bucket at Google, then the key |
| ObjectKeys.DeleteFindsUpload | api/app/services/upload_service.py:304-315 | under every configuration the service can run with, deleting by the returned URL deletes exactly that key; of unchecked settings, exactly when a default address does not end in a slash |
| ObjectKeys.WhatIsDeleted | api/app/services/upload_service.py:310-315 | for every URL: something is deleted if and only if it begins with the public prefix, and it is what follows one more character |
| ObjectKeys.DeletionIsOwn | api/app/services/upload_service.py:310-315 | the URL deleted by is one that an upload returns if and only if that character is a slash |
| ObjectKeys.ConfiguredPrefix | api/app/core/storage.py:118-147 | a backend that can be constructed has a public prefix without trailing slash |
| ObjectKeys.LastDot | api/app/core/storage.py:194-194 | where a split at the last dot cuts |
| ObjectKeys.StripSlashes | api/app/core/storage.py:99-100 | the text less exactly its trailing slashes |

## Left out

- Tokens.RotatedAtMostOnce: serial requests only, because `is_valid` and `revoke` are separate awaited steps and two interleaved refreshes of one token may both pass the check.
- Tokens.RevocationIsFinal: serial requests only, for the same reason.
- Tokens.AcceptedExactlyWhen: serial requests only, for the same reason.
- Tokens.AuthService.RefreshTokens: a token is its claims; JWT encoding, its `exp` and `nbf` arithmetic, bcrypt and SHA-256 are not modelled; a password is kept and compared as it is.
- Interleaved.BoundedStaleness: clock skew between processes, and the database reads of one menu falling on both sides of a commit, are not modelled.
- Interleaved.ReadYourWrites: speaks of the writer's own process; other processes keep their entries until these expire.
- Interleaved.SoloNotFound: a lookup that finds nothing has no reply step of its own in the step model, where only served menus are outputs.
- Slugs.SlugFixpoint: Unicode case mapping is not modelled; lower-casing is ASCII.
- Listings.ServicePageWalk: all pages are taken from one state of the tables; writes between two pages may shift the windows.
- Listings.PagesOfOneListing: offsets and limits are those the router admits or more (any natural numbers).
- Analytics.ReportsAgree: the owner's lookup in front of the reports, CSV writing and several time zones are not modelled.
- Services.RestaurantService.Create: owners are plain ids; users' own rows and the cascade from a deleted user are not modelled, since no endpoint deletes a user.
- Services.MenuService.GetMenuBySlug: the cached menu object is a value here, so its being shared between replies is not modelled.
- Services.DishService.Update: length limits of text columns and the precision of prices are not modelled; `updated_at` is dropped.
- Read-only service calls other than the dish listing and the public menu: they return rows as they are.
- Routers, schema validation, HTML pages, QR codes, rate limiting, logging, configuration, secrets, migrations, nginx and Terraform: thin wrappers or input and output.
- The image worker queue, image resizing, executors and the S3 and Google clients: nothing enqueues jobs, and the rest is input and output.
- SQLAlchemy sessions and their identity map: tables are maps, and a commit is a step.
