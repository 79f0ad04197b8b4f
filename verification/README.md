# homepad-api: a verified model

homepad-api serves a household's link dashboard. One catalog, owned by the oldest admin, is shared by
every account; an admin can give a kid account a list of the services it may see. Sign-in sessions slide,
are throttled and are swept. Migrations run in full at every boot, without a version table. A poller keeps
a snapshot of Gatus health checks. This project models the parts of it that hold state over long runs, and
proves what they promise.

## Layout

| files | what they model |
|---|---|
| `Base`, `Ordering` | shared names; ORDER BY and sort as the unique listing of a set in a total order |
| `SessionSpec`, `UserAgent` | what each session operation does; the User-Agent clean-up |
| `MemoryStore`, `SessionTable`, `PgStore` | the two session stores, as classes |
| `SessionRefinement`, `SessionRuns`, `StoredSessions` | the stores agree; throttling, expiry and sweeping over runs; what is stored, slid, ended and listed |
| `Schema`, `Statements`, `Refusals`, `Listings`, `Orders`, `Slug`, `Store` | the tables, the effect of every store method with its cascades, when a method refuses, the lists read back, and the methods that loop or span statements |
| `StoreInvariant`, `CallEffects` | what every run of store methods keeps; what each call writes and leaves alone |
| `Server`, `RouteGuards`, `Responses`, `Handlers`, `WriteHandlers`, `ReadBacks` | the session-gated routes: who may call them and what they answer; the read handlers' loops; the handlers of a user's own state; what a saved change shows afterwards |
| `KidLock`, `KidLockRuns` | what a kid session can write, alone and while the household goes on |
| `KidIsolation`, `KidUnseen`, `KidGrants`, `KidTwins`, `KidRuns` | what a kid session can learn |
| `SignInHere` | the hand-over of a device from an admin to a kid, step by step |
| `Gatus`, `FillUptime`, `PollToTile` | the poller, its bounded-concurrency uptime fetch as interleaved steps, and one poll from the payload to the tile |
| `Tables`, `Migrations`, `Migrator` | the tables with their columns and constraints; each migration; the boot transaction |
| `BootStability`, `BootRuns`, `MigratedStore`, `StoreRuns` | boots never fail, data migrations happen once, and runs of store operations with restarts between them |

## How the code is stated

- Row ids are natural numbers; a malformed id behaves like an id that names no row, as the store's error
  handling makes it. New ids, tokens and handles are fresh, and a token's hash is injective, so a session is
  keyed by its token. A handle is the number that its fixed-width hexadecimal text spells.
- Session times are nanoseconds. The clock is cut to microseconds as `clockNow` does it, and the table's
  columns truncate what is stored in them.
- Every ORDER BY breaks its remaining ties by id. Text is compared by code point, and case folding is that
  of ASCII letters. `users.created_at` is strictly increasing.
- A store method is one transaction, and takes effect whole or not at all. A method that is one SQL
  statement is the function of the tables that statement computes (`Statements`); a method that loops or
  spans statements is a method of a class, proved against such a function.
- A request reads the clock once. `AdminRoute` stands for every admin-only route, with the store call that
  its handler makes.
- A statement of a migration that would break a constraint aborts the boot. `UPDATE ... FROM` may join a
  service with any matching offer; `pick` says which, and every statement about boots holds for all choices.

## Where the code and its comments differ

- `Migrate` says that re-running is a no-op. 0007's provenance step runs at every boot, so re-running is a
  no-op exactly on a migrated database in which no service without a source has an offer with its name and
  url (`BootStability.RerunIsNoOpExactly`); `BootStability.RerunCanWire` is an input where it is not.
- `SeedLibraryIfEmpty` is described as idempotent. A boot that migrates and seeds is a fixed point after one
  run exactly unless the library is empty, every service has an owner, and the seed describes one of them
  (`BootStability.OneBootIsEnoughExactly`); `BootStability.OneBootIsNotEnough` is such an input, and two boots
  are always enough.
- `clockNow` says that both stores report identical times. An expiry is the clock plus the lifetime, and
  the table truncates it; the stores agree for exactly the whole-microsecond lifetimes
  (`SessionRefinement.AgreeExactlyOnWholeMicros`). The lifetimes in use are whole.
- `ErrNotFound` is said to answer a handle that names no live session. Revoking a handle meets that exactly
  when the handle names no expired session that is still stored (`SessionRuns.RevokeContractExactly`, and
  `SessionRuns.TableRevokeContractExactly` for the table); `SessionRuns.ExpiredCanBeRevoked` is an input where
  it fails.

## Model

| member | source | states |
|---|---|---|
| `MemoryStore.Store.Create` | internal/session/memory.go:27-67 | a lifetime that is not positive is refused and nothing stored; otherwise exactly one session is added, with one microsecond clock reading as created and last seen, and every other session stands |
| `MemoryStore.Store.Lookup` | internal/session/memory.go:69-82 | answers the live session of the token with its touch-due flag, and writes nothing; a missing or expired token is not found |
| `MemoryStore.Store.Touch` | internal/session/memory.go:84-100 | slides exactly a live, due session, and says whether it did; every other session stands, and a lifetime that is not positive is refused |
| `MemoryStore.Store.Destroy` | internal/session/memory.go:102-107 | removes the token's session and no other; an unknown token is no error |
| `MemoryStore.Store.ListForUser` | internal/session/memory.go:109-122 | the map loop followed by the sort yields each live session of the user once, most recently seen first |
| `MemoryStore.Store.RevokeByHandle` | internal/session/memory.go:136-146 | the search loop removes the one session with that user and handle, or reports not found and changes nothing |
| `MemoryStore.Store.DeleteExpired` | internal/session/memory.go:148-160 | the deleting loop removes exactly the expired sessions and counts them |
| `SessionSpec.RecentIsTotal` | internal/session/memory.go:126-134 | lessRecent is a strict total order on a user's live sessions, so the listing is determined |
| `PgStore.Store.Create` | internal/session/pgstore.go:33-80 | the insert adds one row, its expiry truncated to the column's microseconds, or is refused for a bad lifetime or an unknown user |
| `PgStore.Store.Lookup` | internal/session/pgstore.go:82-99 | reads the row with the token's hash and an expiry after now; an empty token names nothing |
| `PgStore.Store.Touch` | internal/session/pgstore.go:101-117 | the one conditional update rewrites exactly the live, due row, and the count of rows says whether it slid |
| `PgStore.Store.Destroy` | internal/session/pgstore.go:119-125 | deletes exactly the rows with the token's hash |
| `PgStore.Store.ListForUser` | internal/session/pgstore.go:127-157 | the row loop appends the user's live rows in the order of the query |
| `PgStore.Store.RevokeByHandle` | internal/session/pgstore.go:159-172 | deletes the rows with that user and handle, and reports not found when it deleted none |
| `PgStore.Store.DeleteExpired` | internal/session/pgstore.go:174-180 | deletes exactly the expired rows and counts them |
| `SessionRefinement.CreateRefines` | internal/session/pgstore.go:58-80 | creating in the table is creating in the map, seen through the map-to-table abstraction |
| `SessionRefinement.LookupRefines` | internal/session/pgstore.go:82-99 | the WHERE clause finds what the map lookup finds |
| `SessionRefinement.TouchRefines` | internal/session/pgstore.go:101-117 | the WHERE clause of the update decides and writes what the map's branches do |
| `SessionRefinement.ListRefines` | internal/session/pgstore.go:127-157 | ORDER BY over the matching rows lists the sessions in the map store's order |
| `SessionRefinement.DestroyRefines` | internal/session/pgstore.go:119-125 | deleting by hash is deleting by key |
| `SessionRefinement.RevokeRefines` | internal/session/pgstore.go:159-172 | deleting by user and handle answers and leaves what the map's search loop does |
| `SessionRefinement.SweepRefines` | internal/session/pgstore.go:174-180 | both sweeps remove the same sessions and report the same count |
| `SessionRefinement.StepRefines` | internal/session/session.go:73-95 | one operation of the store contract gives the same answer and the same sessions on both stores |
| `SessionRefinement.StoresAgree` | internal/session/session.go:73-95 | every run of operations, of any length, gives equal answers on the two stores |
| `SessionRefinement.AgreeExactlyOnWholeMicros` | internal/session/session.go:135-142 | the comment's "identical times" holds of a created session for exactly the whole-microsecond lifetimes; otherwise there are clock readings at which only the map still finds it |
| `SessionRefinement.LifetimesAreWhole` | internal/session/session.go:50-55 | every role's lifetime is whole microseconds, and only a kid gets the long one |
| `SessionRuns.AlwaysInOrder` | internal/session/memory.go:49-100 | over any run and any clock, created is not after last seen, which is before expiry |
| `SessionRuns.WritesAreThrottled` | internal/api/auth.go:266-293 | whatever the interleaving of concurrent lookups and touches, consecutive writes to one session are at least the touch interval apart |
| `SessionRuns.WindowBound` | internal/session/session.go:33-35 | a window of length W holds at most W / TouchInterval + 1 writes to one session |
| `SessionRuns.DeadStaysDead` | internal/session/session.go:75-95 | with a clock that never goes back, an expired or removed session is never found or written again |
| `SessionRuns.SweepsAreInvisible` | internal/session/sweep.go:13-38 | sweeps added anywhere to a run change no answer that any caller observes later |
| `SessionRuns.RevokeException` | internal/session/memory.go:136-160 | the one trace of a sweep: revoking a handle answers differently exactly when it names sessions that had expired and were swept |
| `SessionRuns.RevokeContractExactly` | internal/session/session.go:22-24 | revoking succeeds just when the handle names a live session of the user, if and only if the handle names no expired one |
| `SessionRuns.TableRevokeContractExactly` | internal/session/pgstore.go:159-172 | the table store's revoke meets the contract under the same condition on its rows |
| `SessionRuns.ExpiredCanBeRevoked` | internal/session/memory.go:136-146 | an input where it does not: an expired session that no sweep has removed is not found by Lookup, yet revoked with success by either store |
| `SessionRuns.Conservation` | internal/session/memory.go:27-160 | sessions created = stored + destroyed + revoked + swept, over any run |
| `StoredSessions.AgentsStayStorable` | internal/session/session.go:121-133 | over any run of session operations, whatever clients send, every stored User-Agent is valid UTF-8 without NUL of at most 512 bytes, in the map and in the table |
| `StoredSessions.CreatedSession` | internal/session/pgstore.go:58-80 | a created session is the account's, begins at the clock's microsecond, lives as long as it was given, and holds the User-Agent cleaned, which is as it came when that can be stored; every other session stands |
| `StoredSessions.SlidesAfterAMinute` | internal/session/memory.go:69-100 | a touch slides exactly an unexpired session last seen a minute ago or more, to its whole lifetime from now; a lookup says so beforehand |
| `StoredSessions.LifetimesInUse` | internal/session/session.go:25-56 | 30 days for an adult, 180 for a kid |
| `StoredSessions.EndsExactly` | internal/session/pgstore.go:119-180 | a sign-out, a revocation and a sweep end exactly the token's session, the user's own session with the handle, and the expired ones |
| `StoredSessions.MostRecentFirst` | internal/session/pgstore.go:127-157 | a user's sessions are listed most recently seen first, then newest, then by handle: all unexpired ones, each once |
| `UserAgent.SanitizeIsStorable` | internal/session/session.go:124-133 | for any bytes, the result is valid UTF-8, has no NUL and is at most 512 bytes |
| `UserAgent.RuneMeans` | internal/session/session.go:124-133 | a character starts a text exactly when the text begins with the UTF-8 form of a scalar value (RFC 3629 section 3), no surrogate and no overlong form |
| `UserAgent.CleanReplacesRuns` | internal/session/session.go:124-133 | what is valid is kept in its place and each longest run of bytes that start no character becomes one replacement character, whatever precedes and follows |
| `UserAgent.CleanDropsNul` | internal/session/session.go:124-133 | a NUL is dropped wherever it stands, and joins what it parted |
| `UserAgent.SanitizeKeepsStorable` | internal/session/session.go:124-133 | clean short input is stored unchanged |
| `UserAgent.SanitizeIsIdempotent` | internal/session/session.go:124-133 | cleaning twice is cleaning once |
| `UserAgent.SanitizeCutsAtCharacter` | internal/session/session.go:124-133 | when it cuts, it keeps a prefix of at least 509 bytes, and no longer prefix within the cap is valid |
| `UserAgent.BoundaryIsLongest` | internal/session/session.go:127-131 | dropping the invalid tail of a cut leaves the longest prefix of whole characters |
| `Gatus.Client.FetchAll` | internal/gatus/poller.go:102-159 | each endpoint keeps the last min(20, n) results in order and the badge of the latest check alone |
| `Gatus.TimeMatchesBadge` | internal/api/services.go:452-466 | for one fetched endpoint that a snapshot shows: DEGRADED at T ms shows at least T ms; UP with T > 0 and a known duration shows at most T ms |
| `Gatus.Poller.Fetch` | internal/gatus/poller.go:272-288 | the snapshot holds exactly the fetched endpoints under their keys, the last one of a repeated key; a failed fetch gives an empty snapshot |
| `Gatus.Poller.Poll` | internal/gatus/poller.go:262-267 | a scheduled poll publishes every endpoint it fetched and no other, or the empty snapshot when it failed |
| `Gatus.Poller.PollNow` | internal/gatus/poller.go:304-311 | a manual poll publishes every endpoint it fetched and no other; one that fails leaves the published snapshot standing |
| `FillUptime.StepInv` | internal/gatus/poller.go:191-217 | every step of the spawning loop or of a worker keeps the invariant and strictly decreases the work left |
| `FillUptime.InFlightBound` | internal/gatus/poller.go:191-217 | at most eight fetches are in flight at any reachable state |
| `FillUptime.LetsInUpToEight` | internal/gatus/poller.go:191-217 | and the next worker is let in exactly while fewer than eight hold a slot |
| `FillUptime.NeverStuck` | internal/gatus/poller.go:191-217 | until the call has returned, some step can be taken: no deadlock |
| `FillUptime.RunIsBounded` | internal/gatus/poller.go:191-217 | every run is finite: no more steps than the measure of work left, which starts at 24 per endpoint plus one |
| `FillUptime.ReturnsExactly` | internal/gatus/poller.go:191-217 | on return, every fetch of every window has answered in the run, exactly once; each endpoint's map holds exactly the windows whose fetch succeeded, with what it answered, and is absent when none did |
| `FillUptime.Confluence` | internal/gatus/poller.go:191-217 | two completed runs with the same answer steps return the same maps, whatever the interleavings |
| `PollToTile.TilesAgree` | internal/api/services.go:422-484 | end to end: whatever was reported and whatever the uptime fetches left, no tile of the published snapshot shows a time that contradicts its badge |
| `PollToTile.ReportShown` | internal/api/services.go:422-484 | every tile shows the badge of the last report under its key (down, degraded over the threshold, else up; unknown without a report, not monitored without a key), that report's last 20 checks, and its latest duration in whole milliseconds |
| `PollToTile.StatusesShown` | internal/api/services.go:326-363 | GET /api/status names exactly the reported keys the caller may know, each with that badge |
| `PollToTile.PollOnce` | internal/gatus/poller.go:262-288 | one poll after a threshold was saved: derivation, uptime fetch, snapshot and publication compose, every reported endpoint is published, every tile shows its endpoint's reported badge under the threshold, checks and time, and exactly the uptime windows that the poll's fetches answered for it |
| `SignInHere.DeletedKidClears` | internal/api/admin_accounts.go:388-422 | a kid deleted between two steps: the run reaches the failed creation and clears the cookie |
| `SignInHere.StepInv` | internal/api/admin_accounts.go:388-422 | every step of the hand-over, failing or not, and every session operation of other requests keeps the protocol's invariant |
| `SignInHere.NeverBoth` | internal/api/admin_accounts.go:388-422 | at no step is a session minted by the handler stored beside the admin's, and what it minted is the kid's; a kid cookie or a cleared cookie means the admin's session is gone; a failed creation, before or after its effect, clears the cookie, and a successful one answers the kid's |
| `SignInHere.NothingEndsUnasked` | internal/api/admin_accounts.go:388-422 | the admin's session is ended by the handler only after the admin was authorized and the kid found; a reply other than an error has the end behind it; a refused admin or an unknown kid ends nothing |
| `Slug.Builder.Slugify` | internal/storage/library.go:212-228 | the builder loop with its dash flag computes the lower-cased words joined by single dashes |
| `Slug.SlugIsSlug` | internal/storage/library.go:212-228 | the result is empty or alphanumeric runs joined by single dashes, none at either end |
| `Slug.SlugIsIdempotent` | internal/storage/library.go:212-228 | slugify of a slugified name is that name |
| `Slug.SlugKeepsSlug` | internal/storage/library.go:212-228 | slugify leaves every slug as it is |
| `Slug.SlugKeepsLetters` | internal/storage/library.go:212-230 | a slug keeps every letter and digit of the name, in order and lower-cased |
| `Slug.CandidateSpells` | internal/storage/library.go:175-206 | the first candidate is the slug itself, each further one adds a dash and its number in decimal digits |
| `Slug.CandidatesDiffer` | internal/storage/library.go:175-179 | the candidates base, base-2, base-3, ... are pairwise different |
| `Slug.SomeCandidateFree` | internal/storage/library.go:175-179 | fewer than 1000 taken slugs leave one of the 1000 candidates free |
| `Store.Database.SetLayout` | internal/storage/storage.go:684-715 | the delete and the insert loop, in one transaction: the new layout in the given order, or an error and the old one |
| `Store.Database.SetCategoryOrder` | internal/storage/categories.go:88-109 | the update loop, in one transaction: every listed category gets its position, or nothing changes |
| `Store.Database.SetKidServices` | internal/storage/kids.go:229-277 | the count comparison, the delete and the insert, in one transaction, have the effect of the set check |
| `Store.Database.Unique` | internal/storage/kids.go:237-245 | the dedup loop keeps exactly the given ids, without repeats |
| `Store.CountMeansAll` | internal/storage/kids.go:246-258 | the count of matching services equals the number of distinct ids exactly when every id matches |
| `Store.Database.SetCollapsedCategories` | internal/storage/collapse.go:34-55 | replaces the user's whole set, keeping only ids that name a live category, and touches no other user's |
| `Store.Database.AddFromLibrary` | internal/storage/library.go:150-207 | the suffix loop stores a copy of the offer under the first candidate the unique index accepts |
| `Store.Database.VisibleServiceIDs` | internal/storage/kids.go:63-84 | an adult is unrestricted; for anyone else the row loop collects exactly the allow-list |
| `Orders.ListingSplits` | internal/storage/storage.go:308-332 | a listing is what the viewer placed, in place order, then the rest by name |
| `Orders.ListedByPlaceThenName` | internal/storage/storage.go:308-334 | the owner's services, each once: what the viewer placed first, by place, then the rest, by name at the first differing character; said of the rows |
| `Orders.KidListByName` | internal/storage/kids.go:199-227 | an admin reads a kid's list by name |
| `Ordering.TextLessMeans` | internal/storage/storage.go:316 | text order is decided at the first differing character, and a prefix comes first |
| `Orders.SetLayoutAccepts` | internal/storage/storage.go:684-715 | SetLayout succeeds exactly on distinct ids that all name services, and then places exactly those, at their positions; otherwise the old layout stands |
| `StoreInvariant.LayoutAccepts` | internal/storage/storage.go:696-712 | the insert loop meets no missing service and no repeated key exactly on such lists |
| `Orders.LayoutRoundTrip` | internal/storage/storage.go:308-332 | after a saved layout, ListServices returns the saved ids of the owner in the given order, then the rest by name |
| `Orders.DeletionKeepsOrder` | internal/storage/storage.go:503-516 | deleting a service takes it out of every viewer's list and moves nothing else |
| `Orders.NewServiceJoinsTail` | internal/storage/storage.go:337-364 | a new service joins the unplaced tail; what a viewer placed stays in front |
| `Orders.NewCategoryIsLast` | internal/storage/categories.go:37-53 | a new category lists strictly last for its owner |
| `Orders.CategoryOrderRoundTrip` | internal/storage/categories.go:88-109 | SetCategoryOrder with any order of all the owner's categories makes ListCategories return that order, numbered from 0 |
| `Orders.CategoriesByIndex` | internal/storage/categories.go:15-33 | an owner's categories by sort_index, equal ones by id |
| `Orders.ForeignIdChangesNothing` | internal/storage/categories.go:88-109 | it succeeds exactly when every id is the owner's; otherwise every category stays as it was |
| `Orders.AddTakesSmallestFree` | internal/storage/library.go:173-207 | AddFromLibrary stores the free candidate with the smallest suffix, and fails only when all 1000 are taken |
| `Orders.AddAlwaysSucceeds` | internal/storage/library.go:173-207 | an owner with fewer than 1000 services can always add an offer |
| `CallEffects.AddedRowIsOffer` | internal/storage/library.go:150-210 | the stored copy has the offer's name, url, icon and description, each in its own column, the user as owner, the category asked for, the offer as source, no gatus key; nothing else in any table changes |
| `CallEffects.FreeSlugIsKept` | internal/storage/library.go:175-230 | a copy whose slug is free is stored under the slug itself, or under app when the name has no letter or digit |
| `CallEffects.NewAccountRow` | internal/storage/kids.go:91-107 | a new adult has its credentials, a new kid its name and color and none; both start with the catalog's defaults and the admin's uptime default; no other row changes |
| `CallEffects.AccountRowEdited` | internal/storage/storage.go:245-305 | an edit of an account writes the given fields of that row and no other |
| `CallEffects.DefaultSaved` | internal/storage/system_settings.go:49-65 | a saved uptime default is what accounts created under it start with, and changes no existing one |
| `CallEffects.DeletedKidLeavesOthers` | internal/storage/kids.go:147-163 | deleting a kid takes its row, its sessions and what it owned; every other account, service, category and session stands |
| `CallEffects.DeletedKidsMarks` | internal/storage/kids.go:147-163 | and of favorites, layouts, allow-lists, collapse marks and icons exactly the kid's own and those on what it owned |
| `CallEffects.NewServiceRow` | internal/storage/storage.go:337-388 | a created service holds what was given, in no category and from no offer |
| `CallEffects.IconWritten` | internal/storage/storage.go:591-627 | an icon is put or dropped under its own service and variant only, exactly for the service's owner |
| `CallEffects.DeletedService` | internal/storage/storage.go:503-516 | deleting a service, exactly for its owner, takes it, its icons and every mark on it, and no other row |
| `CallEffects.OfferWritten` | internal/storage/library.go:72-117 | the library's calls write one offer; deleting one only clears the source of its copies |
| `CallEffects.EditAccepted` | internal/storage/storage.go:391-446 | an edit is accepted exactly for the owner's own service, under the owner's own category, with a slug no other service of the owner has |
| `CallEffects.NewCategoryRow` | internal/storage/categories.go:37-57 | a created category holds its owner and name, spans 6, and is numbered 0 or one past its owner's highest |
| `CallEffects.PersonalRowsWritten` | internal/storage/storage.go:630-715 | layouts, collapse marks and favorites are written for the given user alone |
| `CallEffects.OthersRowsStand` | internal/storage/categories.go:59-148 | whatever ids it is given, a catalog or category call in one owner's name leaves every other owner's services, icons, categories and all marks on them as they were |
| `Schema.OwnerIsOldestAdmin` | internal/storage/storage.go:47-55 | the shared owner is the admin created first, and there is none exactly when there is no admin |
| `Schema.OwnerMeans` | internal/storage/storage.go:40-57 | the same said of the rows: an admin that no other admin was created before, by id of two created at once; none exactly without admins |
| `Schema.OwnerStands` | internal/storage/storage.go:47-55 | it stays while admins keep their role and creation time and new ones come later |
| `Listings.AdminSeesWhatKidSees` | internal/storage/kids.go:199-223 | KidServiceIDs and VisibleServiceIDs name the same services for a kid, all in the shared catalog |
| `Listings.SetKidServicesExact` | internal/storage/kids.go:229-277 | accepts exactly the lists inside the shared catalog; then the kid sees exactly those, and no other kid's list changes; a refusal changes nothing |
| `StoreInvariant.CreateUserInv` | internal/storage/storage.go:213-229 | a new adult keeps every invariant, and the shared owner |
| `StoreInvariant.CreateKidInv` | internal/storage/kids.go:91-106 | a new kid keeps every invariant: no credentials, a name unique among kids |
| `StoreInvariant.UpdateKidInv` | internal/storage/kids.go:125-142 | so does renaming or recolouring one |
| `StoreInvariant.WithoutKidInv` | internal/storage/kids.go:147-159 | deleting a kid, with every cascade, leaves no dangling reference |
| `StoreInvariant.SetPrefInv` | internal/storage/storage.go:245-300 | saving a preference keeps every invariant |
| `StoreInvariant.SetKidServicesInv` | internal/storage/kids.go:229-277 | a saved allow-list lies in the shared catalog and belongs to a kid |
| `StoreInvariant.CreateServiceInv` | internal/storage/storage.go:337-364 | a created service keeps slugs unique per owner |
| `StoreInvariant.UpdateServiceInv` | internal/storage/storage.go:391-446 | a patched service keeps its slug unique and its category its owner's |
| `StoreInvariant.WithoutServicesInv` | internal/storage/storage.go:503-516 | deleting services, with the cascades to favorites, layouts, icons and allow-lists, leaves no dangling reference |
| `StoreInvariant.AddFromLibraryInv` | internal/storage/library.go:150-207 | a copied offer keeps slugs unique per owner, and its source and category valid |
| `StoreInvariant.WithoutOfferInv` | internal/storage/library.go:234-241 | deleting an offer clears the sources that named it |
| `StoreInvariant.CreateCategoryInv` | internal/storage/categories.go:37-53 | a created category keeps names unique per owner |
| `StoreInvariant.RenameCategoryInv` | internal/storage/categories.go:59-82 | so does a renamed one |
| `StoreInvariant.SetCategoryWidthInv` | internal/storage/categories.go:130-148 | a stored width is always a span of the grid |
| `StoreInvariant.WithoutCategoriesInv` | migrations/0005_category_collapse.up.sql:13-17 | deleting categories keeps the invariant and every service, changed at most in its category, which is cleared exactly where it is gone; exactly the collapse marks on what is gone are dropped, and nothing else changes |
| `StoreInvariant.CreateSessionInv` | migrations/0017_sessions.up.sql:16-24 | a created session belongs to an existing user and has its own handle |
| `StoreInvariant.OpInv` | internal/storage/storage.go:213-715 | every store method keeps the whole invariant |
| `StoreInvariant.OwnerNeverChanges` | internal/storage/storage.go:47-55 | no store method changes the shared owner once there is one |
| `StoreInvariant.ReachableInv` | migrations/0018_kid_accounts.up.sql:32-59 | over any run: no dangling reference, credentials missing exactly for kids, only kids hold allow-lists and only of the shared catalog, a service's category is its owner's |
| `StoreInvariant.ReachableFromEmpty` | internal/storage/storage.go:213-715 | every database reachable from the empty one by store methods satisfies the invariant |
| `Refusals.EmailRefusedExactly` | internal/storage/storage.go:213-229 | an email is refused as taken exactly when the insert would break the unique index |
| `Refusals.KidNameRefusedExactly` | internal/storage/kids.go:91-106 | a kid's name is refused as taken exactly when the insert would break the index on kid names |
| `Refusals.KidRenameRefusedExactly` | internal/storage/kids.go:125-142 | so for renaming a kid |
| `Refusals.TakenIgnoringCase` | migrations/0018_kid_accounts.up.sql:52-59 | an email, and a kid's name, is taken exactly when another account has it up to the case of letters |
| `Refusals.SlugRefusedExactly` | internal/storage/storage.go:337-364 | a slug is refused as taken exactly when the insert would break the owner's unique index |
| `Refusals.NewSlugRefusedExactly` | internal/storage/storage.go:391-446 | so for changing a slug |
| `Refusals.CategoryNameRefusedExactly` | internal/storage/categories.go:37-53 | a category name is refused as taken exactly when the insert would break the owner's unique index |
| `Refusals.RenameRefusedExactly` | internal/storage/categories.go:59-82 | so for renaming a category |
| `Handlers.Api.VisibleCatalog` | internal/api/services.go:370-390 | listing then filtering is listing the visible services in the viewer's order |
| `Handlers.Api.GetServices` | internal/api/services.go:76-136 | the loop answers one tile per visible service, in order |
| `Responses.ServicesAnswered` | internal/api/services.go:76-136 | GET /api/services: a tile for each service the account may see and no other, each once, in place-then-name order, holding its service's columns, the viewer's mark, which icons are stored and its category's name |
| `Responses.CategoriesAnswered` | internal/api/categories.go:42-103 | GET /api/categories: a row for each category of the shared catalog that the account sees and no other, by sort_index, holding that category's columns |
| `Responses.CollapsedAnswered` | internal/api/collapse.go:14-55 | the account's own collapse marks, to a kid only on categories it sees, by id |
| `Responses.IconReadsBack` | internal/api/icons.go:39-104 | an uploaded icon is what whoever may see the service is sent under its variant, or 304; a deleted one, and any to anyone else, is 404; no other icon's answer changes |
| `Handlers.Api.GetStatus` | internal/api/services.go:326-365 | a non-adult gets the statuses of exactly the keys of services it may see; an adult gets all |
| `Handlers.Api.AllowedGatusKeys` | internal/api/services.go:341-355 | the key loop collects exactly the non-empty keys of the allowed services |
| `Handlers.Api.VisibleCategoryIDs` | internal/api/categories.go:79-98 | the loop collects exactly the categories of the visible services |
| `Handlers.Api.GetCategories` | internal/api/categories.go:42-74 | the loop answers the owner's categories in order, without those hidden from the caller |
| `Handlers.Api.GetCollapsed` | internal/api/collapse.go:14-54 | the loop keeps exactly the collapsed ids whose category the caller may see |
| `WriteHandlers.Api.CurrentUser` | internal/api/auth.go:266-293 | lookup, then the user, then the slide: the caller, and a re-issued cookie exactly when the session slid |
| `WriteHandlers.Api.PatchMe` | internal/api/auth.go:164-251 | the whole body is checked before the first write; then the store calls in turn save exactly the given preferences |
| `WriteHandlers.Api.AddFavorite` | internal/api/favorites.go:14-33 | a service the caller may not see, or that does not exist, is 404 and nothing is written |
| `WriteHandlers.Api.RemoveFavorite` | internal/api/favorites.go:37-51 | so for removing, which is idempotent for a service the caller may see |
| `WriteHandlers.Api.StartSession` | internal/api/cookie.go:44-65 | a failed creation changes nothing; otherwise the new session has the role's lifetime, the carried one is gone unless its deletion failed, and every other session stands |
| `ReadBacks.CookieFollowsSession` | internal/api/auth.go:282-291 | a live session slides, and the cookie is re-issued, exactly when it was last seen a minute ago or more; both then last the role's lifetime, 180 days for a kid and 30 for anyone else |
| `ReadBacks.PatchMeReadsBack` | internal/api/auth.go:164-251 | GET /api/me then shows each given preference, the others as they were, and every other user as before |
| `ReadBacks.PatchMeAnswers` | internal/api/auth.go:164-251 | PATCH /api/me answers 403 exactly when it names more than the theme for an account that is neither admin nor user, 400 exactly when it gives nothing or a value outside its choices, else 200 |
| `ReadBacks.FavoriteReadsBack` | internal/storage/storage.go:630-643 | a marked favorite shows on that viewer's tile of that service and on no other tile of anyone |
| `ReadBacks.FavoriteUndone` | internal/storage/storage.go:645-656 | unmarking takes back exactly what marking did |
| `ReadBacks.CollapsedReadsBack` | internal/storage/collapse.go:28-55 | a saved set reads back as the given ids that name live categories; no other adult's changes |
| `ReadBacks.EditReadsBack` | internal/storage/storage.go:391-446 | a saved edit shows on the service's tile, field by field, the fields not given as they were, and on no other tile |
| `ReadBacks.WidthReadsBack` | internal/storage/categories.go:130-148 | a saved width shows on its row only; it is saved exactly for the owner's category and a span of the grid |
| `ReadBacks.RenameReadsBack` | internal/storage/categories.go:59-82 | a saved name shows on its row only; it is saved exactly for the owner's category and a name free among the owner's |
| `KidLock.StepOnlyOwn` | internal/api/kids.go:19-27 | one request of a non-adult account changes at most its theme, its favorites on allowed services and its own session rows |
| `KidLock.RunOnlyOwn` | internal/api/server.go:113-181 | the same over any sequence of requests with its tokens |
| `KidLockRuns.LockHoldsThroughout` | internal/api/server.go:113-181 | with any store calls of others, which may change or delete the account and its allow-list, and polls between them, every request of the kid stays confined by the allow-list of that moment, every guarded route answers 403 or 401, the account stays a kid's, and a deleted one changes nothing |
| `KidLock.GuardedAnswers403` | internal/api/server.go:97-107 | every kid-forbidden or admin-only route answers 403 to its live session, and changes nothing but the slide |
| `KidLock.PatchMeChangesTheme` | internal/api/auth.go:189-201 | a non-adult's PATCH /api/me writes only the theme, and one naming anything else is refused whole |
| `RouteGuards.StrangerIsRefused` | internal/api/auth.go:266-293 | without a live session every route but logout answers 401 and changes nothing |
| `RouteGuards.BarredExactly` | internal/api/server.go:97-107 | a signed-in account is answered 403 exactly on the routes its role is barred from, by the route's name, and never 401 |
| `RouteGuards.AdminRoutesNeedAdmin` | internal/api/library.go:43-54 | on an admin-only route whoever is not an admin, an adult included, gets 401 or 403 without a body, and nothing is written past the slide |
| `RouteGuards.AdminRouteIsItsCall` | internal/api/services.go:303-307 | an admin's request on one is exactly its store call, answered with the call's outcome |
| `RouteGuards.AdultRouteIsItsCall` | internal/api/server.go:113-181 | an adult's request on a route closed to kids is exactly its store call for the caller |
| `RouteGuards.ReadsAnswered` | internal/api/server.go:113-181 | each read answers a signed-in account 200 with its own body and writes nothing past the slide |
| `RouteGuards.OwnWritesAnswered` | internal/api/server.go:113-181 | the routes that write the caller's own rows do so for the caller, with the cookie of the slide |
| `RouteGuards.LogoutEndsSession` | internal/api/auth.go:128-146 | a logout answers 204, clears the cookie and ends exactly its own session: the token gets 401 on every other route from then on |
| `KidIsolation.KidIsConfined` | internal/storage/kids.go:199-223 | a kid's visible services and categories are its allow-list's, all in the shared catalog |
| `KidIsolation.SameServicesBody` | internal/api/services.go:76-136 | GET /api/services depends only on the kid's view |
| `KidIsolation.SameCategoriesBody` | internal/api/categories.go:42-74 | GET /api/categories depends only on the kid's view |
| `KidIsolation.CollapsedIsOwn` | internal/api/collapse.go:25-52 | GET collapsed-categories answers only marks on categories of allowed services |
| `KidIsolation.SameStatusBody` | internal/api/services.go:326-365 | GET /api/status depends only on the kid's view |
| `KidIsolation.SameIconBody` | internal/api/kids.go:46-56 | the icon routes depend only on the kid's view |
| `KidUnseen.UnseenCall` | internal/storage/storage.go:391-516 | a store call that does not touch the kid leaves its whole view as it was |
| `KidGrants.GrantKeepsView` | internal/storage/kids.go:229-277 | the same allow-list saved on two sides leaves the kid one view when the rows it brings into view agree |
| `KidGrants.EditKeepsView` | internal/storage/storage.go:391-446 | the same edit of an allowed service leaves the kid one view when the category and the endpoint it brings into view agree |
| `KidGrants.RestartKeepsView` | migrations/0007_per_user_dashboards.up.sql:58-64 | restarts of either side leave the kid one view when they give its services the same sources |
| `KidGrants.LoneRestartAgrees` | migrations/0007_per_user_dashboards.up.sql:58-64 | a restart of one side alone is unseen when no allowed service is waiting for a source |
| `KidTwins.OwnSessionsFollow` | internal/session/pgstore.go:58-180 | a sign-in of the kid, a slide, a sign-out, a revocation or a sweep does to the kid's sessions what it does to the whole table |
| `KidTwins.TwinsKeepView` | internal/storage/categories.go:59-148 | equal calls on two sides leave the kid one view, when both accept or both refuse them: a rename, width, order or deletion of categories, a new or deleted icon, a deletion of a service or an offer, a session call, a change of the kid's own row |
| `KidRuns.SameCaller` | internal/api/auth.go:266-293 | equal session rows resolve, slide and re-issue alike |
| `KidRuns.SameReply` | internal/api/server.go:97-181 | equal views give the same response on every route, and equal views after it |
| `KidRuns.EventKeepsAgreement` | internal/api/kids.go:32-56 | the agreement of two databases on a kid's view survives each request, unrelated call, grant, edit of an allowed service, other equal call on what the kid sees, restart and poll |
| `KidRuns.KidCannotTell` | internal/api/services.go:326-390 | non-interference over runs: a kid gets the same responses from two services that agree on its view, however each is otherwise used |
| `Migrator.Store.PerUserDashboards` | migrations/0007_per_user_dashboards.up.sql:28-78 | the statements in order: columns, library seed, owners, sources, then the constraints, aborting where one is broken |
| `Migrator.Store.AddGridWidth` | migrations/0008_category_grid_width.up.sql:9-19 | adds the width column once |
| `Migrator.Store.WidenGridWidth` | migrations/0009_grid_width_1_to_8.up.sql:16-26 | swaps the range check unless the span check is there |
| `Migrator.Store.TwelveColumns` | migrations/0013_grid_width_12col.up.sql:20-49 | saves and remaps the widths unless the span check is there |
| `Migrator.Store.PerUserUptime` | migrations/0016_per_user_uptime_display.up.sql:18-46 | adds and fills the column once |
| `Migrator.Store.KidAccounts` | migrations/0018_kid_accounts.up.sql:14-50 | swaps the role and credential constraints once |
| `Migrator.Store.Migrate` | internal/storage/storage.go:160-186 | runs the files in name order in one transaction: the migrated tables, or the old ones |
| `Migrator.Store.SeedLibraryIfEmpty` | internal/storage/seed.go:37-77 | inserts every entry in order when the library is empty, and otherwise nothing |
| `BootStability.MigrateAborts` | migrations/0007_per_user_dashboards.up.sql:66-70 | a boot aborts exactly when there are rows without an owner and no admin; otherwise every migration is in effect and every constraint holds |
| `BootStability.CutoverKeepsServices` | migrations/0007_per_user_dashboards.up.sql:39-64 | the cutover gives unowned services to the oldest admin, links each to an offer with its name and url, and changes nothing else of them |
| `BootStability.CutoverMintsOffers` | migrations/0007_per_user_dashboards.up.sql:36-45 | it mints one offer per unowned service, numbered by name, with the service's name, url, icon and description and its category's name as suggestion |
| `BootStability.SeedOffersEntries` | internal/storage/seed.go:37-87 | the seed's offers are its entries in order, field by field, each suggesting its group with a capital initial |
| `BootStability.MigrateTwice` | internal/storage/storage.go:156-159 | migrating twice is migrating once, whichever offers the joins meet |
| `BootStability.MigratedAgain` | migrations/0007_per_user_dashboards.up.sql:61-64 | on a migrated database a boot's migration changes no row but for service sources |
| `BootStability.WiringTouchesOnlySources` | migrations/0007_per_user_dashboards.up.sql:58-64 | a source changes only from NULL, only to an offer with equal name and url, and stays NULL only where there is none |
| `BootStability.TwoBootsSettle` | internal/storage/seed.go:31-36 | migrate and seed reach a fixed point after at most two boots |
| `BootStability.RerunIsNoOpExactly` | internal/storage/storage.go:156-159 | re-running the migrations changes nothing if and only if the database is migrated and no service without a source has an offer with its name and url |
| `BootStability.RerunCanWire` | migrations/0007_per_user_dashboards.up.sql:61-64 | an input where re-running does change a row: the offer came after the service |
| `BootStability.OneBootIsEnoughExactly` | internal/storage/seed.go:31-36 | a second boot changes nothing after the first if and only if it is not the case that the library is empty, every service owned, and some entry of the seed has a service's name and url |
| `BootStability.OneBootIsNotEnough` | internal/storage/seed.go:31-36 | an input where the second boot does: the service the seed describes is linked only by it |
| `BootStability.BootsNeverAbort` | migrations/0009_grid_width_1_to_8.up.sql:12-26 | after one successful boot no later one aborts, whatever is written or reverted in between, in a database with one schema |
| `BootStability.FirstBootDecides` | migrations/0007_per_user_dashboards.up.sql:66-70 | over a run that starts with a boot, no boot aborts exactly when that first one finds no ownerless catalog |
| `BootStability.FreshAndOldBoot` | internal/storage/storage.go:156-186 | an empty database, and an older one with an admin, boot for good |
| `BootRuns.RemapIsNearest` | migrations/0013_grid_width_12col.up.sql:4-10 | each old width is remapped to the span nearest to its share of the row |
| `BootRuns.BootLosesNothing` | internal/storage/storage.go:160-186 | no boot loses a row or a column's data: only a missing owner or source, an uptime preference that did not exist, and the width with its saved original are filled in; existing offers and the setting stand |
| `BootRuns.WidthOverRuns` | migrations/0013_grid_width_12col.up.sql:15-49 | over any run of boots and edits (store operations are such edits: see StoreRuns), a width is the last span an admin set, else the remapped original, else 6, and always 3, 4, 6 or 12 |
| `BootRuns.RevertRestores` | migrations/0013_grid_width_12col.down.sql:4-8 | 0013 up, any boots and edits, then down: every older category has its old width back and every newer one has 3 |
| `BootRuns.UptimeOverRuns` | migrations/0016_per_user_uptime_display.up.sql:18-46 | a user's uptime preference is the last one they saved, else the admin default when the column was added or the account created |
| `StoreRuns.OpIsLegalEdit` | internal/storage/categories.go:37-148 | every store operation is an edit of the migrated tables that sets a width exactly when it is an accepted SetCategoryWidth and an uptime preference exactly when it saves one; new rows take the defaults |
| `StoreRuns.RunFits` | internal/storage/storage.go:160-186 | a run of store operations with restarts anywhere is a legal run of edits and boots of its tables |
| `StoreRuns.RunKeepsInv` | internal/storage/storage.go:156-715 | store operations with restarts between any two keep the invariant and the shared owner |
| `StoreRuns.ReachableIsSoundByCalls` | migrations/0018_kid_accounts.up.sql:32-59 | on every database reachable from the empty one: credentials missing exactly for kids, allow-lists only for kids and inside the shared catalog, KidServiceIDs equal to VisibleServiceIDs, categories their services' owners', no reference dangles, widths are 3, 4, 6 or 12, emails and kids' names differ in more than case, slugs and category names differ per owner, and handles differ |
| `StoreRuns.ReachableIsSound` | migrations/0018_kid_accounts.up.sql:32-59 | the same with restarts anywhere in the run |
| `StoreRuns.WidthOverStoreRuns` | internal/storage/categories.go:37-148 | over such runs a width is the last one an accepted SetCategoryWidth gave, else the one there was, else 6, and always a span |
| `StoreRuns.UptimeOverStoreRuns` | internal/storage/storage.go:213-288 | over such runs an uptime preference is the last one the user saved, else the one there was, else the admin default when the account was created |
| `StoreRuns.UpgradeIsStores` | internal/storage/storage.go:160-186 | an older database with an admin or no catalog yet, whose accounts have distinct emails and creation times, boots into the tables of a store database: unowned categories and services get one owner |
| `StoreRuns.OldKeepsStore` | migrations/0007_per_user_dashboards.up.sql:21-64 | of a database from before the per-user cutover, only the accounts have to be apart for that |
| `StoreRuns.UpgradeThenStoreRuns` | migrations/0013_grid_width_12col.up.sql:15-49 | any such older database, its first boot, then any store operations and restarts: widths nobody chose are the remapped originals, and reverting 0013 restores every old width |
| `StoreRuns.UpgradeThenUptime` | migrations/0016_per_user_uptime_display.up.sql:18-46 | after an upgrade that adds the column, a preference nobody saved is the admin default at the upgrade, or at the account's creation |
| `MigratedStore.MigratedIsStores` | migrations/0018_kid_accounts.up.sql:14-50 | every migrated database with distinct emails and creation times and categories of their services' owners is the tables of a store database |
| `MigratedStore.StoreIsMigrated` | migrations/0018_kid_accounts.up.sql:14-50 | whatever the store's methods have made of the tables, every constraint of the migrated schema holds |
| `MigratedStore.BootIsRestart` | internal/storage/storage.go:160-186 | a boot of the running release succeeds on the store's tables and only wires sources and seeds an empty library |
| `MigratedStore.RestartKeepsInv` | internal/storage/storage.go:160-186 | and keeps the store's invariant |

## Left out

- KidRuns.KidCannotTell: two different calls that change what the kid sees (one side renames a category while the other creates one, say) are an event only as a pair that leaves the same view, and the run ends when the kid's account is deleted.
- KidLock.RunOnlyOwn: only the account's own requests, on one snapshot; KidLockRuns interleaves everything else.
- StoreRuns.UpgradeThenStoreRuns: the tables that these migrations do not touch (favorites, layouts, icons, sessions) are empty after the upgrade, and the columns outside the migration tables hold their defaults; StoreRuns.WidthsSinceUpgrade is the statement for any store database with the upgraded tables.
- Gatus.Client.FetchAll: the threshold is one value during the fetch; the code reads it twice in one condition, so a threshold saved in between can mix two values.
- Gatus.Poller.PollNow: two polls that overlap can publish in either order, so the snapshot's time is not claimed to increase.
- SignInHere.NeverBoth: the kid's row is read once, by the step that finds it.
- MemoryStore.Store.Create: the token and handle are given as arguments that are new, in place of the random source.
- Bind, a second way to insert a session, under a token the caller chooses.
- Failures of the database itself in the handlers, which answer 500; only the hand-over and the sign-in model failing calls.
- HTTP, JSON decoding, status texts, headers beyond the session cookie, and logging.
- router.handle as a registration call: the route classes are a function of the route, and the guard is applied by class.
- Registration, password checks and OIDC, which end in a session for an adult.
- Icon upload and favicon fetching; icons are rows that handlers read and cascades delete.
- System settings other than the uptime default, the environment view, and the degraded threshold's validation.
- SetLibraryOrder and ListLibrary: they order offers as the category methods order categories.
- PostRefresh runs Gatus.Poller.PollNow; as a request its effect on the tables is none.
- The names and colors an admin form accepts; avatar_color is not a column of the migration tables, where it is added as NULL by the same script that constrains it.
- The migrations that only add a column or table with a default: 0002, 0003, 0005, 0006, 0010, 0011, 0012, 0014, 0015, 0017; and every down migration but that of 0013.
- 0008's guard looks for the column in any schema; the model has one schema.
- The advisory lock that serializes migrators: a boot is one step.
- The contents of the seed file, and its sort by name: the entries are given in order.
