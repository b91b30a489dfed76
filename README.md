# koshien_app service worker: cache policy

`sw.js` is the service worker of the koshien_app progressive web app. Under its calls
into browser APIs sits a small cache policy:

- **install** opens the store named by the version string `koshien-app-v1.0.2` and
  precaches the five app-shell paths under `/koshien_app/`; a failed precache is caught,
  so installation always completes;
- **activate** deletes every store whose name is not the current version;
- **fetch** is cache first: a hit in any store is returned as stored; a miss goes to the
  network, and a same-origin (`basic`) 200 response is copied into the current store; when
  the network fails, a page navigation falls back to a cached page.

The model has two modules.

- `CacheStorageApi` (`cache_storage.dfy`) covers the parts of the Cache and CacheStorage
  interfaces the worker uses (sections 5.4 and 5.5 of the W3C Service Workers
  specification), as map operations.
  - The class `CacheStorage` holds an ordered map from store name to store: `order` is the
    creation order and `stores` the map. A store is a map from request URL to response.
  - `caches.match` is `Lookup`: the first store in creation order that holds the URL, GET
    requests only.
  - `cache.addAll` is `AddAll`, all or nothing, with its batch given by the function
    `BulkAdd`.
  - `caches.open`, `caches.delete` and `cache.put` are the methods `Open`, `Delete` and `Put`.
- `ServiceWorker` (`service_worker.dfy`) holds the constants and the three handlers.
  - Each handler is a method that changes a `CacheStorage` step by step, as the JavaScript
    does.
  - Its effect is tied to a specification function (`AfterInstall`, `CacheWrite`,
    `OfflineReply`) or to an explicit new state.
  - Lemmas state what the policy promises across calls.

The network is a parameter. For a fetch it is a `NetworkOutcome`: an answer, a null
answer, or a failure. For the precache it is a function from URL to `NetworkOutcome`.
Whether the fire-and-forget copy into the cache takes effect is the boolean `writeLands`.
The fetch handler takes its offline fallback key as a parameter: `OFFLINE_PAGE_AS_WRITTEN`
(`/index.html`) is the program as written, `OFFLINE_PAGE` (`/koshien_app/index.html`) the
correction described under Findings.

## Model

| member | source | states |
|---|---|---|
| CacheStorageApi.Lookup | sw.js:46 | `caches.match` answers nothing for a non-GET request or a URL no store holds; otherwise it answers the entry of the first store, in creation order, that holds the URL |
| CacheStorageApi.FirstHolder | sw.js:46 | the position found is the first store in the order holding the URL, or the end of the order when none does |
| CacheStorageApi.Accepted | sw.js:17 | the `addAll` acceptance rule: the fetch answered, is not a network error, and has a status in 200-299 other than 206 |
| CacheStorageApi.BulkAdd | sw.js:17 | the `addAll` batch exists exactly when every fetch is accepted (answered, not an error, status 200-299 and not 206); its keys are exactly the URLs, each with the network's answer |
| CacheStorageApi.Without | sw.js:35 | removing a store name from the order keeps every other name and drops that one, and keeps the order free of repeats |
| CacheStorageApi.WithoutSplice | sw.js:35 | deleting a name that occurs once removes exactly its one position and leaves the names around it in place |
| CacheStorageApi.WithoutAbsent | sw.js:35 | deleting a name the order does not list leaves the order unchanged |
| CacheStorageApi.DistinctCount | sw.js:29 | a list of store names without repeats has as many names as distinct names |
| CacheStorageApi.CacheStorage.Open | sw.js:14 | `caches.open` creates an empty store at the end of the order if the name is new, and otherwise changes nothing |
| CacheStorageApi.CacheStorage.Delete | sw.js:35 | `caches.delete` removes the named store and its name from the order, and reports whether it existed |
| CacheStorageApi.CacheStorage.Put | sw.js:65 | `cache.put` is rejected for a non-GET request or a 206 response; otherwise it replaces the entry for the URL in that store alone |
| CacheStorageApi.CacheStorage.AddAll | sw.js:17 | `cache.addAll` succeeds exactly when every fetch is accepted, and then adds the whole batch over the store; otherwise nothing changes |
| ServiceWorker.AfterInstall | sw.js:14-17 | the storage after install: the current store always exists (opened empty if new), with the `addAll` batch added over it when every fetch is accepted and nothing added otherwise |
| ServiceWorker.Install | sw.js:11-23 | the install handler always completes; it opens the current store, and `added` holds exactly when every precache fetch is accepted; the new storage is `AfterInstall` of the old one |
| ServiceWorker.InstallAllOrNothing | sw.js:13-22 | after install, either every precache path is a key of the current store with the network's answer, every old entry is still there, and the entries outside the precache keep their old values, or the current store is exactly what it was |
| ServiceWorker.InstallKeepsOtherStores | sw.js:14-17 | install neither creates, deletes nor changes any store other than the current one |
| ServiceWorker.IsStale | sw.js:33 | the eviction test: a store is stale exactly when its name differs from `CACHE_NAME` |
| ServiceWorker.EvictIfStale | sw.js:31-37 | the per-name callback deletes the store exactly when its name is not `CACHE_NAME` |
| ServiceWorker.ActivateStep | sw.js:31-37 | visiting one listed name removes it from the order if stale and keeps it in place if current |
| ServiceWorker.Activate | sw.js:26-41 | after activation a store survives exactly when it existed and is named `CACHE_NAME`; its entries are unchanged; the order is the current name alone, or empty |
| ServiceWorker.ActivateIdempotent | sw.js:31-36 | storage holding no stale store already lists only the current name, which is the order activation leaves, so activating again deletes nothing |
| ServiceWorker.Reactivate | sw.js:26-41 | activating storage that holds no stale store (as activation leaves it) leaves the order and every store exactly as they were |
| ServiceWorker.IsDocument | sw.js:72 | the fallback applies only to requests whose destination is `document` |
| ServiceWorker.OfflineReply | sw.js:70-75 | on network failure a non-document request gets undefined, never null; a document request is served exactly when some store holds the fallback page, with the entry of the first store in creation order that holds it |
| ServiceWorker.CacheWriteKeepsOtherStores | sw.js:63-65 | the fetch handler's copy creates, deletes and changes no store but the current one |
| ServiceWorker.Admits | sw.js:57 | the write test: a response is copied exactly when its status is 200 and its type `basic`; such a response is never rejected by `cache.put` as partial and would be accepted by `addAll` |
| ServiceWorker.CacheWrite | sw.js:63-65 | the storage after the copy: the current store exists; for a GET request it maps the URL to the response; every other old entry of it is still there with its old value and no other entry appears; for a non-GET request it is exactly the store it was (empty if new) |
| ServiceWorker.StoreCopy | sw.js:61-66 | the copy opens the current store and puts the response under the request's URL; the new storage is `CacheWrite` of the old one |
| ServiceWorker.FromNetwork | sw.js:54-75 | on a miss, a network answer is returned as is; a null answer yields null; a failure yields the offline reply for the given fallback key; only an admitted (status 200, `basic`) answer whose write lands changes the storage, and then exactly by `CacheWrite` |
| ServiceWorker.Fetch | sw.js:44-78 | the network is consulted exactly on a miss; a hit in any store is returned as stored with storage unchanged; on a miss the reply and new state are those of the network branch, with the given fallback key; no store but the current one is ever written |
| ServiceWorker.AdmittedThenServed | sw.js:46-66 | after an admitted response for a GET request that missed has been written, the next lookup of that request answers that very response |
| ServiceWorker.ActivatedLookup | sw.js:46 | after activation a lookup consults the current store alone |
| ServiceWorker.PrecacheHoldsAppPageOnly | sw.js:2-8 | a complete precache batch holds `/koshien_app/index.html` and never `/index.html` |
| ServiceWorker.AsWrittenFallbackMisses | sw.js:73 | with the key as written, on a worker installed on empty storage with every precache fetch accepted, then activated, a page navigation to a URL outside the precache misses the cache and, the network failing, is answered with undefined |
| ServiceWorker.CorrectedFallbackServes | sw.js:73 | with the precached app page as the key, the same navigation, on any prior storage, is served the page exactly as the network delivered it at install |
| ServiceWorker.InstalledAndActivated | sw.js:11-41 | a fresh origin after install and activation holds the current store alone, with exactly what install put in it |
| ServiceWorker.OfflineNavigation | sw.js:11-78 | the handlers run in sequence on a fresh origin (install with every precache fetch accepted, activate, then a page navigation outside the precache while the network fails): with the key as written the reply is undefined, with the corrected key it is the precached app page |

## Left out

- The `sync`, `push` and `notificationclick` handlers (sw.js:81-130) only log, build an options literal, or call `showNotification` / `clients.openWindow`. They have no cache state to model, and the push handler reads the clock.
- All `console.log` output is left out.
- Promise timing and concurrency are left out.
  - The deletions that `Promise.all` runs together during activation are modelled one after another, in `caches.keys()` order.
  - Interleavings of concurrent fetch events are not modelled.
  - The fire-and-forget `cache.put` either takes effect at once or is dropped (`writeLands`).
- A `caches.delete` that rejects during activation is not modelled. Every deletion succeeds.
- Response bodies, streams and `clone()` are left out. A response is an identity with a status and a type, and a clone equals the original.
- Cache API internals are abstracted. Entries are keyed by the URL string, so URL normalisation, `Vary` handling, the http(s) scheme check and `addAll`'s duplicate-request check are not modelled.
- The network and the browser are parameters, not models.
- `Install`, `Open`, `AddAll`: storage failures that reject `caches.open` or the `addAll` write (storage unavailable, quota exceeded) are not modelled. `Open` always creates the store, and only a fetch that `addAll` does not accept makes install skip the batch; in the program the catch at sw.js:19-21 absorbs those failures too, leaving no store or no batch.
- `FromNetwork`: the unhandled rejection of a `cache.put` for a non-GET request is not modelled. Only its effect is kept: the current store is opened but gets no entry.

## Findings

| source | as written | input that shows it | evidently intended | confidence | as-written member | corrected member |
|---|---|---|---|---|---|---|
| sw.js:73 | the offline fallback looks up `'/index.html'`, a key outside every precached path (all under `/koshien_app/`, sw.js:3-7) | install on empty storage with every precache fetch accepted, activate, then a page navigation to `/koshien_app/about` (no store holds it) while the network fails: the cache misses, the fallback lookup misses too, and `respondWith` gets undefined | look up the precached app page `/koshien_app/index.html` | medium, not executed | ServiceWorker.AsWrittenFallbackMisses | ServiceWorker.CorrectedFallbackServes |
