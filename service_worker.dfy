/**
 The cache policy of the koshien_app service worker (sw.js): precache on install,
 version-based eviction on activate, and a cache-first fetch handler that admits
 same-origin 200 responses into the current store and falls back to the app page
 for offline navigations.
 */
module ServiceWorker {
  import opened CacheStorageApi

  /** The version identifier that names the current store. */
  const CACHE_NAME: string := "koshien-app-v1.0.2"

  /** The app shell fetched into the current store at install time. */
  const URLS_TO_CACHE: seq<string> := [
    "/koshien_app/",
    "/koshien_app/index.html",
    "/koshien_app/manifest.json",
    "/koshien_app/icon-192.png",
    "/koshien_app/icon-512.png"
  ]

  /** The offline fallback key as sw.js writes it: outside the app's path, never precached. */
  const OFFLINE_PAGE_AS_WRITTEN: string := "/index.html"

  /** The offline fallback key the handler uses: the precached app page. */
  const OFFLINE_PAGE: string := "/koshien_app/index.html"

  /** What `event.respondWith` is given: a response, null, or undefined. */
  datatype Reply = Served(response: Response) | Null | Undefined

  /** A store left over from another version of the worker. */
  predicate IsStale(name: string)
  {
    name != CACHE_NAME
  }

  /** A network response that the fetch handler copies into the current store. Such a
      response is one `cache.put` never rejects for being partial, and one `cache.addAll`
      would accept too. */
  predicate Admits(r: Response)
    ensures Admits(r) ==> r.status != 206 && Accepted(Answered(r))
  {
    r.status == 200 && r.kind == Basic
  }

  /** A full page navigation. */
  predicate IsDocument(req: Request)
  {
    req.destination == "document"
  }

  /** What a document request that failed at the network receives: the lookup of
      `page` across all stores, or undefined when nothing holds it. Any other request
      receives undefined. */
  function OfflineReply(order: seq<string>, stores: map<string, Store>, req: Request, page: string): (r: Reply)
    ensures r.Null? == false
    ensures !IsDocument(req) ==> r == Undefined
    ensures IsDocument(req) ==> (r.Served? <==> exists i :: 0 <= i < |order| && Holds(stores, order[i], page))
    ensures r.Served? ==> exists i :: 0 <= i < |order| && Holds(stores, order[i], page) && stores[order[i]][page] == r.response
                                    && forall j :: 0 <= j < i ==> !Holds(stores, order[j], page)
  {
    if !IsDocument(req) then Undefined
    else
      match Lookup(order, stores, GetRequest(page))
      case Some(hit) => Served(hit)
      case None => Undefined
  }

  /** The stores after the fetch handler's write of `r` for `req` into the current
      store (opened, so created empty if absent). `cache.put` rejects a request whose
      method is not GET, and then only the opening takes effect. */
  function CacheWrite(stores: map<string, Store>, req: Request, r: Response): (w: map<string, Store>)
    ensures CACHE_NAME in w
    ensures req.httpMethod == "GET" ==> req.url in w[CACHE_NAME] && w[CACHE_NAME][req.url] == r
    ensures forall u :: u in w[CACHE_NAME] && u != req.url ==>
      CACHE_NAME in stores && u in stores[CACHE_NAME] && w[CACHE_NAME][u] == stores[CACHE_NAME][u]
    ensures CACHE_NAME in stores ==> forall u :: u in stores[CACHE_NAME] && u != req.url ==> u in w[CACHE_NAME]
    ensures req.httpMethod != "GET" ==> w[CACHE_NAME] == (if CACHE_NAME in stores then stores[CACHE_NAME] else map[])
  {
    var current := if CACHE_NAME in stores then stores[CACHE_NAME] else map[];
    stores[CACHE_NAME := if req.httpMethod == "GET" then current[req.url := r] else current]
  }

  /** The fetch handler's write touches no store but the current one. */
  lemma CacheWriteKeepsOtherStores(stores: map<string, Store>, req: Request, r: Response)
    ensures OnlyCurrentWritten(stores, CacheWrite(stores, req, r))
  {
  }

  /** The stores once the install handler has run, with `net` answering each precache
      fetch: the current store is opened (created empty if absent), then the batch is
      added over it when `cache.addAll` accepts it. */
  function AfterInstall(stores: map<string, Store>, net: string -> NetworkOutcome): (r: map<string, Store>)
    ensures CACHE_NAME in r
  {
    var current := if CACHE_NAME in stores then stores[CACHE_NAME] else map[];
    match BulkAdd(URLS_TO_CACHE, net)
    case Some(batch) => stores[CACHE_NAME := current + batch]
    case None => stores[CACHE_NAME := current]
  }

  /** Installing touches no store but the current one. */
  lemma InstallKeepsOtherStores(stores: map<string, Store>, net: string -> NetworkOutcome)
    ensures forall n :: IsStale(n) ==> (n in AfterInstall(stores, net) <==> n in stores)
    ensures forall n :: IsStale(n) && n in stores ==> AfterInstall(stores, net)[n] == stores[n]
  {
  }

  /** Precaching is all or nothing: when every fetch is accepted the current store
      holds each precache URL with the network's answer and keeps its other entries;
      otherwise the current store is exactly what it was (empty if it was new). */
  lemma InstallAllOrNothing(stores: map<string, Store>, net: string -> NetworkOutcome)
    ensures var current := if CACHE_NAME in stores then stores[CACHE_NAME] else map[];
      var after := AfterInstall(stores, net)[CACHE_NAME];
      if forall i :: 0 <= i < |URLS_TO_CACHE| ==> Accepted(net(URLS_TO_CACHE[i])) then
        && (forall u :: u in URLS_TO_CACHE ==> u in after && net(u) == Answered(after[u]))
        && (forall u :: u in after && u !in URLS_TO_CACHE ==> u in current && after[u] == current[u])
        && (forall u :: u in current ==> u in after)
      else
        after == current
  {
    var current := if CACHE_NAME in stores then stores[CACHE_NAME] else map[];
    match BulkAdd(URLS_TO_CACHE, net)
    case Some(batch) =>
      var after := current + batch;
      assert AfterInstall(stores, net)[CACHE_NAME] == after;
      forall u | u in after && u !in URLS_TO_CACHE ensures u in current && after[u] == current[u] {
        assert u !in batch;
      }
    case None =>
  }

  /** The install handler: opens the current store, then adds every precache URL with
      `net` answering each fetch. A rejected `addAll` is caught, so installation always
      completes; `added` tells which branch ran. */
  method Install(cs: CacheStorage, net: string -> NetworkOutcome) returns (added: bool)
    requires cs.Valid()
    modifies cs
    ensures cs.Valid()
    ensures added <==> forall i :: 0 <= i < |URLS_TO_CACHE| ==> Accepted(net(URLS_TO_CACHE[i]))
    ensures cs.stores == AfterInstall(old(cs.stores), net)
    ensures cs.order == old(cs.order) + (if CACHE_NAME in old(cs.stores) then [] else [CACHE_NAME])
  {
    cs.Open(CACHE_NAME);
    added := cs.AddAll(CACHE_NAME, URLS_TO_CACHE, net);
  }

  /** The names that survive `Activate` among the names `visited` so far. */
  function Kept(visited: seq<string>): (r: seq<string>)
  {
    if CACHE_NAME in visited then [CACHE_NAME] else []
  }

  /** Visiting the name at position `i` of the listed names: a stale name is removed
      from the order, the current name stays where it is. */
  lemma {:induction false} ActivateStep(names: seq<string>, i: nat)
    requires Distinct(names) && i < |names|
    ensures IsStale(names[i]) ==>
      Without(Kept(names[..i]) + names[i..], names[i]) == Kept(names[..i + 1]) + names[i + 1..]
    ensures !IsStale(names[i]) ==>
      Kept(names[..i]) + names[i..] == Kept(names[..i + 1]) + names[i + 1..]
  {
    var name := names[i];
    assert names[..i + 1] == names[..i] + [name];
    assert names[i..] == [name] + names[i + 1..];
    DistinctAt(names, i);
    if IsStale(name) {
      assert Kept(names[..i + 1]) == Kept(names[..i]);
      WithoutSplice(Kept(names[..i]), name, names[i + 1..]);
      assert Kept(names[..i]) + names[i..] == Kept(names[..i]) + [name] + names[i + 1..];
    } else {
      assert Kept(names[..i]) == [];
      assert Kept(names[..i + 1]) == [name];
    }
  }

  /** Activation is idempotent: storage that holds no stale store lists at most the
      current name, which is exactly the order `Activate` leaves, so running it again
      deletes nothing. */
  lemma {:induction false} ActivateIdempotent(order: seq<string>, stores: map<string, Store>)
    requires Distinct(order) && forall n :: n in stores <==> n in order
    requires forall n :: n in stores ==> !IsStale(n)
    ensures order == if CACHE_NAME in stores then [CACHE_NAME] else []
  {
    DistinctCount(order);
    var present := set n | n in order;
    assert present <= {CACHE_NAME};
    assert present == {} || present == {CACHE_NAME};
    if |order| == 1 {
      assert order[0] in stores;
      assert order == [CACHE_NAME];
    }
  }

  /** Activating storage that holds no stale store, as activation leaves it, changes
      nothing: the order and every store stay as they were. */
  method Reactivate(cs: CacheStorage)
    requires cs.Valid() && forall n :: n in cs.stores ==> !IsStale(n)
    modifies cs
    ensures cs.Valid()
    ensures cs.order == old(cs.order) && cs.stores == old(cs.stores)
  {
    ActivateIdempotent(cs.order, cs.stores);
    Activate(cs);
  }

  /** The callback `Activate` maps over the store names: a stale store is deleted,
      the current one is left alone. */
  method EvictIfStale(cs: CacheStorage, name: string) returns (evicted: bool)
    requires cs.Valid()
    modifies cs
    ensures cs.Valid()
    ensures evicted == IsStale(name)
    ensures cs.stores == if evicted then old(cs.stores) - {name} else old(cs.stores)
    ensures cs.order == if evicted then Without(old(cs.order), name) else old(cs.order)
  {
    evicted := IsStale(name);
    if evicted {
      var _ := cs.Delete(name);
    }
  }

  /** The activate handler: goes through the names `caches.keys()` lists and deletes
      every store whose name is not `CACHE_NAME`; the current store keeps its entries. */
  method Activate(cs: CacheStorage)
    requires cs.Valid()
    modifies cs
    ensures cs.Valid()
    ensures forall n :: n in cs.stores <==> n in old(cs.stores) && !IsStale(n)
    ensures CACHE_NAME in cs.stores ==> cs.stores[CACHE_NAME] == old(cs.stores)[CACHE_NAME]
    ensures cs.order == if CACHE_NAME in old(cs.stores) then [CACHE_NAME] else []
  {
    var names := cs.order;
    ghost var stores := cs.stores;
    for i := 0 to |names|
      invariant cs.Valid()
      invariant cs.order == Kept(names[..i]) + names[i..]
      invariant forall n :: n in cs.stores ==> n in stores && cs.stores[n] == stores[n]
    {
      ActivateStep(names, i);
      var _ := EvictIfStale(cs, names[i]);
    }
    assert names[..|names|] == names;
    assert names[|names|..] == [];
  }

  /** `after` differs from `before` at most in the current store. */
  ghost predicate OnlyCurrentWritten(before: map<string, Store>, after: map<string, Store>)
  {
    forall n :: IsStale(n) ==> (n in after <==> n in before) && (n in after ==> after[n] == before[n])
  }

  /** The fire-and-forget write of a copy of an admitted response: opens the current
      store and puts the copy under the request. */
  method StoreCopy(cs: CacheStorage, req: Request, r: Response)
    requires cs.Valid() && Admits(r)
    modifies cs
    ensures cs.Valid()
    ensures cs.stores == CacheWrite(old(cs.stores), req, r)
    ensures cs.order == old(cs.order) + (if CACHE_NAME in old(cs.stores) then [] else [CACHE_NAME])
  {
    ghost var before := cs.stores;
    ghost var current := if CACHE_NAME in before then before[CACHE_NAME] else map[];
    cs.Open(CACHE_NAME);
    assert cs.stores == before[CACHE_NAME := current];
    var _ := cs.Put(CACHE_NAME, req, r);
  }

  /** The network half of the fetch handler, run on a cache miss: `net` is what the
      network does with the request; `writeLands` says whether the fire-and-forget
      write into the current store takes effect; `page` is the offline fallback key
      (`OFFLINE_PAGE_AS_WRITTEN` as sw.js has it, `OFFLINE_PAGE` as corrected). */
  method FromNetwork(cs: CacheStorage, req: Request, net: NetworkOutcome, writeLands: bool, page: string)
    returns (reply: Reply)
    requires cs.Valid()
    modifies cs
    ensures cs.Valid()
    ensures net.Answered? ==> reply == Served(net.response)
    ensures net.NoResponse? ==> reply == Null
    ensures net.Failed? ==> reply == OfflineReply(old(cs.order), old(cs.stores), req, page)
    ensures net.Answered? && Admits(net.response) && writeLands ==>
      cs.stores == CacheWrite(old(cs.stores), req, net.response)
      && cs.order == old(cs.order) + (if CACHE_NAME in old(cs.stores) then [] else [CACHE_NAME])
    ensures !(net.Answered? && Admits(net.response) && writeLands) ==>
      cs.stores == old(cs.stores) && cs.order == old(cs.order)
  {
    match net
    case Failed =>
      reply := OfflineReply(cs.order, cs.stores, req, page);
    case NoResponse =>
      reply := Null;
    case Answered(r) =>
      if Admits(r) && writeLands {
        StoreCopy(cs, req, r);
      }
      reply := Served(r);
  }

  /** The fetch handler, cache first: a hit in any store is answered as stored without
      consulting the network; a miss goes to the network, with `page` as the offline
      fallback key. */
  method Fetch(cs: CacheStorage, req: Request, net: NetworkOutcome, writeLands: bool, page: string)
    returns (reply: Reply, networkCalled: bool)
    requires cs.Valid()
    modifies cs
    ensures cs.Valid()
    ensures networkCalled <==> Lookup(old(cs.order), old(cs.stores), req).None?
    // a hit, in any store, is returned as stored
    ensures !networkCalled ==>
      reply == Served(Lookup(old(cs.order), old(cs.stores), req).value)
      && cs.order == old(cs.order) && cs.stores == old(cs.stores)
    // a miss returns whatever the network gave
    ensures networkCalled && net.Answered? ==> reply == Served(net.response)
    ensures networkCalled && net.NoResponse? ==> reply == Null
    ensures networkCalled && net.Failed? ==> reply == OfflineReply(old(cs.order), old(cs.stores), req, page)
    // only an admitted answer, and only when the write lands, changes the storage
    ensures networkCalled && net.Answered? && Admits(net.response) && writeLands ==>
      cs.stores == CacheWrite(old(cs.stores), req, net.response)
      && cs.order == old(cs.order) + (if CACHE_NAME in old(cs.stores) then [] else [CACHE_NAME])
    ensures !(networkCalled && net.Answered? && Admits(net.response) && writeLands) ==>
      cs.stores == old(cs.stores) && cs.order == old(cs.order)
    // no store but the current one is ever written
    ensures OnlyCurrentWritten(old(cs.stores), cs.stores)
  {
    var hit := Lookup(cs.order, cs.stores, req);
    if hit.Some? {
      return Served(hit.value), false;
    }
    ghost var before := cs.stores;
    reply := FromNetwork(cs, req, net, writeLands, page);
    networkCalled := true;
    if net.Answered? && Admits(net.response) && writeLands {
      CacheWriteKeepsOtherStores(before, req, net.response);
    }
  }

  /** Once a response has been admitted for a GET request that missed, the next
      lookup of that request is a hit answering that very response: only the current
      store holds the URL, so no store earlier in the order can answer first. */
  lemma AdmittedThenServed(order: seq<string>, stores: map<string, Store>, req: Request, r: Response)
    requires forall n :: n in stores <==> n in order
    requires req.httpMethod == "GET" && Lookup(order, stores, req).None?
    ensures var order' := order + (if CACHE_NAME in stores then [] else [CACHE_NAME]);
      Lookup(order', CacheWrite(stores, req, r), req) == Some(r)
  {
    var order' := order + (if CACHE_NAME in stores then [] else [CACHE_NAME]);
    var stores' := CacheWrite(stores, req, r);
    assert CACHE_NAME in order';
    var k :| 0 <= k < |order'| && order'[k] == CACHE_NAME;
    assert Holds(stores', order'[k], req.url);
  }

  /** After activation the lookup consults the current store alone. */
  lemma ActivatedLookup(current: Store, req: Request)
    ensures Lookup([CACHE_NAME], map[CACHE_NAME := current], req)
      == if req.httpMethod == "GET" && req.url in current then Some(current[req.url]) else None
    ensures Lookup([], map[], req) == None
  {
    var stores := map[CACHE_NAME := current];
    assert [CACHE_NAME][0] == CACHE_NAME;
    if req.httpMethod == "GET" && req.url in current {
      assert Holds(stores, [CACHE_NAME][0], req.url);
    }
  }

  /** The fallback key sw.js looks up is not a precache path, while the app page is:
      a complete precache batch holds the one and never the other. */
  lemma PrecacheHoldsAppPageOnly(net: string -> NetworkOutcome)
    requires BulkAdd(URLS_TO_CACHE, net).Some?
    ensures OFFLINE_PAGE in BulkAdd(URLS_TO_CACHE, net).value
    ensures OFFLINE_PAGE_AS_WRITTEN !in BulkAdd(URLS_TO_CACHE, net).value
  {
    assert URLS_TO_CACHE[1] == OFFLINE_PAGE;
  }

  /** The fallback as written: on a worker installed on empty storage with every
      precache fetch accepted, then activated, a page navigation to a URL outside the
      precache misses the cache, and when the network then fails it is answered with
      undefined, because nothing holds the key sw.js looks up. */
  lemma AsWrittenFallbackMisses(net: string -> NetworkOutcome, req: Request)
    requires forall i :: 0 <= i < |URLS_TO_CACHE| ==> Accepted(net(URLS_TO_CACHE[i]))
    requires IsDocument(req) && req.url !in URLS_TO_CACHE
    ensures var installed := AfterInstall(map[], net);
      && Lookup([CACHE_NAME], map[CACHE_NAME := installed[CACHE_NAME]], req).None?
      && OfflineReply([CACHE_NAME], map[CACHE_NAME := installed[CACHE_NAME]], req, OFFLINE_PAGE_AS_WRITTEN) == Undefined
  {
    var installed := AfterInstall(map[], net);
    PrecacheHoldsAppPageOnly(net);
    assert installed[CACHE_NAME] == BulkAdd(URLS_TO_CACHE, net).value;
    ActivatedLookup(installed[CACHE_NAME], req);
    ActivatedLookup(installed[CACHE_NAME], GetRequest(OFFLINE_PAGE_AS_WRITTEN));
  }

  /** The corrected fallback: on any storage, once every precache fetch is accepted
      and the worker activated, an offline page navigation is answered with the
      precached app page, exactly as the network delivered it. */
  lemma CorrectedFallbackServes(stores: map<string, Store>, net: string -> NetworkOutcome, req: Request)
    requires forall i :: 0 <= i < |URLS_TO_CACHE| ==> Accepted(net(URLS_TO_CACHE[i]))
    requires IsDocument(req)
    ensures var installed := AfterInstall(stores, net);
      OfflineReply([CACHE_NAME], map[CACHE_NAME := installed[CACHE_NAME]], req, OFFLINE_PAGE)
        == Served(net(OFFLINE_PAGE).response)
  {
    var installed := AfterInstall(stores, net);
    InstallAllOrNothing(stores, net);
    assert OFFLINE_PAGE in URLS_TO_CACHE by {
      assert URLS_TO_CACHE[1] == OFFLINE_PAGE;
    }
    ActivatedLookup(installed[CACHE_NAME], GetRequest(OFFLINE_PAGE));
  }

  /** The whole life of a worker on a fresh origin: install with every precache fetch
      accepted, activate, then a page navigation to a URL outside the precache while
      the network fails. With the fallback key as sw.js writes it the navigation gets
      undefined; with the corrected key it gets the precached app page. */
  method OfflineNavigation(net: string -> NetworkOutcome, req: Request, page: string)
    returns (reply: Reply)
    requires forall i :: 0 <= i < |URLS_TO_CACHE| ==> Accepted(net(URLS_TO_CACHE[i]))
    requires IsDocument(req) && req.url !in URLS_TO_CACHE
    ensures page == OFFLINE_PAGE_AS_WRITTEN ==> reply == Undefined
    ensures page == OFFLINE_PAGE ==> net(OFFLINE_PAGE).Answered? && reply == Served(net(OFFLINE_PAGE).response)
  {
    var cs := InstalledAndActivated(net);
    AsWrittenFallbackMisses(net, req);
    CorrectedFallbackServes(map[], net, req);
    var networkCalled;
    reply, networkCalled := Fetch(cs, req, Failed, true, page);
  }

  /** A fresh origin after install and activation: the current store alone, holding
      what install left in it. */
  method InstalledAndActivated(net: string -> NetworkOutcome) returns (cs: CacheStorage)
    ensures fresh(cs) && cs.Valid()
    ensures cs.order == [CACHE_NAME]
    ensures cs.stores == map[CACHE_NAME := AfterInstall(map[], net)[CACHE_NAME]]
  {
    cs := new CacheStorage();
    var _ := Install(cs, net);
    Activate(cs);
  }
}
