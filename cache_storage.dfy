/**
 The Cache and CacheStorage interfaces a service worker relies on (sections 5.4 and
 5.5 of the W3C Service Workers specification), reduced to map operations.

 A cache storage is an ordered map from store name to store, and a store is a map
 from request URL to response. The order is the order in which stores were created:
 `caches.match` answers from the first store that holds the URL.
 */
module CacheStorageApi {

  datatype Option<T> = None | Some(value: T)

  /** The `type` classifier of a Fetch response. */
  datatype ResponseType = Basic | Cors | Default | Error | Opaque | OpaqueRedirect

  /** A response as the caching policy sees it: an identity standing for its headers
      and body, its status code and its type. Cloning a response keeps all three. */
  datatype Response = Response(id: nat, status: int, kind: ResponseType)

  /** A request as far as the cache looks at it. */
  datatype Request = Request(url: string, httpMethod: string, destination: string)

  /** What the network does with one request: it answers with a response, the answer
      is null, or the fetch fails (offline, DNS error, ...). */
  datatype NetworkOutcome = Answered(response: Response) | NoResponse | Failed

  type Store = map<string, Response>

  /** A request built from a bare URL string, as `caches.match(url)` and
      `cache.addAll(urls)` build them. */
  function GetRequest(url: string): Request
  {
    Request(url, "GET", "")
  }

  predicate Distinct(names: seq<string>)
  {
    forall i, j :: 0 <= i < j < |names| ==> names[i] != names[j]
  }

  /** The name at position `i` of a list without repeats occurs neither before nor after it. */
  lemma DistinctAt(names: seq<string>, i: nat)
    requires Distinct(names) && i < |names|
    ensures names[i] !in names[..i] && names[i] !in names[i + 1..]
  {
    var after := names[i + 1..];
    forall j | 0 <= j < |after| ensures after[j] != names[i] {
      assert after[j] == names[i + 1 + j];
    }
  }

  /** A list without repeats has as many names as it has distinct names. */
  lemma {:induction false} DistinctCount(names: seq<string>)
    requires Distinct(names)
    ensures |set n | n in names| == |names|
    decreases |names|
  {
    if names != [] {
      DistinctAt(names, 0);
      assert Distinct(names[1..]) by {
        forall i, j | 0 <= i < j < |names[1..]| ensures names[1..][i] != names[1..][j] {
          assert names[1..][i] == names[i + 1] && names[1..][j] == names[j + 1];
        }
      }
      DistinctCount(names[1..]);
      assert (set n | n in names) == {names[0]} + (set n | n in names[1..]);
    }
  }

  /** The store called `name` exists and holds an entry for `url`. */
  predicate Holds(stores: map<string, Store>, name: string, url: string)
  {
    name in stores && url in stores[name]
  }

  /** The position in `order` of the first store that holds `url`, or |order| if none does. */
  function FirstHolder(order: seq<string>, stores: map<string, Store>, url: string): (k: nat)
    ensures k <= |order|
    ensures forall j :: 0 <= j < k ==> !Holds(stores, order[j], url)
    ensures k < |order| ==> Holds(stores, order[k], url)
    decreases |order|
  {
    if order == [] then 0
    else if Holds(stores, order[0], url) then 0
    else
      var k := FirstHolder(order[1..], stores, url);
      assert forall j :: 1 <= j < k + 1 ==> order[j] == order[1..][j - 1];
      k + 1
  }

  /** `caches.match(request)`: only requests whose method is GET are matched; the
      answer comes from the first store, in creation order, that holds the URL. */
  function Lookup(order: seq<string>, stores: map<string, Store>, req: Request): (r: Option<Response>)
    ensures r.None? <==> req.httpMethod != "GET" || forall i :: 0 <= i < |order| ==> !Holds(stores, order[i], req.url)
    ensures r.Some? ==> exists i :: 0 <= i < |order| && Holds(stores, order[i], req.url)
                                    && stores[order[i]][req.url] == r.value
                                    && forall j :: 0 <= j < i ==> !Holds(stores, order[j], req.url)
  {
    if req.httpMethod != "GET" then None
    else
      var k := FirstHolder(order, stores, req.url);
      if k < |order| then Some(stores[order[k]][req.url]) else None
  }

  /** `cache.addAll` accepts a fetched response only if it is not a network error, its
      status is in the ok range 200-299, and it is not a partial (206) response. */
  predicate Accepted(o: NetworkOutcome)
  {
    o.Answered? && o.response.kind != Error && 200 <= o.response.status <= 299 && o.response.status != 206
  }

  /** The batch `cache.addAll(urls)` writes, given the network's answer for each URL:
      every URL with its response when all of them are accepted, nothing otherwise. */
  function BulkAdd(urls: seq<string>, net: string -> NetworkOutcome): (r: Option<Store>)
    ensures r.Some? <==> forall i :: 0 <= i < |urls| ==> Accepted(net(urls[i]))
    ensures r.Some? ==> forall u :: u in r.value <==> u in urls
    ensures r.Some? ==> forall u :: u in r.value ==> net(u) == Answered(r.value[u])
  {
    if urls == [] then Some(map[])
    else if !Accepted(net(urls[0])) then None
    else
      match BulkAdd(urls[1..], net)
      case None =>
        assert !forall i :: 0 <= i < |urls| ==> Accepted(net(urls[i])) by {
          var i :| 0 <= i < |urls[1..]| && !Accepted(net(urls[1..][i]));
          assert urls[i + 1] == urls[1..][i];
        }
        None
      case Some(rest) =>
        assert forall i :: 0 <= i < |urls| ==> Accepted(net(urls[i])) by {
          forall i | 0 <= i < |urls| ensures Accepted(net(urls[i])) {
            if i > 0 { assert urls[i] == urls[1..][i - 1]; }
          }
        }
        assert forall u :: u in urls <==> u == urls[0] || u in urls[1..];
        Some(map[urls[0] := net(urls[0]).response] + rest)
  }

  /** `s` with every occurrence of `x` removed. */
  function Without(s: seq<string>, x: string): (r: seq<string>)
    ensures forall y :: y in r <==> y in s && y != x
    ensures Distinct(s) ==> Distinct(r)
  {
    if s == [] then []
    else if s[0] == x then Without(s[1..], x)
    else
      var rest := Without(s[1..], x);
      assert Distinct(s) ==> s[0] !in s[1..];
      assert Distinct(s) ==> Distinct(s[1..]) by {
        if Distinct(s) {
          forall i, j | 0 <= i < j < |s[1..]| ensures s[1..][i] != s[1..][j] {
            assert s[1..][i] == s[i + 1] && s[1..][j] == s[j + 1];
          }
        }
      }
      [s[0]] + rest
  }

  lemma {:induction false} WithoutSplice(a: seq<string>, x: string, b: seq<string>)
    requires x !in a && x !in b
    ensures Without(a + [x] + b, x) == a + b
    decreases |a|
  {
    if a == [] {
      assert ([] + [x] + b)[1..] == b;
      WithoutAbsent(b, x);
    } else {
      assert (a + [x] + b)[1..] == a[1..] + [x] + b;
      WithoutSplice(a[1..], x, b);
      assert [a[0]] + (a[1..] + b) == a + b;
    }
  }

  /** Removing a name that does not occur changes nothing. */
  lemma {:induction false} WithoutAbsent(s: seq<string>, x: string)
    requires x !in s
    ensures Without(s, x) == s
    decreases |s|
  {
    if s != [] {
      WithoutAbsent(s[1..], x);
      assert [s[0]] + s[1..] == s;
    }
  }

  /** The origin's cache storage (`caches`). */
  class CacheStorage {
    /** The store names, in the order the stores were created. */
    var order: seq<string>
    var stores: map<string, Store>

    ghost predicate Valid()
      reads this
    {
      Distinct(order) && forall n :: n in stores <==> n in order
    }

    constructor ()
      ensures Valid() && order == [] && stores == map[]
    {
      order := [];
      stores := map[];
    }

    /** `caches.open(name)`: creates an empty store at the end of the order if none
        has that name; an existing store is left as it is. */
    method Open(name: string)
      requires Valid()
      modifies this
      ensures Valid() && name in stores
      ensures old(name in stores) ==> order == old(order) && stores == old(stores)
      ensures old(name !in stores) ==> order == old(order) + [name] && stores == old(stores)[name := map[]]
    {
      if name !in stores {
        order := order + [name];
        stores := stores[name := map[]];
      }
    }

    /** `caches.delete(name)`: drops the store and its entries; answers whether it existed. */
    method Delete(name: string) returns (existed: bool)
      requires Valid()
      modifies this
      ensures Valid()
      ensures existed == (name in old(stores))
      ensures stores == old(stores) - {name}
      ensures order == Without(old(order), name)
    {
      existed := name in stores;
      stores := stores - {name};
      order := Without(order, name);
    }

    /** `cache.put(request, response)` on the store `name`: rejected for a request whose
        method is not GET and for a partial (206) response; otherwise the entry for the
        request's URL is replaced. */
    method Put(name: string, req: Request, r: Response) returns (ok: bool)
      requires Valid() && name in stores
      modifies this
      ensures Valid() && order == old(order)
      ensures ok == (req.httpMethod == "GET" && r.status != 206)
      ensures stores == if ok then old(stores)[name := old(stores)[name][req.url := r]] else old(stores)
    {
      ok := req.httpMethod == "GET" && r.status != 206;
      if ok {
        stores := stores[name := stores[name][req.url := r]];
      }
    }

    /** `cache.addAll(urls)` on the store `name`, with `net` answering each fetch: all
        entries are written, or none is and the call rejects. */
    method AddAll(name: string, urls: seq<string>, net: string -> NetworkOutcome) returns (ok: bool)
      requires Valid() && name in stores
      modifies this
      ensures Valid() && order == old(order)
      ensures ok <==> forall i :: 0 <= i < |urls| ==> Accepted(net(urls[i]))
      ensures ok ==> stores == old(stores)[name := old(stores)[name] + BulkAdd(urls, net).value]
      ensures !ok ==> stores == old(stores)
    {
      var batch := BulkAdd(urls, net);
      ok := batch.Some?;
      if ok {
        stores := stores[name := stores[name] + batch.value];
      }
    }
  }
}
