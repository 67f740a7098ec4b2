/** The memory cache (bid_mcache.c) and the iteration and purge built on it (bid_cache.c): a
    snapshot is walked while the live cache is edited. */
module CacheStore {
  import opened Wrappers
  import opened Json
  import opened Identity
  import opened Ticket
  import ReplayCache

  /** A snapshot and the position in it. `released` counts how often it was freed. */
  class Cookie {
    const data: Cache
    const order: seq<string>
    var next: nat
    var released: nat

    /** The order is some enumeration of the snapshot's keys. */
    ghost predicate Valid()
      reads this
    {
      && next <= |order|
      && (forall i, j :: 0 <= i < j < |order| ==> order[i] != order[j])
      && (forall k :: k in data <==> k in order)
    }

    constructor (data: Cache, order: seq<string>)
      requires forall i, j :: 0 <= i < j < |order| ==> order[i] != order[j]
      requires forall k :: k in data <==> k in order
      ensures Valid() && this.data == data && this.order == order && next == 0 && released == 0
    {
      this.data, this.order, this.next, this.released := data, order, 0, 0;
    }
  }

  class MemoryCache {
    var data: Cache
    const readOnly: bool
    var lastChanged: int

    constructor (readOnly: bool)
      ensures data == map[] && this.readOnly == readOnly && lastChanged == 0
    {
      this.data, this.readOnly, this.lastChanged := map[], readOnly, 0;
    }

    method GetObject(key: string) returns (r: Result<Object>)
      ensures r == if key in data then Ok(data[key]) else Err(CacheKeyNotFound)
    {
      return if key in data then Ok(data[key]) else Err(CacheKeyNotFound);
    }

    method SetObject(key: string, value: Object, now: int) returns (r: Result<()>)
      modifies this
      ensures readOnly ==> r == Err(CachePermissionDenied) && data == old(data) && lastChanged == old(lastChanged)
      ensures !readOnly ==> r == Ok(()) && data == old(data)[key := value] && lastChanged == now
    {
      if readOnly {
        return Err(CachePermissionDenied);
      }
      data := data[key := value];
      lastChanged := now;
      return Ok(());
    }

    /** Removing a key that is not there succeeds too. */
    method RemoveObject(key: string, now: int) returns (r: Result<()>)
      modifies this
      ensures readOnly ==> r == Err(CachePermissionDenied) && data == old(data) && lastChanged == old(lastChanged)
      ensures !readOnly ==> r == Ok(()) && data == old(data) - {key} && lastChanged == now
    {
      if readOnly {
        return Err(CachePermissionDenied);
      }
      data := data - {key};
      lastChanged := now;
      return Ok(());
    }

    /** `_BIDMemoryCacheFirstObject`: a copy of the cache, positioned behind its first entry. An empty
        cache has none, and no cookie is handed out. */
    method FirstObject(order: seq<string>) returns (r: Result<(string, Object)>, cookie: Cookie?)
      requires forall i, j :: 0 <= i < j < |order| ==> order[i] != order[j]
      requires forall k :: k in data <==> k in order
      ensures order == [] ==> r == Err(CacheKeyNotFound) && cookie == null
      ensures order != [] ==>
                && cookie != null && fresh(cookie) && cookie.Valid() && cookie.data == data && cookie.order == order
                && cookie.next == 1 && cookie.released == 0 && order[0] in data && r == Ok((order[0], data[order[0]]))
    {
      cookie := new Cookie(data, order);
      if order == [] {
        return Err(CacheKeyNotFound), null;
      }
      assert order[0] in order;
      r := IteratorNext(cookie);
    }
  }

  /** `_BIDCacheIteratorNext`: the entry at the position, or the end, where the cookie is freed. */
  method IteratorNext(cookie: Cookie) returns (r: Result<(string, Object)>)
    requires cookie.Valid()
    modifies cookie
    ensures cookie.Valid()
    ensures old(cookie.next) == |cookie.order| ==>
              r == Err(NoMoreItems) && cookie.next == old(cookie.next) && cookie.released == old(cookie.released) + 1
    ensures old(cookie.next) < |cookie.order| ==>
              var key := cookie.order[old(cookie.next)];
              && key in cookie.data && r == Ok((key, cookie.data[key]))
              && cookie.next == old(cookie.next) + 1 && cookie.released == old(cookie.released)
  {
    if cookie.next == |cookie.order| {
      cookie.released := cookie.released + 1;
      return Err(NoMoreItems);
    }
    var key := cookie.order[cookie.next];
    assert key in cookie.order;
    cookie.next := cookie.next + 1;
    return Ok((key, cookie.data[key]));
  }

  // ----- purge -----

  /** The entries that a purge keeps. */
  function Kept(cache: Cache, purge: (string, Object) -> bool): Cache {
    map k | k in cache && !purge(k, cache[k]) :: cache[k]
  }

  /** The live cache after the first n visits of a purge. */
  ghost function LiveAfter(cache: Cache, purge: (string, Object) -> bool, readOnly: bool, order: seq<string>, n: nat): Cache
    requires n <= |order|
  {
    map k | k in cache && !(!readOnly && purge(k, cache[k]) && k in order[..n]) :: cache[k]
  }

  /** `_BIDRemoveCacheObjectIfPredicateTrue`: the callback. Its own errors are dropped. */
  method RemoveIf(cache: MemoryCache, purge: (string, Object) -> bool, key: string, value: Object, now: int)
    modifies cache
    ensures cache.data == if !cache.readOnly && purge(key, value) then old(cache.data) - {key} else old(cache.data)
  {
    if purge(key, value) {
      var _ := cache.RemoveObject(key, now);
    }
  }

  /** `_BIDPurgeCache`. Whatever the order of the snapshot, each of its entries is visited once and the
      cookie is freed once, although the callback deletes from the live cache; the live cache ends as
      the entries that fail the predicate. An empty cache is reported as an error, and a read-only one
      is left alone without an error. */
  method Purge(cache: MemoryCache, purge: (string, Object) -> bool, order: seq<string>, now: int)
    returns (r: Result<()>, ghost visited: seq<string>, ghost released: nat)
    requires forall i, j :: 0 <= i < j < |order| ==> order[i] != order[j]
    requires forall k :: k in cache.data <==> k in order
    modifies cache
    ensures visited == order
    ensures released == if order == [] then 0 else 1
    ensures r == if order == [] then Err(CacheKeyNotFound) else Ok(())
    ensures cache.data == if cache.readOnly then old(cache.data) else Kept(old(cache.data), purge)
  {
    hide LiveAfter, Kept;
    ghost var before := cache.data;
    visited, released := [], 0;
    var item, cookie := cache.FirstObject(order);
    if cookie == null {
      EmptyOrder(cache.data, order, purge);
      return Err(CacheKeyNotFound), [], 0;
    }
    LiveBounds(before, purge, cache.readOnly, order);
    while item.Ok?
      invariant cookie.Valid() && cookie.data == before && cookie.order == order
      invariant item.Ok? ==> AtEntry(before, order, cookie.next, item.value) && cookie.released == 0
      invariant item.Err? ==> item.error == NoMoreItems && cookie.next == |order| && cookie.released == 1
      invariant visited == order[..if item.Ok? then cookie.next - 1 else |order|]
      invariant cache.data == LiveAfter(before, purge, cache.readOnly, order, if item.Ok? then cookie.next - 1 else |order|)
      decreases item.Ok?, |order| - cookie.next
    {
      visited := visited + [item.value.0];
      item := PurgeStep(cache, cookie, purge, item.value, now);
    }
    released := cookie.released;
    assert order[..|order|] == order;
    r := Ok(());
  }

  /** The callback on one entry, and the step to the next. */
  method PurgeStep(cache: MemoryCache, cookie: Cookie, purge: (string, Object) -> bool, item: (string, Object), now: int)
    returns (next: Result<(string, Object)>)
    requires cookie.Valid() && AtEntry(cookie.data, cookie.order, cookie.next, item)
    requires cache.data == LiveAfter(cookie.data, purge, cache.readOnly, cookie.order, cookie.next - 1)
    modifies cache, cookie
    ensures cookie.Valid()
    ensures cache.data == LiveAfter(cookie.data, purge, cache.readOnly, cookie.order, old(cookie.next))
    ensures next.Ok? ==> AtEntry(cookie.data, cookie.order, cookie.next, next.value)
                         && cookie.next == old(cookie.next) + 1 && cookie.released == old(cookie.released)
    ensures next.Err? ==> next.error == NoMoreItems && cookie.next == old(cookie.next) == |cookie.order|
                          && cookie.released == old(cookie.released) + 1
  {
    hide LiveAfter;
    VisitOne(cookie.data, purge, cache.readOnly, cookie.order, cookie.next - 1);
    RemoveIf(cache, purge, item.0, item.1, now);
    next := IteratorNext(cookie);
  }

  /** The entry that the cookie has just passed. */
  ghost predicate AtEntry(cache: Cache, order: seq<string>, next: nat, item: (string, Object)) {
    0 < next <= |order| && item.0 == order[next - 1] && item.0 in cache && item.1 == cache[item.0]
  }

  lemma LiveBounds(cache: Cache, purge: (string, Object) -> bool, readOnly: bool, order: seq<string>)
    requires forall k :: k in cache <==> k in order
    ensures LiveAfter(cache, purge, readOnly, order, 0) == cache
    ensures LiveAfter(cache, purge, readOnly, order, |order|) == if readOnly then cache else Kept(cache, purge)
  {
  }

  lemma EmptyOrder(cache: Cache, order: seq<string>, purge: (string, Object) -> bool)
    requires order == [] && forall k :: k in cache <==> k in order
    ensures Kept(cache, purge) == cache
  {
  }

  /** Visiting one more key removes that key exactly if the predicate says so. */
  lemma VisitOne(cache: Cache, purge: (string, Object) -> bool, readOnly: bool, order: seq<string>, n: nat)
    requires n < |order| && order[n] in cache
    ensures var live, key := LiveAfter(cache, purge, readOnly, order, n), order[n];
            LiveAfter(cache, purge, readOnly, order, n + 1) ==
            if !readOnly && purge(key, cache[key]) then live - {key} else live
  {
  }

  /** `_BIDPurgeReplayCache` is this purge with the replay cache's predicate. */
  lemma ReplayPurgeIsKept(cache: Cache, now: int)
    ensures Kept(cache, (k: string, entry: Object) => ReplayCache.ShouldPurge(entry, now)) == ReplayCache.Purged(cache, now)
  {
  }

  // ----- search -----

  /** The search of `_BIDFindTicketInCache` for a named identity: the iteration goes on to the end after
      a match, but calls the callback no more. It finds what a lookup under the key finds. */
  method MatchTicket(cache: MemoryCache, cacheKey: string, name: string, order: seq<string>) returns (r: Result<Object>)
    requires forall i, j :: 0 <= i < j < |order| ==> order[i] != order[j]
    requires forall k :: k in cache.data <==> k in order
    ensures r == if cacheKey in cache.data && GetString(cache.data[cacheKey], "sub") == Some(name) then Ok(cache.data[cacheKey])
                 else Err(CacheKeyNotFound)
  {
    var item, cookie := cache.FirstObject(order);
    if cookie == null {
      return Err(CacheKeyNotFound);
    }
    var cred: Option<Object> := None;
    while item.Ok?
      invariant cookie.Valid() && cookie.data == cache.data && cookie.order == order && fresh(cookie)
      invariant item.Ok? ==> cookie.next > 0 && item.value.0 == order[cookie.next - 1] && item.value.0 in cache.data
                             && item.value.1 == cache.data[item.value.0]
      invariant cred.Some? ==> Matches(cache.data, cacheKey, name) && cred.value == cache.data[cacheKey]
      invariant cred.None? && Matches(cache.data, cacheKey, name) ==>
                  exists i :: (if item.Ok? then cookie.next - 1 else |order|) <= i < |order| && order[i] == cacheKey
      decreases item.Ok?, |order| - cookie.next
    {
      if cred.None? && item.value.0 == cacheKey && GetString(item.value.1, "sub") == Some(name) {
        cred := Some(item.value.1);
      }
      item := IteratorNext(cookie);
    }
    return if cred.Some? then Ok(cred.value) else Err(CacheKeyNotFound);
  }

  ghost predicate Matches(cache: Cache, cacheKey: string, name: string) {
    cacheKey in cache && GetString(cache[cacheKey], "sub") == Some(name)
  }

  /** So the search agrees with the ticket lookup of the client. */
  lemma SearchIsLookup(ctx: Context, tickets: Cache, aud: string, name: string)
    requires TicketKey(ctx, aud).Ok?
    ensures FindTicket(ctx, tickets, aud, Some(name)) ==
            if Matches(tickets, TicketKey(ctx, aud).value, name) then Ok(tickets[TicketKey(ctx, aud).value])
            else Err(CacheKeyNotFound)
  {
  }
}
