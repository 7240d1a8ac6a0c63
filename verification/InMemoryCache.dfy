/** `InMemoryCache` in its own form: a map of byte slices on the heap, updated and deleted from in
    place. Every locked section is a method proved against `CacheProtocol`; Get, Set and evictExpired
    are composed of them. Clock readings are parameters. */
module InMemoryCache {
  import opened Wrappers
  import opened CacheProtocol

  /** An entry holding its own copy of the bytes. */
  datatype CacheItem = CacheItem(value: array<byte>, expiration: Option<int>)

  ghost function Pairs(s: seq<(string, int)>): set<(string, int)> {
    set p | p in s
  }

  class Cache {
    var items: map<string, CacheItem>

    /** The byte slices the cache holds. */
    ghost function Owned(): set<object>
      reads this
    {
      set k | k in items :: items[k].value
    }

    /** The entries with their contents. */
    ghost function View(): map<string, Item>
      reads this, Owned()
    {
      map k | k in items :: Item(items[k].value[..], items[k].expiration)
    }

    constructor ()
      ensures View() == map[] && Owned() == {}
    {
      items := map[];
    }

    /** make and copy. */
    method Copy(value: array<byte>) returns (copy: array<byte>)
      ensures fresh(copy) && copy[..] == value[..]
    {
      copy := new byte[value.Length];
      for i := 0 to value.Length
        invariant copy[..i] == value[..i]
      {
        copy[i] := value[i];
      }
    }

    /** Stores a copy of the caller's bytes. The cache never takes hold of an array it did not allocate. */
    method Set(key: string, value: array<byte>, ttl: int, now: int)
      modifies this
      ensures View() == old(View())[key := Item(value[..], Deadline(ttl, now))]
      ensures fresh(Owned() - old(Owned()))
    {
      var deadline := Deadline(ttl, now);
      var copy := Copy(value);
      Store(key, CacheItem(copy, deadline));
    }

    /** Set under the write lock. */
    method Store(key: string, item: CacheItem)
      modifies this
      ensures items == old(items)[key := item]
    {
      items := items[key := item];
    }

    /** Get under the read lock. */
    method Fetch(key: string) returns (item: Option<CacheItem>)
      ensures item == if key in items then Some(items[key]) else None
    {
      if key in items {
        return Some(items[key]);
      }
      return None;
    }

    method Delete(key: string)
      modifies this
      ensures View() == old(View()) - {key}
      ensures Owned() <= old(Owned())
    {
      items := items - {key};
    }

    /** Get's lazy deletion under the write lock. */
    method DeleteIfUnchanged(key: string, deadline: int)
      modifies this
      ensures View() == DeleteStale(old(View()), {(key, deadline)})
      ensures Owned() <= old(Owned())
    {
      if key in items && items[key].expiration == Some(deadline) {
        items := items - {key};
      }
    }

    /** An uninterrupted Get: a hit hands out a fresh copy of the live entry, a miss removes an expired one. */
    method Get(key: string, now: int) returns (reply: Option<array<byte>>)
      modifies this
      ensures key in LiveView(old(View()), now) ==>
                && reply.Some? && fresh(reply.value) && reply.value !in Owned()
                && reply.value[..] == old(View())[key].value
                && View() == old(View())
      ensures key !in LiveView(old(View()), now) ==> reply.None? && View() == old(View()) - {key}
      ensures Owned() <= old(Owned())
    {
      var found := Fetch(key);
      if found.None? {
        return None;
      }
      var item := found.value;
      if item.expiration.Some? && now > item.expiration.value {
        DeleteIfUnchanged(key, item.expiration.value);
        return None;
      }
      var copy := Copy(item.value);
      return Some(copy);
    }

    /** Phase 1 of evictExpired, under the read lock. Map iteration order is arbitrary. */
    method ScanExpired(now: int) returns (expired: seq<(string, int)>)
      ensures Pairs(expired) == Stale(View(), now)
    {
      expired := [];
      var todo := items.Keys;
      while todo != {}
        invariant todo <= items.Keys
        invariant forall p :: p in expired ==> p in Stale(View(), now)
        invariant forall k :: k in items && k !in todo && Expired(View()[k], now) ==>
                    (k, items[k].expiration.value) in expired
        decreases todo
      {
        var k :| k in todo;
        var item := items[k];
        if item.expiration.Some? && now > item.expiration.value {
          assert View()[k].expiration == item.expiration;
          expired := expired + [(k, item.expiration.value)];
        }
        todo := todo - {k};
      }
    }

    /** Phase 2 of evictExpired, under the write lock. */
    method DeleteExpired(expired: seq<(string, int)>)
      modifies this
      ensures View() == DeleteStale(old(View()), Pairs(expired))
      ensures Owned() <= old(Owned())
    {
      for i := 0 to |expired|
        invariant forall k :: k in items <==>
                    k in old(items) && !Condemns(Pairs(expired[..i]), k, old(View())[k])
        invariant forall k :: k in items ==> items[k] == old(items)[k]
      {
        var (key, deadline) := expired[i];
        assert Pairs(expired[..i + 1]) == Pairs(expired[..i]) + {expired[i]};
        if key in items && items[key].expiration == Some(deadline) {
          items := items - {key};
        }
      }
      assert expired[..|expired|] == expired;
    }

    /** An uninterrupted evictExpired leaves exactly the live entries. */
    method EvictExpired(now: int)
      modifies this
      ensures View() == LiveView(old(View()), now)
      ensures Owned() <= old(Owned())
    {
      var expired := ScanExpired(now);
      UndisturbedEviction(View(), now);
      if expired == [] {
        assert Pairs(expired) == {};
        assert View() == DeleteStale(View(), {});
        return;
      }
      DeleteExpired(expired);
    }
  }

  /** The aliasing promise of Set and Get: neither the array passed in nor the arrays handed out reach
      the stored bytes, whatever the caller writes into them. (No caller holds an owned array: by the
      contracts above the cache allocates all of them and hands out none.) */
  method CallerCannotReachIn(c: Cache, key: string, value: array<byte>, junk: byte, now: int)
    requires value !in c.Owned()
    modifies c, value
    ensures c.View() == old(c.View())[key := Item(old(value[..]), None)]
  {
    ghost var stored := c.View()[key := Item(value[..], None)];
    c.Set(key, value, 0, now);
    assert c.View() == stored && value !in c.Owned();
    Overwrite(value, junk);
    assert c.View() == stored;
    var first := c.Get(key, now);
    assert key in LiveView(stored, now);
    Overwrite(first.value, junk);
    assert c.View() == stored;
    var second := c.Get(key, now);
    assert second.value[..] == stored[key].value;
  }

  /** What a caller may do with its own array. */
  method Overwrite(a: array<byte>, junk: byte)
    modifies a
  {
    for i := 0 to a.Length {
      a[i] := junk;
    }
  }
}
