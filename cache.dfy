/**
 * The in-process response cache: a key/value table whose entries expire a
 * number of seconds after they are written, with bulk eviction of every key
 * that starts with a given prefix.
 *
 * The table itself is the `node-cache` library; this module models only the
 * behaviour the wrapper relies on. Expiry is lazy and measured against an
 * explicit clock in whole seconds: an entry written at time t with time-to-live
 * n answers reads while now < t + n and is absent from then on (at once for a
 * negative n); a time-to-live of 0 means the entry never expires. A read that finds its
 * entry expired deletes it, as the library does by default
 * (`deleteOnExpire`); until then the expired entry is still held, listed by
 * `keys()` and counted by `del`.
 */
module Cache {
  import opened Wrappers
  import opened Strings

  /** Time-to-live, in seconds, of the store and the default of `setCache`. */
  const DefaultTtl: nat := 300

  datatype Expiry = Never | At(deadline: nat)

  datatype Entry<V> = Entry(value: V, expiry: Expiry)

  /** What the library holds: at most one entry per key. */
  type Store<V> = map<string, Entry<V>>

  /** An entry still answers reads at time `now`. */
  predicate Live<V>(e: Entry<V>, now: nat) {
    e.expiry.Never? || now < e.expiry.deadline
  }

  /**
   * What `get(key)` answers at time `now`: only a held value, always for an
   * entry that never expires, before its deadline for one that does, and
   * never once the deadline is reached.
   */
  function Lookup<V>(s: Store<V>, now: nat, key: string): (r: Option<V>)
    ensures r.Some? ==> key in s && r.value == s[key].value
    ensures key in s && s[key].expiry.Never? ==> r == Some(s[key].value)
    ensures key in s && s[key].expiry.At? && now < s[key].expiry.deadline ==> r == Some(s[key].value)
    ensures key in s && s[key].expiry.At? && s[key].expiry.deadline <= now ==> r == None
  {
    if key in s && Live(s[key], now) then Some(s[key].value) else None
  }

  /**
   * The store after `get(key)` at time `now`: an expired entry under `key`
   * is deleted, nothing else changes, and no read from `now` on answers
   * differently.
   */
  function Pruned<V>(s: Store<V>, now: nat, key: string): (r: Store<V>)
    ensures key in s && !Live(s[key], now) ==> key !in r
    ensures forall k :: k in r ==> k in s && r[k] == s[k]
    ensures forall k :: k in s && (k != key || Live(s[k], now)) ==> k in r
    ensures forall k, t: nat :: now <= t ==> Lookup(r, t, k) == Lookup(s, t, k)
  {
    if key in s && !Live(s[key], now) then s - {key} else s
  }

  /**
   * The expiry the library stamps on an entry written at `now` with `ttl`
   * seconds: none for 0, otherwise `now + ttl`, which for a negative `ttl`
   * has already passed (a deadline before time 0 is recorded as 0).
   */
  function ExpiryAfter(now: nat, ttl: int): (e: Expiry)
    ensures ttl == 0 <==> e.Never?
    ensures ttl > 0 ==> e == At(now + ttl)
    ensures ttl < 0 ==> e.At? && e.deadline <= now
  {
    if ttl == 0 then Never else At(if now + ttl < 0 then 0 else now + ttl)
  }

  /** `setCache(key, value, ttl = 300)`: an omitted argument means 300 seconds. */
  function EffectiveTtl(ttl: Option<int>): (r: int)
    ensures ttl.None? ==> r == DefaultTtl
    ensures ttl.Some? ==> r == ttl.value
  {
    ttl.GetOr(DefaultTtl)
  }

  /**
   * The store after `set(key, value, ttl)` at time `now`: the key answers
   * `value` until the deadline and nothing after it, and every other key
   * answers as before.
   */
  function Stored<V>(s: Store<V>, now: nat, key: string, value: V, ttl: int): (r: Store<V>)
    ensures r.Keys == s.Keys + {key}
    ensures forall t: nat :: (ttl == 0 || t < now + ttl) ==> Lookup(r, t, key) == Some(value)
    ensures forall t: nat :: ttl != 0 && now + ttl <= t ==> Lookup(r, t, key) == None
    ensures ttl < 0 ==> key in r && Lookup(r, now, key) == None
    ensures forall k, t: nat :: k != key ==> Lookup(r, t, k) == Lookup(s, t, k)
  {
    s[key := Entry(value, ExpiryAfter(now, ttl))]
  }

  /**
   * The store after `clearCacheByPrefix(prefix)`: no key starting with the
   * prefix is left, and every other key keeps its value and expiry.
   */
  function Evicted<V>(s: Store<V>, prefix: string): (r: Store<V>)
    ensures forall k :: k in r ==> k in s && !StartsWith(k, prefix)
    ensures forall k :: k in s && !StartsWith(k, prefix) ==> k in r && r[k] == s[k]
  {
    map k | k in s && !StartsWith(k, prefix) :: s[k]
  }

  /**
   * The loop body of `keys.filter(key => key.startsWith(prefix))`: the keys
   * that start with the prefix, in their order.
   */
  function WithPrefix(keys: seq<string>, prefix: string): (r: seq<string>)
    ensures forall k :: k in r <==> k in keys && StartsWith(k, prefix)
    ensures forall k :: multiset(r)[k] == if StartsWith(k, prefix) then multiset(keys)[k] else 0
    ensures |r| <= |keys|
  {
    if keys == [] then []
    else
      assert keys == [keys[0]] + keys[1..];
      (if StartsWith(keys[0], prefix) then [keys[0]] else []) + WithPrefix(keys[1..], prefix)
  }

  /** A key that was never set reads as absent, at any time. */
  lemma NeverSetIsAbsent<V>(s: Store<V>, now: nat, key: string)
    requires key !in s
    ensures Lookup(s, now, key) == None
  {
  }

  /** Once an entry has expired it stays absent as the clock moves on. */
  lemma ExpiredStaysAbsent<V>(s: Store<V>, t: nat, t': nat, key: string)
    requires key in s && t <= t' && Lookup(s, t, key) == None
    ensures Lookup(s, t', key) == None
  {
  }

  /** Last write wins: a second `set` on the same key replaces the first entirely. */
  lemma LastWriteWins<V>(s: Store<V>, now: nat, now': nat, key: string, v: V, v': V, ttl: int, ttl': int)
    ensures Stored(Stored(s, now, key, v, ttl), now', key, v', ttl') == Stored(s, now', key, v', ttl')
  {
  }

  /** Deleting a key makes it absent and leaves every other key as it was. */
  lemma DeleteOnlyThatKey<V>(s: Store<V>, key: string, t: nat)
    ensures Lookup(s - {key}, t, key) == None
    ensures forall k :: k != key ==> Lookup(s - {key}, t, k) == Lookup(s, t, k)
    ensures key !in s ==> s - {key} == s
  {
  }

  /** After prefix eviction a read answers absent exactly for the keys with the prefix. */
  lemma EvictedLookup<V>(s: Store<V>, prefix: string, t: nat, key: string)
    ensures Lookup(Evicted(s, prefix), t, key) == if StartsWith(key, prefix) then None else Lookup(s, t, key)
  {
  }

  /** Prefix eviction is idempotent. */
  lemma EvictedIdempotent<V>(s: Store<V>, prefix: string)
    ensures Evicted(Evicted(s, prefix), prefix) == Evicted(s, prefix)
  {
  }

  /** When no key matches, prefix eviction leaves the store unchanged. */
  lemma EvictedNoMatch<V>(s: Store<V>, prefix: string)
    requires forall k :: k in s ==> !StartsWith(k, prefix)
    ensures Evicted(s, prefix) == s
  {
  }

  /** The empty prefix evicts every key. */
  lemma EvictedEmptyPrefix<V>(s: Store<V>)
    ensures Evicted(s, []) == map[]
  {
    forall k | k in s ensures StartsWith(k, []) {
      StartsWithEmpty(k);
    }
  }

  /**
   * Prefixes are compared as strings, not as key segments: evicting
   * "posts_user_4" also evicts the keys of user 42 (over-eviction), while
   * "posts_user_42" does not touch the keys of user 99.
   */
  lemma PrefixEvictionExample<V>(s: Store<V>)
    ensures "posts_user_42_p1_l10" !in Evicted(s, "posts_user_42")
    ensures "posts_user_42_p1_l10" !in Evicted(s, "posts_user_4")
    ensures "posts_user_99_p1_l10" in s ==> "posts_user_99_p1_l10" in Evicted(s, "posts_user_42")
  {
    assert "posts_user_42_p1_l10"[..13] == "posts_user_42";
    assert "posts_user_42_p1_l10"[..12] == "posts_user_4";
    assert "posts_user_99_p1_l10"[11] != "posts_user_42"[11];
  }

  /** The process-wide cache instance, with the clock it reads expiry against. */
  class ResponseCache<V> {
    var entries: Store<V>
    var now: nat

    /** `new NodeCache({ stdTTL: 300, ... })`, started at time `start`. */
    constructor (start: nat)
      ensures entries == map[] && now == start
    {
      entries := map[];
      now := start;
    }

    /** Time passes. */
    method Tick(seconds: nat)
      modifies this`now
      ensures now == old(now) + seconds
    {
      now := now + seconds;
    }

    /** `getCache(key)`: the live value under `key`, or absent; an expired entry found is deleted. */
    method Get(key: string) returns (r: Option<V>)
      modifies this`entries
      ensures r.Some? <==> key in old(entries) && Live(old(entries)[key], now)
      ensures r.Some? ==> r.value == old(entries)[key].value
      ensures r == Lookup(old(entries), now, key)
      ensures entries == Pruned(old(entries), now, key)
    {
      if key in entries {
        var e := entries[key];
        if Live(e, now) {
          return Some(e.value);
        }
        entries := entries - {key};
      }
      return None;
    }

    /** `setCache(key, value, ttl = 300)`; `ttl == None` is the omitted argument. */
    method Set(key: string, value: V, ttl: Option<int>)
      modifies this`entries
      ensures entries == Stored(old(entries), now, key, value, EffectiveTtl(ttl))
    {
      var seconds := EffectiveTtl(ttl);
      entries := entries[key := Entry(value, ExpiryAfter(now, seconds))];
    }

    /** `delCache(key)`: removes the key if present and answers how many entries went. */
    method Del(key: string) returns (count: nat)
      modifies this`entries
      ensures entries == old(entries) - {key}
      ensures count == if key in old(entries) then 1 else 0
    {
      count := if key in entries then 1 else 0;
      entries := entries - {key};
    }

    /** `cache.keys()`: every held key once, in some order. */
    method Keys() returns (ks: seq<string>)
      ensures forall k :: k in ks <==> k in entries
      ensures forall i, j :: 0 <= i < j < |ks| ==> ks[i] != ks[j]
    {
      ks := [];
      var rest := entries.Keys;
      while rest != {}
        invariant rest <= entries.Keys
        invariant forall k :: k in ks <==> k in entries && k !in rest
        invariant forall i, j :: 0 <= i < j < |ks| ==> ks[i] != ks[j]
        decreases rest
      {
        var k :| k in rest;
        ks := ks + [k];
        rest := rest - {k};
      }
    }

    /** `cache.del(keys)` on a list of keys. */
    method DelAll(keys: seq<string>)
      modifies this`entries
      ensures entries == old(entries) - set k | k in keys
    {
      var i := 0;
      while i < |keys|
        invariant 0 <= i <= |keys|
        invariant forall k :: k in entries <==> k in old(entries) && k !in keys[..i]
        invariant forall k :: k in entries ==> entries[k] == old(entries)[k]
      {
        assert keys[..i + 1] == keys[..i] + [keys[i]];
        entries := entries - {keys[i]};
        i := i + 1;
      }
      assert keys[..i] == keys;
    }

    /** `clearCacheByPrefix(prefix)`: every key starting with `prefix` goes, nothing else changes. */
    method ClearByPrefix(prefix: string)
      modifies this`entries
      ensures entries == Evicted(old(entries), prefix)
    {
      var keys := Keys();
      var doomed := WithPrefix(keys, prefix);
      if |doomed| > 0 {
        DelAll(doomed);
      }
      assert entries.Keys == Evicted(old(entries), prefix).Keys;
    }

    /** `flushCache()`: every read answers absent afterwards. */
    method Flush()
      modifies this`entries
      ensures entries == map[]
      ensures forall k :: Lookup(entries, now, k) == None
    {
      entries := map[];
    }
  }

  /**
   * Scenario: a 60-second entry answers until its deadline and not 61
   * seconds later; the read that finds it expired deletes it, so a later
   * `del` removes nothing.
   */
  method ExpiryScenario() {
    var c := new ResponseCache<seq<int>>(1000);
    c.Set("posts_all_p1_l10", [1, 2, 3], Some(60));
    var hit := c.Get("posts_all_p1_l10");
    assert hit == Some([1, 2, 3]);
    c.Tick(61);
    var miss := c.Get("posts_all_p1_l10");
    assert miss == None;
    var count := c.Del("posts_all_p1_l10");
    assert count == 0;
  }

  /**
   * Scenario: a negative time-to-live stores an entry that is already
   * expired; `del` still counts it, and no read answers it.
   */
  method NegativeTtlScenario() {
    var c := new ResponseCache<int>(100);
    c.Set("posts_all_p1_l10", 1, Some(-5));
    var count := c.Del("posts_all_p1_l10");
    assert count == 1;
    c.Set("posts_all_p1_l10", 1, Some(-5));
    var miss := c.Get("posts_all_p1_l10");
    assert miss == None;
  }

  /** Scenario: evicting one user's feed keeps another user's feed. */
  method PrefixScenario() {
    var c := new ResponseCache<int>(0);
    c.Set("posts_user_42_p1_l10", 42, None);
    c.Set("posts_user_99_p1_l10", 99, None);
    var before := c.entries;
    c.ClearByPrefix("posts_user_42");
    PrefixEvictionExample(before);
    var gone := c.Get("posts_user_42_p1_l10");
    var kept := c.Get("posts_user_99_p1_l10");
    assert gone == None;
    assert kept == Some(99);
  }
}
