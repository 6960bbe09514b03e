/**
 * The host's synchronous key-value store (the browser's `Storage` object), as
 * the service uses it: an ordered list of distinct keys with string values,
 * `getItem`, `setItem`, `removeItem`, `length` and `key(i)`. New keys go to
 * the end, so enumeration order is insertion order.
 */
module HostStorage {
  import opened Wrappers

  type Entries = seq<(string, string)>

  /** The message of the exception `setItem` throws when the quota is exceeded. */
  const QUOTA_EXCEEDED := "QuotaExceededError"

  /** No key occurs twice. */
  predicate DistinctKeys(e: Entries)
    decreases |e|
  {
    e != [] ==> e[0].0 !in KeysOf(e[1..]) && DistinctKeys(e[1..])
  }

  /** The keys in enumeration order. */
  function KeysOf(e: Entries): (ks: seq<string>)
    ensures |ks| == |e| && forall i :: 0 <= i < |e| ==> ks[i] == e[i].0
  {
    if e == [] then [] else [e[0].0] + KeysOf(e[1..])
  }

  function Lookup(e: Entries, key: string): (r: Option<string>)
    ensures r.Some? <==> key in KeysOf(e)
    ensures r.Some? ==> (key, r.value) in e
  {
    if e == [] then None
    else if e[0].0 == key then Some(e[0].1)
    else Lookup(e[1..], key)
  }

  /** `setItem`: replaces the value in place when the key is present, appends otherwise. */
  function Put(e: Entries, key: string, value: string): Entries
  {
    if e == [] then [(key, value)]
    else if e[0].0 == key then [(key, value)] + e[1..]
    else [e[0]] + Put(e[1..], key, value)
  }

  /** `removeItem`: the entries without `key`. */
  function Without(e: Entries, key: string): Entries
  {
    if e == [] then []
    else if e[0].0 == key then Without(e[1..], key)
    else [e[0]] + Without(e[1..], key)
  }

  /** The space the entries take: the characters of every key and value. */
  function Size(e: Entries): nat
  {
    if e == [] then 0 else |e[0].0| + |e[0].1| + Size(e[1..])
  }

  lemma KeysOfCons(x: (string, string), e: Entries)
    ensures KeysOf([x] + e) == [x.0] + KeysOf(e)
  {
    assert ([x] + e)[1..] == e;
  }

  /** After `setItem(k, v)` the key reads `v`; every other key reads as before. */
  lemma {:induction false} PutLookup(e: Entries, k: string, v: string, x: string)
    ensures Lookup(Put(e, k, v), x) == if x == k then Some(v) else Lookup(e, x)
  {
    if e != [] && e[0].0 != k {
      assert Put(e, k, v) == [e[0]] + Put(e[1..], k, v);
      assert ([e[0]] + Put(e[1..], k, v))[1..] == Put(e[1..], k, v);
      PutLookup(e[1..], k, v, x);
    } else if e != [] {
      assert ([(k, v)] + e[1..])[1..] == e[1..];
    }
  }

  /** `setItem` keeps the order of the keys and appends a new key at the end. */
  lemma {:induction false} PutKeys(e: Entries, k: string, v: string)
    ensures KeysOf(Put(e, k, v)) == if k in KeysOf(e) then KeysOf(e) else KeysOf(e) + [k]
  {
    if e == [] {
    } else if e[0].0 == k {
      KeysOfCons((k, v), e[1..]);
      KeysOfCons(e[0], e[1..]);
      assert e == [e[0]] + e[1..];
    } else {
      PutKeys(e[1..], k, v);
      KeysOfCons(e[0], Put(e[1..], k, v));
      KeysOfCons(e[0], e[1..]);
      assert e == [e[0]] + e[1..];
      assert k in KeysOf(e) <==> k in KeysOf(e[1..]);
    }
  }

  /** Distinct keys, stated pointwise. */
  lemma {:induction false} DistinctKeysAt(e: Entries, i: nat, j: nat)
    requires DistinctKeys(e) && i < j < |e|
    ensures e[i].0 != e[j].0
    decreases i
  {
    if i == 0 {
      assert KeysOf(e[1..])[j - 1] == e[j].0;
    } else {
      DistinctKeysAt(e[1..], i - 1, j - 1);
    }
  }

  /** No entry's key occurs among the keys before it. */
  lemma DistinctKeysBefore(e: Entries, i: nat)
    requires DistinctKeys(e) && i < |e|
    ensures e[i].0 !in KeysOf(e[..i])
  {
    forall j | 0 <= j < i
      ensures KeysOf(e[..i])[j] != e[i].0
    {
      DistinctKeysAt(e, j, i);
    }
  }

  /** No entry's key occurs among the keys after it. */
  lemma {:induction false} DistinctKeysAfter(e: Entries, i: nat)
    requires DistinctKeys(e) && i < |e|
    ensures e[i].0 !in KeysOf(e[i + 1..])
    decreases i
  {
    if i > 0 {
      DistinctKeysAfter(e[1..], i - 1);
      assert e[1..][i - 1 + 1..] == e[i + 1..];
    }
  }

  lemma {:induction false} PutDistinct(e: Entries, k: string, v: string)
    requires DistinctKeys(e)
    ensures DistinctKeys(Put(e, k, v))
    decreases |e|
  {
    if e != [] {
      if e[0].0 == k {
        assert ([(k, v)] + e[1..])[1..] == e[1..];
      } else {
        PutDistinct(e[1..], k, v);
        PutKeys(e[1..], k, v);
        assert ([e[0]] + Put(e[1..], k, v))[1..] == Put(e[1..], k, v);
      }
    }
  }

  /** After `removeItem(k)` the key is absent; every other key reads as before. */
  lemma {:induction false} WithoutLookup(e: Entries, k: string, x: string)
    ensures Lookup(Without(e, k), x) == if x == k then None else Lookup(e, x)
  {
    if e != [] {
      WithoutLookup(e[1..], k, x);
      if e[0].0 != k {
        assert ([e[0]] + Without(e[1..], k))[1..] == Without(e[1..], k);
      }
    }
  }

  /** `removeItem` adds no key. */
  lemma {:induction false} WithoutKeys(e: Entries, k: string)
    ensures forall x :: x in KeysOf(Without(e, k)) ==> x in KeysOf(e) && x != k
    decreases |e|
  {
    if e != [] {
      WithoutKeys(e[1..], k);
      KeysOfCons(e[0], e[1..]);
      assert e == [e[0]] + e[1..];
      if e[0].0 != k {
        KeysOfCons(e[0], Without(e[1..], k));
      }
    }
  }

  lemma {:induction false} WithoutDistinct(e: Entries, k: string)
    requires DistinctKeys(e)
    ensures DistinctKeys(Without(e, k))
    decreases |e|
  {
    if e != [] {
      WithoutDistinct(e[1..], k);
      WithoutKeys(e[1..], k);
      if e[0].0 != k {
        assert ([e[0]] + Without(e[1..], k))[1..] == Without(e[1..], k);
      }
    }
  }

  /** Removing a key that is absent changes nothing. */
  lemma {:induction false} WithoutAbsent(e: Entries, k: string)
    requires k !in KeysOf(e)
    ensures Without(e, k) == e
  {
    if e != [] {
      WithoutAbsent(e[1..], k);
      assert e == [e[0]] + e[1..];
    }
  }

  lemma {:induction false} WithoutConcat(a: Entries, b: Entries, k: string)
    ensures Without(a + b, k) == Without(a, k) + Without(b, k)
  {
    if a != [] {
      assert (a + b)[0] == a[0] && (a + b)[1..] == a[1..] + b;
      WithoutConcat(a[1..], b, k);
    } else {
      assert a + b == b;
    }
  }

  /** Removing the one entry with key `x.0` from the middle of the entries. */
  lemma WithoutMiddle(a: Entries, x: (string, string), b: Entries)
    requires x.0 !in KeysOf(a) && x.0 !in KeysOf(b)
    ensures Without(a + ([x] + b), x.0) == a + b
  {
    WithoutConcat(a, [x] + b, x.0);
    WithoutConcat([x], b, x.0);
    WithoutAbsent(a, x.0);
    WithoutAbsent(b, x.0);
    assert Without([x], x.0) == [];
  }

  /**
   * The browser's `Storage` object. Other code may share it; the service only
   * reaches it through these operations.
   */
  class Storage {
    var entries: Entries
    /** How much the store may hold, in characters of keys and values. */
    const quota: nat

    ghost predicate Valid()
      reads this
    {
      DistinctKeys(entries)
    }

    constructor (quota: nat)
      ensures Valid() && entries == [] && this.quota == quota
    {
      entries := [];
      this.quota := quota;
    }

    /** `storage.length` */
    function Length(): nat
      reads this
    {
      |entries|
    }

    /** `storage.key(i)` */
    function Key(i: nat): string
      requires i < |entries|
      reads this
    {
      entries[i].0
    }

    /** `storage.getItem(key)`: `None` stands for `null`. */
    function GetItem(key: string): Option<string>
      reads this
    {
      Lookup(entries, key)
    }

    /** `storage.setItem(key, value)`: throws when the result would not fit the quota. */
    method SetItem(key: string, value: string) returns (thrown: Option<string>)
      requires Valid()
      modifies this
      ensures Valid()
      ensures thrown == if Size(Put(old(entries), key, value)) <= quota then None else Some(QUOTA_EXCEEDED)
      ensures entries == if thrown == None then Put(old(entries), key, value) else old(entries)
    {
      var next := Put(entries, key, value);
      if Size(next) <= quota {
        PutDistinct(entries, key, value);
        entries := next;
        thrown := None;
      } else {
        thrown := Some(QUOTA_EXCEEDED);
      }
    }

    /** `storage.removeItem(key)` */
    method RemoveItem(key: string)
      requires Valid()
      modifies this
      ensures Valid()
      ensures entries == Without(old(entries), key)
    {
      WithoutDistinct(entries, key);
      entries := Without(entries, key);
    }
  }
}
