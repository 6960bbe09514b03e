/**
 * The prefix namespace: how the configured prefix is normalised, how logical
 * keys become store keys and back, and what the scoped queries and bulk
 * removals of the service compute over the store's entries.
 */
module Scope {
  import opened Wrappers
  import opened HostStorage

  /** The prefix used when none is configured; no period is added to it. */
  const DEFAULT_PREFIX := "ls"

  const PERIOD := '.'

  predicate EndsWithPeriod(s: string)
  {
    s != [] && s[|s| - 1] == PERIOD
  }

  predicate StartsWith(s: string, p: string)
  {
    |p| <= |s| && s[..|p|] == p
  }

  /** `setPrefix`: a non-empty prefix gets a trailing period unless it has one. */
  function NormalizePrefix(p: string): (r: string)
    ensures p != [] ==> EndsWithPeriod(r)
    ensures p == [] || EndsWithPeriod(p) ==> r == p
    ensures StartsWith(r, p) && |r| <= |p| + 1
  {
    if p != [] && !EndsWithPeriod(p) then p + [PERIOD] else p
  }

  /** Normalising twice is normalising once. */
  lemma NormalizeIdempotent(p: string)
    ensures NormalizePrefix(NormalizePrefix(p)) == NormalizePrefix(p)
  {
  }

  /** The prefix the constructor settles on for an optional configured prefix. */
  function ConfiguredPrefix(prefix: Option<string>): (r: string)
    ensures prefix.None? ==> r == DEFAULT_PREFIX && !EndsWithPeriod(r)
    ensures prefix.Some? ==> r == NormalizePrefix(prefix.value)
  {
    match prefix
    case None => DEFAULT_PREFIX
    case Some(p) => NormalizePrefix(p)
  }

  /** `deriveKey`: the store key of a logical key. */
  function DeriveKey(prefix: string, key: string): (r: string)
    ensures StartsWith(r, prefix) && r[|prefix|..] == key
  {
    prefix + key
  }

  /** `key.substr(prefixLength)`: the logical key of a store key under the prefix. */
  function Strip(prefix: string, key: string): (r: string)
    requires StartsWith(key, prefix)
    ensures DeriveKey(prefix, r) == key
  {
    assert key == key[..|prefix|] + key[|prefix|..];
    key[|prefix|..]
  }

  /** Different logical keys have different store keys. */
  lemma DeriveKeyInjective(prefix: string, a: string, b: string)
    requires DeriveKey(prefix, a) == DeriveKey(prefix, b)
    ensures a == b
  {
    assert a == DeriveKey(prefix, a)[|prefix|..];
  }

  /** What `keys()` collects: every key under the prefix, stripped, in order. */
  function ScopedKeys(keys: seq<string>, prefix: string): seq<string>
    decreases |keys|
  {
    if keys == [] then []
    else
      var rest := ScopedKeys(keys[..|keys| - 1], prefix);
      var k := keys[|keys| - 1];
      if StartsWith(k, prefix) then rest + [Strip(prefix, k)] else rest
  }

  /** What `length()` counts: the keys under the prefix. */
  function CountScoped(keys: seq<string>, prefix: string): nat
    decreases |keys|
  {
    if keys == [] then 0
    else CountScoped(keys[..|keys| - 1], prefix) + if StartsWith(keys[|keys| - 1], prefix) then 1 else 0
  }

  /** `keys()` returns as many keys as `length()` counts. */
  lemma {:induction false} ScopedKeysCount(keys: seq<string>, prefix: string)
    ensures |ScopedKeys(keys, prefix)| == CountScoped(keys, prefix)
    decreases |keys|
  {
    if keys != [] {
      ScopedKeysCount(keys[..|keys| - 1], prefix);
    }
  }

  /** `keys()` returns exactly the logical keys whose store key is present. */
  lemma {:induction false} ScopedKeysMembership(keys: seq<string>, prefix: string, x: string)
    ensures x in ScopedKeys(keys, prefix) <==> DeriveKey(prefix, x) in keys
    decreases |keys|
  {
    if keys != [] {
      var init := keys[..|keys| - 1];
      var k := keys[|keys| - 1];
      ScopedKeysMembership(init, prefix, x);
      assert keys == init + [k];
      if StartsWith(k, prefix) && x == Strip(prefix, k) {
        assert DeriveKey(prefix, x) == k;
      }
    }
  }

  /** A `setItem` of a new key under the prefix adds one to the count; of a present key, none. */
  lemma PutCount(e: Entries, prefix: string, key: string, v: string)
    ensures CountScoped(KeysOf(Put(e, DeriveKey(prefix, key), v)), prefix)
         == CountScoped(KeysOf(e), prefix) + if DeriveKey(prefix, key) in KeysOf(e) then 0 else 1
  {
    var k := DeriveKey(prefix, key);
    PutKeys(e, k, v);
    if k !in KeysOf(e) {
      assert (KeysOf(e) + [k])[..|KeysOf(e)|] == KeysOf(e);
    }
  }

  /** What a `remove(...keys)` leaves: every `prefix + k` removed, one after another. */
  function RemoveAll(e: Entries, prefix: string, keys: seq<string>): Entries
    decreases |keys|
  {
    if keys == [] then e
    else Without(RemoveAll(e, prefix, keys[..|keys| - 1]), DeriveKey(prefix, keys[|keys| - 1]))
  }

  /** One step of the `remove` loop deletes the derived key of `keys[i]`. */
  lemma RemoveAllStep(e: Entries, mid: Entries, after: Entries, prefix: string, keys: seq<string>, i: nat)
    requires i < |keys|
    requires mid == RemoveAll(e, prefix, keys[..i])
    requires after == Without(mid, DeriveKey(prefix, keys[i]))
    ensures after == RemoveAll(e, prefix, keys[..i + 1])
  {
    assert keys[..i + 1][..i] == keys[..i];
  }

  /** After `remove(...keys)` no removed key is present and every other entry reads as before. */
  lemma {:induction false} RemoveAllLookup(e: Entries, prefix: string, keys: seq<string>, x: string)
    ensures Lookup(RemoveAll(e, prefix, keys), x)
         == if StartsWith(x, prefix) && Strip(prefix, x) in keys then None else Lookup(e, x)
    decreases |keys|
  {
    if keys != [] {
      var init := keys[..|keys| - 1];
      var k := keys[|keys| - 1];
      RemoveAllLookup(e, prefix, init, x);
      WithoutLookup(RemoveAll(e, prefix, init), DeriveKey(prefix, k), x);
      assert keys == init + [k];
      if StartsWith(x, prefix) && Strip(prefix, x) == k {
        assert x == DeriveKey(prefix, k);
      }
    }
  }

  lemma {:induction false} RemoveAllDistinct(e: Entries, prefix: string, keys: seq<string>)
    requires DistinctKeys(e)
    ensures DistinctKeys(RemoveAll(e, prefix, keys))
    decreases |keys|
  {
    if keys != [] {
      RemoveAllDistinct(e, prefix, keys[..|keys| - 1]);
      WithoutDistinct(RemoveAll(e, prefix, keys[..|keys| - 1]), DeriveKey(prefix, keys[|keys| - 1]));
    }
  }

  /** After `remove(...keys)`, `keys()` lists exactly the keys it listed before that were not removed. */
  lemma RemoveAllScopedKeys(e: Entries, prefix: string, keys: seq<string>, x: string)
    ensures x in ScopedKeys(KeysOf(RemoveAll(e, prefix, keys)), prefix)
        <==> x in ScopedKeys(KeysOf(e), prefix) && x !in keys
  {
    ScopedKeysMembership(KeysOf(RemoveAll(e, prefix, keys)), prefix, x);
    ScopedKeysMembership(KeysOf(e), prefix, x);
    RemoveAllLookup(e, prefix, keys, DeriveKey(prefix, x));
    assert Strip(prefix, DeriveKey(prefix, x)) == x;
  }

  /** Removing every key `keys()` lists leaves `keys()` empty. */
  lemma RemoveAllEmptiesScope(e: Entries, prefix: string)
    ensures ScopedKeys(KeysOf(RemoveAll(e, prefix, ScopedKeys(KeysOf(e), prefix))), prefix) == []
  {
    var listed := ScopedKeys(KeysOf(e), prefix);
    var after := ScopedKeys(KeysOf(RemoveAll(e, prefix, listed)), prefix);
    if after != [] {
      RemoveAllScopedKeys(e, prefix, listed, after[0]);
      assert false;
    }
  }

  /** The test of `clearAll`: a catch-all when no pattern (or an empty one) is given. */
  function Matcher(pattern: Option<string -> bool>): string -> bool
  {
    match pattern
    case None => _ => true
    case Some(test) => test
  }

  /** A store key `clearAll` removes: under the prefix, with a suffix the test accepts. */
  predicate Cleared(key: string, prefix: string, test: string -> bool)
  {
    StartsWith(key, prefix) && test(Strip(prefix, key))
  }

  /** The entries `clearAll` leaves: those it does not remove, in their order. */
  function ClearMatching(e: Entries, prefix: string, test: string -> bool): Entries
    decreases |e|
  {
    if e == [] then []
    else
      var rest := ClearMatching(e[..|e| - 1], prefix, test);
      var last := e[|e| - 1];
      if Cleared(last.0, prefix, test) then rest else rest + [last]
  }

  /** The logical keys `clearAll` passes to `remove`, in enumeration order. */
  function ClearedSuffixes(keys: seq<string>, prefix: string, test: string -> bool): seq<string>
    decreases |keys|
  {
    if keys == [] then []
    else
      var rest := ClearedSuffixes(keys[..|keys| - 1], prefix, test);
      var k := keys[|keys| - 1];
      if Cleared(k, prefix, test) then rest + [Strip(prefix, k)] else rest
  }

  /** One step of enumerating `keys` for `clearAll`: key `i` is passed on when it is cleared. */
  lemma ClearedSuffixesStep(keys: seq<string>, i: nat, prefix: string, test: string -> bool)
    requires i < |keys|
    ensures ClearedSuffixes(keys[..i + 1], prefix, test)
         == if Cleared(keys[i], prefix, test)
            then ClearedSuffixes(keys[..i], prefix, test) + [Strip(prefix, keys[i])]
            else ClearedSuffixes(keys[..i], prefix, test)
  {
    assert keys[..i + 1][..i] == keys[..i];
  }

  lemma {:induction false} LookupSnoc(a: Entries, y: (string, string), x: string)
    ensures Lookup(a + [y], x) == if x in KeysOf(a) then Lookup(a, x) else if y.0 == x then Some(y.1) else None
    decreases |a|
  {
    if a == [] {
      assert [] + [y] == [y];
    } else {
      assert (a + [y])[0] == a[0] && (a + [y])[1..] == a[1..] + [y];
      LookupSnoc(a[1..], y, x);
    }
  }

  /**
   * After `clearAll` every removed key is absent and every other entry reads
   * as before: unprefixed keys and prefixed keys the test rejects survive.
   */
  lemma {:induction false} ClearMatchingLookup(e: Entries, prefix: string, test: string -> bool, x: string)
    ensures Lookup(ClearMatching(e, prefix, test), x) == if Cleared(x, prefix, test) then None else Lookup(e, x)
    decreases |e|
  {
    if e != [] {
      var init := e[..|e| - 1];
      var last := e[|e| - 1];
      assert e == init + [last];
      ClearMatchingLookup(init, prefix, test, x);
      LookupSnoc(init, last, x);
      if !Cleared(last.0, prefix, test) {
        LookupSnoc(ClearMatching(init, prefix, test), last, x);
      }
    }
  }

  lemma {:induction false} ClearMatchingKeys(e: Entries, prefix: string, test: string -> bool)
    ensures forall k :: k in KeysOf(ClearMatching(e, prefix, test)) ==> k in KeysOf(e)
    decreases |e|
  {
    if e != [] {
      var init := e[..|e| - 1];
      ClearMatchingKeys(init, prefix, test);
      assert e == init + [e[|e| - 1]];
      forall k | k in KeysOf(ClearMatching(e, prefix, test)) ensures k in KeysOf(e) {
        var i :| 0 <= i < |ClearMatching(e, prefix, test)| && KeysOf(ClearMatching(e, prefix, test))[i] == k;
        if Cleared(e[|e| - 1].0, prefix, test) || i < |ClearMatching(init, prefix, test)| {
          assert k in KeysOf(ClearMatching(init, prefix, test));
          var j :| 0 <= j < |init| && KeysOf(init)[j] == k;
          assert KeysOf(e)[j] == k;
        } else {
          assert KeysOf(e)[|e| - 1] == k;
        }
      }
    }
  }

  // One step of the `clearAll` loop over a snapshot `e` of the entries: with
  // the first `i` entries handled, the store holds the kept ones among them
  // followed by the untouched rest `e[i..]`.

  /** A key of the snapshot is not among the entries kept from before it. */
  lemma ClearMatchingAvoids(e: Entries, i: nat, prefix: string, test: string -> bool)
    requires DistinctKeys(e) && i < |e|
    ensures e[i].0 !in KeysOf(ClearMatching(e[..i], prefix, test))
  {
    ClearMatchingKeys(e[..i], prefix, test);
    DistinctKeysBefore(e, i);
  }

  /** The entries kept among the first `i + 1`: those kept among the first `i`, then entry `i` unless cleared. */
  lemma ClearMatchingNext(e: Entries, i: nat, prefix: string, test: string -> bool)
    requires i < |e|
    ensures ClearMatching(e[..i + 1], prefix, test)
         == ClearMatching(e[..i], prefix, test) + if Cleared(e[i].0, prefix, test) then [] else [e[i]]
  {
    assert e[..i + 1][..i] == e[..i] && e[..i + 1][i] == e[i];
  }

  /** Removing a cleared entry `i` from the loop state gives the state after it. */
  lemma ClearStepRemoved(e: Entries, i: nat, prefix: string, test: string -> bool)
    requires DistinctKeys(e) && i < |e| && Cleared(e[i].0, prefix, test)
    ensures Without(ClearMatching(e[..i], prefix, test) + e[i..], e[i].0) == ClearMatching(e[..i + 1], prefix, test) + e[i + 1..]
  {
    var a := ClearMatching(e[..i], prefix, test);
    ClearMatchingNext(e, i, prefix, test);
    assert e[i..] == [e[i]] + e[i + 1..];
    ClearMatchingAvoids(e, i, prefix, test);
    DistinctKeysAfter(e, i);
    WithoutMiddle(a, e[i], e[i + 1..]);
  }

  /** A kept entry `i` already sits where the state after it has it. */
  lemma ClearStepKept(e: Entries, i: nat, prefix: string, test: string -> bool)
    requires i < |e| && !Cleared(e[i].0, prefix, test)
    ensures ClearMatching(e[..i], prefix, test) + e[i..] == ClearMatching(e[..i + 1], prefix, test) + e[i + 1..]
  {
    ClearMatchingNext(e, i, prefix, test);
    assert e[i..] == [e[i]] + e[i + 1..];
  }
}
