/**
 * The library version of `PersistenceService`: a prefix-namespaced façade over
 * the host store, with nested-path `get` and `set`. The observables are
 * modelled as append-only logs (`warnings`, `errors`, `setEvents`,
 * `removeEvents`).
 */
module Persistence {
  import opened Wrappers
  import opened Json
  import opened JsonPath
  import opened HostStorage
  import opened PersistenceTypes
  import opened Scope

  /**
   * The event `set` emits: its key is the first path segment (`undefined`
   * when there is no path), its value the top-level value written.
   */
  datatype SetEvent = SetEvent(key: Option<string>, value: Json, storageType: StorageType)

  function FirstSegment(path: seq<string>): Option<string>
  {
    if path == [] then None else Some(path[0])
  }

  /** What `get(key, ...path)` returns, given the raw entry, once the store is known to work. */
  function GetResult(c: Codec, item: Option<string>, path: seq<string>): JsValue
  {
    var parsed := ParseItem(c, item);
    if path == [] then Defined(parsed)
    else if Falsy(parsed) then Defined(JNull)
    else match Walk(Defined(parsed), path)
      case None => Defined(JNull)
      case Some(v) => v
  }

  /** `this.get(key) || {}`: the tree a nested `set` starts from. */
  function CacheOf(stored: JsValue): Json
  {
    match stored
    case Undefined => JObj(map[])
    case Defined(j) => if Falsy(j) then JObj(map[]) else j
  }

  /**
   * The top-level value `set(v, key, ...path)` writes under `key`, given the
   * raw entry already there: `v` itself without a path, the rebuilt tree
   * with one; `None` when building the tree throws.
   */
  function Written(c: Codec, item: Option<string>, path: seq<string>, v: Json): Option<Json>
  {
    if path == [] then Some(v) else Assign(CacheOf(GetResult(c, item, [])), path, v)
  }

  /**
   * The round-trip law: whatever `set` writes, `get` with the same key and
   * path reads back the value set, with or without a path.
   */
  lemma SetThenGet(c: Codec, e: Entries, dk: string, item: Option<string>, path: seq<string>, v: Json)
    requires Written(c, item, path, v).Some? && RoundTrips(c, Written(c, item, path, v).value)
    ensures GetResult(c, Lookup(Put(e, dk, c.stringify(Written(c, item, path, v).value)), dk), path) == Defined(v)
  {
    var w := Written(c, item, path, v).value;
    PutLookup(e, dk, c.stringify(w), dk);
    ParseItemOfEncoding(c, w);
    if path != [] {
      AssignThenWalk(CacheOf(GetResult(c, item, [])), path, v);
    }
  }

  /**
   * A nested `set` under a key that holds nothing (or a falsy value) always
   * succeeds in building its tree: the missing intermediate objects are created.
   */
  lemma SetIntoFreshKey(c: Codec, item: Option<string>, path: seq<string>, v: Json)
    requires Falsy(ParseItem(c, item))
    ensures Written(c, item, path, v).Some?
  {
    if path != [] {
      AssignIntoEmpty(path, v);
    }
  }

  /**
   * A nested `set` changes only the subtree at its path: `get` along any path
   * that branches off it returns what it returned before.
   */
  lemma SetKeepsSiblings(c: Codec, item: Option<string>, path: seq<string>, v: Json, q: seq<string>, i: nat)
    requires path != [] && Written(c, item, path, v).Some?
    requires RoundTrips(c, Written(c, item, path, v).value)
    requires !Falsy(ParseItem(c, item)) && Walk(Defined(ParseItem(c, item)), q).Some?
    requires DivergeAt(path, q, i)
    ensures GetResult(c, Some(c.stringify(Written(c, item, path, v).value)), q) == GetResult(c, item, q)
  {
    var t := ParseItem(c, item);
    ParseItemOfEncoding(c, Written(c, item, path, v).value);
    AssignFrame(t, path, v, q, i);
  }

  /**
   * One step of the `clearAll` loop keeps the event log equal to the events of
   * the keys cleared so far: at most one event is added, for `keys[i]`.
   */
  lemma ClearEventsStep(before: seq<RemoveEvent>, mid: seq<RemoveEvent>, after: seq<RemoveEvent>,
                        keys: seq<string>, i: nat, prefix: string, test: string -> bool,
                        t: StorageType, notify: bool)
    requires i < |keys|
    requires mid == before + if notify then RemoveEvents(ClearedSuffixes(keys[..i], prefix, test), t) else []
    requires after == mid + if Cleared(keys[i], prefix, test) && notify then [RemoveEvent(Strip(prefix, keys[i]), t)] else []
    ensures after == before + if notify then RemoveEvents(ClearedSuffixes(keys[..i + 1], prefix, test), t) else []
  {
    ClearedSuffixesStep(keys, i, prefix, test);
    if Cleared(keys[i], prefix, test) {
      RemoveEventsSnoc(ClearedSuffixes(keys[..i], prefix, test), Strip(prefix, keys[i]), t);
    }
  }

  lemma RemoveOne(e: Entries, prefix: string, key: string)
    ensures RemoveAll(e, prefix, [key]) == Without(e, DeriveKey(prefix, key))
  {
    assert [key][..0] == [];
  }

  class PersistenceService {
    const prefix: string
    /** Whether the support probe succeeded; `store` is the store it found, if any. */
    const supported: bool
    const notifySet: bool
    const notifyRemove: bool
    const storageType: StorageType
    const store: Storage?
    /** The host's JSON object. */
    const codec: Codec

    var warnings: seq<string>
    var errors: seq<string>
    var setEvents: seq<SetEvent>
    var removeEvents: seq<RemoveEvent>

    ghost predicate Valid()
      reads this, store
    {
      && (supported ==> store != null)
      && (store != null ==> store.Valid())
    }

    /**
     * Applies the configuration. `host` is the store the support probe found
     * (`null` when the global is missing) and `supported` its verdict.
     */
    constructor (config: Config, host: Storage?, supported: bool, codec: Codec)
      requires supported ==> host != null
      requires host != null ==> host.Valid()
      ensures Valid()
      ensures prefix == ConfiguredPrefix(config.prefix)
      ensures notifySet == NotifySetOf(config) && notifyRemove == NotifyRemoveOf(config)
      ensures storageType == StorageTypeOf(config)
      ensures store == host && this.supported == supported && this.codec == codec
      ensures warnings == [] && errors == [] && setEvents == [] && removeEvents == []
    {
      notifySet := NotifySetOf(config);
      notifyRemove := NotifyRemoveOf(config);
      prefix := if config.prefix.Some? then NormalizePrefix(config.prefix.value) else DEFAULT_PREFIX;
      storageType := StorageTypeOf(config);
      store := host;
      this.supported := supported;
      this.codec := codec;
      warnings, errors, setEvents, removeEvents := [], [], [], [];
    }

    /** `get(key, ...path)`: `null` without a working store, one warning logged. */
    method Get(key: string, path: seq<string>) returns (r: JsValue)
      requires Valid()
      modifies this`warnings
      ensures !supported ==> r == Defined(JNull) && warnings == old(warnings) + [NOT_SUPPORTED]
      ensures supported ==>
        r == GetResult(codec, store.GetItem(DeriveKey(prefix, key)), path) && warnings == old(warnings)
    {
      if !supported {
        warnings := warnings + [NOT_SUPPORTED];
        return Defined(JNull);
      }
      var item := store.GetItem(DeriveKey(prefix, key));
      if item == None || item == Some("") || item == Some("null") {
        return Defined(JNull);
      }
      var parsed := codec.parse(item.value);
      if parsed == None {
        // JSON.parse threw; the exception is swallowed.
        return Defined(JNull);
      }
      if path == [] {
        return Defined(parsed.value);
      }
      if Falsy(parsed.value) {
        return Defined(JNull);
      }
      var cur := Defined(parsed.value);
      var i := 0;
      while i < |path|
        invariant 0 <= i <= |path|
        invariant Walk(Defined(parsed.value), path) == Walk(cur, path[i..])
      {
        if cur == Undefined || cur == Defined(JNull) {
          // Reading a property of undefined or null throws; the exception is swallowed.
          return Defined(JNull);
        }
        assert path[i..][0] == path[i] && path[i..][1..] == path[i + 1..];
        cur := Member(cur.json, path[i]);
        i := i + 1;
      }
      r := cur;
    }

    /**
     * `set(value, key, ...path)`: `undefined` is stored as `null`; with a path,
     * the tree under `key` is rebuilt and written back whole. A TypeError
     * while building or an exception from `setItem` is logged and gives false.
     */
    method Set(value: JsValue, key: string, path: seq<string>) returns (ok: bool)
      requires Valid()
      modifies this`warnings, this`errors, this`setEvents, store
      ensures Valid()
      ensures !supported ==>
        && !ok && warnings == old(warnings) + [NOT_SUPPORTED]
        && errors == old(errors) && setEvents == old(setEvents)
        && (store != null ==> store.entries == old(store.entries))
      ensures supported ==>
        var dk := DeriveKey(prefix, key);
        var w := Written(codec, old(store.GetItem(dk)), path, Normalize(value));
        && warnings == old(warnings)
        && (w == None ==>
              && !ok && errors == old(errors) + [TYPE_ERROR]
              && store.entries == old(store.entries) && setEvents == old(setEvents))
        && (w != None && Size(Put(old(store.entries), dk, codec.stringify(w.value))) > store.quota ==>
              && !ok && errors == old(errors) + [QUOTA_EXCEEDED]
              && store.entries == old(store.entries) && setEvents == old(setEvents))
        && (w != None && Size(Put(old(store.entries), dk, codec.stringify(w.value))) <= store.quota ==>
              && ok && errors == old(errors)
              && store.entries == Put(old(store.entries), dk, codec.stringify(w.value))
              && setEvents == old(setEvents) + if notifySet then [SetEvent(FirstSegment(path), w.value, storageType)] else [])
    {
      var v := Normalize(value);
      if !supported {
        warnings := warnings + [NOT_SUPPORTED];
        return false;
      }
      var written := v;
      if path != [] {
        var stored := Get(key, []);
        var built := BuildPath(CacheOf(stored), path, v);
        if built == None {
          errors := errors + [TYPE_ERROR];
          return false;
        }
        written := built.value;
      }
      var thrown := store.SetItem(DeriveKey(prefix, key), codec.stringify(written));
      if thrown.Some? {
        errors := errors + [thrown.value];
        return false;
      }
      if notifySet {
        setEvents := setEvents + [SetEvent(FirstSegment(path), written, storageType)];
      }
      ok := true;
    }

    /** `getStorageType()` */
    function GetStorageType(): (r: string)
      ensures r == "localStorage" <==> storageType == LocalStorage
      ensures r == "sessionStorage" <==> storageType == SessionStorage
    {
      StorageTypeName(storageType)
    }

    /** `keys()`: the logical keys under the prefix, in store order. */
    method Keys() returns (r: seq<string>)
      requires Valid()
      modifies this`warnings
      ensures !supported ==> r == [] && warnings == old(warnings) + [NOT_SUPPORTED]
      ensures supported ==> r == ScopedKeys(KeysOf(store.entries), prefix) && warnings == old(warnings)
    {
      if !supported {
        warnings := warnings + [NOT_SUPPORTED];
        return [];
      }
      var prefixLength := |prefix|;
      var snapshot := KeysOf(store.entries);
      r := [];
      var i := 0;
      while i < |snapshot|
        invariant 0 <= i <= |snapshot|
        invariant r == ScopedKeys(snapshot[..i], prefix)
      {
        var key := snapshot[i];
        // key.substr(0, prefixLength), which stops at the end of a shorter key
        var head := if |key| < prefixLength then key else key[..prefixLength];
        assert snapshot[..i + 1][..i] == snapshot[..i];
        if head == prefix {
          r := r + [Strip(prefix, key)];
        }
        i := i + 1;
      }
      assert snapshot[..i] == snapshot;
    }

    /**
     * `length()`: counts the keys under the prefix, with no support check. When
     * there is no store at all, reading its length throws out of the call.
     */
    method Length() returns (r: Outcome<nat>)
      ensures store == null ==> r == Threw(TYPE_ERROR)
      ensures store != null ==> r == Returned(CountScoped(KeysOf(store.entries), prefix))
    {
      if store == null {
        return Threw(TYPE_ERROR);
      }
      var count := 0;
      var i := 0;
      ghost var keys := KeysOf(store.entries);
      while i < store.Length()
        invariant 0 <= i <= |store.entries|
        invariant count == CountScoped(keys[..i], prefix)
      {
        // storage.key(i).indexOf(prefix) === 0
        assert keys[..i + 1][..i] == keys[..i];
        if StartsWith(store.Key(i), prefix) {
          count := count + 1;
        }
        i := i + 1;
      }
      assert keys[..i] == keys;
      r := Returned(count);
    }

    /**
     * `remove(...keys)`: removes `prefix + k` for every key. Failure is sticky:
     * once a key fails, the result stays false. Without a working store every
     * key logs a warning; without any store the removal itself throws too.
     */
    method Remove(keys: seq<string>) returns (result: bool)
      requires Valid()
      modifies this`warnings, this`errors, this`removeEvents, store
      ensures Valid()
      ensures result == (supported || keys == [])
      ensures warnings == old(warnings) + if supported then [] else Repeat(NOT_SUPPORTED, |keys|)
      ensures errors == old(errors) + if store == null then Repeat(TYPE_ERROR, |keys|) else []
      ensures store != null ==> store.entries == RemoveAll(old(store.entries), prefix, keys)
      ensures removeEvents == old(removeEvents)
                              + if store != null && notifyRemove then RemoveEvents(keys, storageType) else []
    {
      result := true;
      var i := 0;
      while i < |keys|
        invariant 0 <= i <= |keys|
        invariant Valid()
        invariant result == (supported || i == 0)
        invariant warnings == old(warnings) + if supported then [] else Repeat(NOT_SUPPORTED, i)
        invariant errors == old(errors) + if store == null then Repeat(TYPE_ERROR, i) else []
        invariant store != null ==> store.entries == RemoveAll(old(store.entries), prefix, keys[..i])
        invariant removeEvents == old(removeEvents)
                                  + if store != null && notifyRemove then RemoveEvents(keys[..i], storageType) else []
      {
        var key := keys[i];
        ghost var (w, x, ev) := (warnings, errors, removeEvents);
        if !supported {
          warnings := warnings + [NOT_SUPPORTED];
          result := false;
        }
        RepeatStep(old(warnings), w, warnings, NOT_SUPPORTED, i, supported);
        if store == null {
          // this.webStorage.removeItem on undefined throws; the exception is logged.
          errors := errors + [TYPE_ERROR];
          result := false;
          RepeatStep(old(errors), x, errors, TYPE_ERROR, i, false);
          RemoveEventsStep(old(removeEvents), ev, removeEvents, keys, i, storageType, false);
        } else {
          ghost var entries := store.entries;
          store.RemoveItem(DeriveKey(prefix, key));
          if notifyRemove {
            removeEvents := removeEvents + [RemoveEvent(key, storageType)];
          }
          RemoveAllStep(old(store.entries), entries, store.entries, prefix, keys, i);
          RemoveEventsStep(old(removeEvents), ev, removeEvents, keys, i, storageType, notifyRemove);
        }
        i := i + 1;
      }
      assert keys[..i] == keys;
    }

    /**
     * The body of the `clearAll` loop for one enumerated key: when the key is
     * under the prefix and its suffix passes the test, `remove(suffix)`.
     */
    method ClearKey(key: string, test: string -> bool)
      requires Valid() && supported
      modifies this`warnings, this`errors, this`removeEvents, store
      ensures Valid()
      ensures warnings == old(warnings) && errors == old(errors)
      ensures store.entries == if Cleared(key, prefix, test) then Without(old(store.entries), key) else old(store.entries)
      ensures removeEvents == old(removeEvents)
        + if Cleared(key, prefix, test) && notifyRemove then [RemoveEvent(Strip(prefix, key), storageType)] else []
    {
      // The key must start with the prefix and its suffix must pass the pattern.
      if StartsWith(key, prefix) && test(Strip(prefix, key)) {
        var suffix := Strip(prefix, key);
        RemoveOne(store.entries, prefix, suffix);
        var _ := Remove([suffix]);
      }
    }

    /** The state of the `clearAll` loop once the first `i` entries of snapshot `e` are handled. */
    ghost predicate ClearedThrough(e: Entries, i: nat, test: string -> bool, ev: seq<RemoveEvent>)
      reads this, store
    {
      && supported && store != null && store.Valid() && DistinctKeys(e) && i <= |e|
      && store.entries == ClearMatching(e[..i], prefix, test) + e[i..]
      && removeEvents == ev
         + if notifyRemove then RemoveEvents(ClearedSuffixes(KeysOf(e)[..i], prefix, test), storageType) else []
    }

    /** Handles the `i`-th enumerated key of snapshot `e`. */
    method ClearNext(ghost e: Entries, key: string, i: nat, test: string -> bool, ghost ev: seq<RemoveEvent>)
      requires ClearedThrough(e, i, test, ev) && i < |e| && key == e[i].0
      modifies this`warnings, this`errors, this`removeEvents, store
      ensures ClearedThrough(e, i + 1, test, ev)
      ensures warnings == old(warnings) && errors == old(errors)
    {
      ghost var mid := removeEvents;
      if Cleared(key, prefix, test) {
        ClearStepRemoved(e, i, prefix, test);
      } else {
        ClearStepKept(e, i, prefix, test);
      }
      ClearKey(key, test);
      ClearEventsStep(ev, mid, removeEvents, KeysOf(e), i, prefix, test, storageType, notifyRemove);
    }

    /**
     * The `for...in` loop of `clearAll` over a snapshot of the store's keys.
     */
    method ClearScoped(test: string -> bool)
      requires Valid() && supported
      modifies this`warnings, this`errors, this`removeEvents, store
      ensures Valid()
      ensures warnings == old(warnings) && errors == old(errors)
      ensures store.entries == ClearMatching(old(store.entries), prefix, test)
      ensures removeEvents == old(removeEvents)
        + if notifyRemove then RemoveEvents(ClearedSuffixes(KeysOf(old(store.entries)), prefix, test), storageType) else []
    {
      ghost var e := store.entries;
      var snapshot := KeysOf(store.entries);
      var i := 0;
      while i < |snapshot|
        invariant i <= |snapshot| == |e| && snapshot == KeysOf(e)
        invariant ClearedThrough(e, i, test, old(removeEvents))
        invariant warnings == old(warnings) && errors == old(errors)
      {
        ClearNext(e, snapshot[i], i, test, old(removeEvents));
        i := i + 1;
      }
      assert e[..i] == e && e[i..] == [];
      assert snapshot[..i] == snapshot;
    }

    /**
     * `clearAll(pattern)`: removes, through `remove`, every key under the
     * prefix whose logical key the pattern accepts (every one when no pattern
     * is given). `remove` never throws, so a working store always gives true.
     */
    method ClearAll(pattern: Option<string -> bool>) returns (ok: bool)
      requires Valid()
      modifies this`warnings, this`errors, this`removeEvents, store
      ensures Valid()
      ensures !supported ==>
        && !ok && warnings == old(warnings) + [NOT_SUPPORTED]
        && errors == old(errors) && removeEvents == old(removeEvents)
        && (store != null ==> store.entries == old(store.entries))
      ensures supported ==>
        && ok && warnings == old(warnings) && errors == old(errors)
        && store.entries == ClearMatching(old(store.entries), prefix, Matcher(pattern))
        && removeEvents == old(removeEvents)
           + if notifyRemove
             then RemoveEvents(ClearedSuffixes(KeysOf(old(store.entries)), prefix, Matcher(pattern)), storageType)
             else []
    {
      var test := Matcher(pattern);
      if !supported {
        warnings := warnings + [NOT_SUPPORTED];
        return false;
      }
      ClearScoped(test);
      ok := true;
    }
  }
}
