/**
 * The older, application-level `PersistenceService`. Its configuration,
 * `clearAll`, `length`, `keys`, `remove`, `getStorageType` and key derivation
 * are the same code as the library version's, so the model shares one
 * `Persistence.PersistenceService` object for that state and those
 * operations. What differs is `get`, which takes no path, and `set`, which
 * takes the key first, stores the encoding it computed before the support
 * check, and reports the key and that encoding in its event.
 */
module LegacyPersistence {
  import opened Wrappers
  import opened Json
  import opened HostStorage
  import opened PersistenceTypes
  import opened Scope
  import Persistence

  /** The event the older `set` emits: the caller's key and the encoded value (`None` for `null`). */
  datatype SetEvent = SetEvent(key: string, value: Option<string>, storageType: StorageType)

  /**
   * What the older `set` computes before anything else: `undefined` becomes
   * `null`, any other value its JSON text.
   */
  function Encode(c: Codec, value: JsValue): (r: Option<string>)
    ensures r == None <==> value == Undefined
  {
    match value
    case Undefined => None
    case Defined(j) => Some(c.stringify(j))
  }

  /** What reaches the store: `setItem` turns `null` into the text "null". */
  function Stored(encoded: Option<string>): string
  {
    match encoded
    case None => "null"
    case Some(s) => s
  }

  /** What the older `get` returns for the raw entry. */
  function LegacyGetResult(c: Codec, item: Option<string>): (r: Json)
    ensures r == Persistence.GetResult(c, item, []).json
  {
    ParseItem(c, item)
  }

  /**
   * The round trip of the older service: whatever `set` stores under a key,
   * `get` reads back as the value set, with `undefined` read back as `null`.
   */
  lemma LegacySetThenGet(c: Codec, e: Entries, dk: string, value: JsValue)
    requires RoundTrips(c, Normalize(value))
    ensures LegacyGetResult(c, Lookup(Put(e, dk, Stored(Encode(c, value))), dk)) == Normalize(value)
  {
    PutLookup(e, dk, Stored(Encode(c, value)), dk);
    if value.Defined? {
      ParseItemOfEncoding(c, value.json);
    }
  }

  class PersistenceService {
    /**
     * The state and the operations shared with the library version. Only its
     * `Keys`, `Length`, `Remove`, `ClearAll` and `GetStorageType` belong to
     * the older class; its path-taking `Get` and `Set` and its `setEvents` log
     * are the library's own and are not part of the older class.
     */
    const base: Persistence.PersistenceService
    var setEvents: seq<SetEvent>

    ghost predicate Valid()
      reads this, base, base.store
    {
      base.Valid()
    }

    constructor (config: Config, host: Storage?, supported: bool, codec: Codec)
      requires supported ==> host != null
      requires host != null ==> host.Valid()
      ensures Valid() && fresh(base)
      ensures base.prefix == ConfiguredPrefix(config.prefix)
      ensures base.notifySet == NotifySetOf(config) && base.notifyRemove == NotifyRemoveOf(config)
      ensures base.storageType == StorageTypeOf(config)
      ensures base.store == host && base.supported == supported && base.codec == codec
      ensures base.warnings == [] && base.errors == [] && base.removeEvents == [] && setEvents == []
    {
      base := new Persistence.PersistenceService(config, host, supported, codec);
      setEvents := [];
    }

    /** `get(key)`: `null` without a working store, one warning logged. */
    method Get(key: string) returns (r: Json)
      requires Valid()
      modifies base`warnings
      ensures !base.supported ==> r == JNull && base.warnings == old(base.warnings) + [NOT_SUPPORTED]
      ensures base.supported ==>
        r == LegacyGetResult(base.codec, base.store.GetItem(DeriveKey(base.prefix, key)))
        && base.warnings == old(base.warnings)
    {
      if !base.supported {
        base.warnings := base.warnings + [NOT_SUPPORTED];
        return JNull;
      }
      var item := base.store.GetItem(DeriveKey(base.prefix, key));
      if item == None || item == Some("") || item == Some("null") {
        return JNull;
      }
      var parsed := base.codec.parse(item.value);
      if parsed == None {
        // JSON.parse threw; the exception is swallowed.
        return JNull;
      }
      r := parsed.value;
    }

    /**
     * `set(key, value)`: the value is encoded first; without a working store
     * nothing else happens. An exception from `setItem` is logged and gives
     * false; otherwise the event, when enabled, carries the encoded value.
     */
    method Set(key: string, value: JsValue) returns (ok: bool)
      requires Valid()
      modifies base`warnings, base`errors, this`setEvents, base.store
      ensures Valid()
      ensures !base.supported ==>
        && !ok && base.warnings == old(base.warnings) + [NOT_SUPPORTED]
        && base.errors == old(base.errors) && setEvents == old(setEvents)
        && (base.store != null ==> base.store.entries == old(base.store.entries))
      ensures base.supported ==>
        var dk := DeriveKey(base.prefix, key);
        var encoded := Encode(base.codec, value);
        && base.warnings == old(base.warnings)
        && (Size(Put(old(base.store.entries), dk, Stored(encoded))) > base.store.quota ==>
              && !ok && base.errors == old(base.errors) + [QUOTA_EXCEEDED]
              && base.store.entries == old(base.store.entries) && setEvents == old(setEvents))
        && (Size(Put(old(base.store.entries), dk, Stored(encoded))) <= base.store.quota ==>
              && ok && base.errors == old(base.errors)
              && base.store.entries == Put(old(base.store.entries), dk, Stored(encoded))
              && setEvents == old(setEvents)
                 + if base.notifySet then [SetEvent(key, encoded, base.storageType)] else [])
    {
      var encoded := Encode(base.codec, value);
      if !base.supported {
        base.warnings := base.warnings + [NOT_SUPPORTED];
        return false;
      }
      var thrown := base.store.SetItem(DeriveKey(base.prefix, key), Stored(encoded));
      if thrown.Some? {
        base.errors := base.errors + [thrown.value];
        return false;
      }
      if base.notifySet {
        setEvents := setEvents + [SetEvent(key, encoded, base.storageType)];
      }
      ok := true;
    }
  }
}
