/**
 * The configuration the service is built from, the events it emits and the
 * messages it logs; shared by both versions of the service.
 */
module PersistenceTypes {
  import opened Wrappers

  /** The warning logged by every operation that needs a working store and has none. */
  const NOT_SUPPORTED := "LOCAL_STORAGE_NOT_SUPPORTED"

  /**
   * Stands for the message of the TypeError the JavaScript engine throws when
   * a property is read from `undefined` or `null` or assigned into a
   * primitive; its exact text belongs to the engine.
   */
  const TYPE_ERROR := "TypeError"

  /** The backing store selector. */
  datatype StorageType = LocalStorage | SessionStorage

  function StorageTypeName(t: StorageType): string
  {
    match t
    case LocalStorage => "localStorage"
    case SessionStorage => "sessionStorage"
  }

  /** `notifyOptions`: either flag may be left out. */
  datatype NotifyOptions = NotifyOptions(setItem: Option<bool>, removeItem: Option<bool>)

  /** `PersistenceConfig`: every option may be left out. */
  datatype Config = Config(
    notifyOptions: Option<NotifyOptions>,
    prefix: Option<string>,
    storageType: Option<StorageType>)

  /** `!!flag`: a flag that is left out counts as false. */
  function Truthy(flag: Option<bool>): bool
  {
    flag == Some(true)
  }

  /** Whether `set` emits events: off unless the configuration turns it on. */
  function NotifySetOf(config: Config): (on: bool)
    ensures on <==> config.notifyOptions.Some? && config.notifyOptions.value.setItem == Some(true)
  {
    match config.notifyOptions
    case None => false
    case Some(n) => Truthy(n.setItem)
  }

  /** Whether `remove` emits events: off unless the configuration turns it on. */
  function NotifyRemoveOf(config: Config): (on: bool)
    ensures on <==> config.notifyOptions.Some? && config.notifyOptions.value.removeItem == Some(true)
  {
    match config.notifyOptions
    case None => false
    case Some(n) => Truthy(n.removeItem)
  }

  /** The selected store; persistent storage when none is configured. */
  function StorageTypeOf(config: Config): StorageType
  {
    match config.storageType
    case None => LocalStorage
    case Some(t) => t
  }

  /** The event `remove` emits: the caller's key, without the prefix. */
  datatype RemoveEvent = RemoveEvent(key: string, storageType: StorageType)

  /** One remove event per key, in the order of the keys. */
  function RemoveEvents(keys: seq<string>, t: StorageType): seq<RemoveEvent>
    decreases |keys|
  {
    if keys == [] then [] else RemoveEvents(keys[..|keys| - 1], t) + [RemoveEvent(keys[|keys| - 1], t)]
  }

  lemma RemoveEventsSnoc(keys: seq<string>, k: string, t: StorageType)
    ensures RemoveEvents(keys + [k], t) == RemoveEvents(keys, t) + [RemoveEvent(k, t)]
  {
    assert (keys + [k])[..|keys|] == keys;
  }

  /**
   * One step of a loop over `keys` that logs a removal event per key while
   * `on` holds: the log grows by the event of `keys[i]`.
   */
  lemma RemoveEventsStep(base: seq<RemoveEvent>, mid: seq<RemoveEvent>, after: seq<RemoveEvent>,
                         keys: seq<string>, i: nat, t: StorageType, on: bool)
    requires i < |keys|
    requires mid == base + if on then RemoveEvents(keys[..i], t) else []
    requires after == mid + if on then [RemoveEvent(keys[i], t)] else []
    ensures after == base + if on then RemoveEvents(keys[..i + 1], t) else []
  {
    assert keys[..i + 1] == keys[..i] + [keys[i]];
    RemoveEventsSnoc(keys[..i], keys[i], t);
  }

  /** `n` copies of one message. */
  function Repeat(message: string, n: nat): seq<string>
  {
    if n == 0 then [] else Repeat(message, n - 1) + [message]
  }

  /** One step of a loop that logs `message` once per iteration unless `quiet` holds. */
  lemma RepeatStep(base: seq<string>, mid: seq<string>, after: seq<string>, message: string, i: nat, quiet: bool)
    requires mid == base + if quiet then [] else Repeat(message, i)
    requires after == mid + if quiet then [] else [message]
    ensures after == base + if quiet then [] else Repeat(message, i + 1)
  {
  }
}
