# Value-change notifications for browser-extension storage

This project is a Dafny model of the change-notification layer of
`browser-extension-storage`. That layer wraps a host's key-value store behind
`getValue` / `setValue` / `deleteValue` and lets callers subscribe to changes
with `addValueChangeListener(key, callback(key, oldValue, newValue, remote))`.
It models these parts:

- **`deepEqual`** (`deep_equal.dfy`): structural equality over JSON-like
  values. It is proved to coincide with equality of values, so it is
  reflexive, symmetric and transitive. Arrays are compared position by
  position, objects key by key.
- **The JSON helpers** (`json_utils.dfy`): `safeJsonParse` and
  `safeJsonParseWithFallback`. `JSON.parse`, `JSON.stringify` and string
  coercion are parameters (a `Codec`), and no law about them is assumed. A
  round trip appears only as the hypothesis of the lemmas that need it.
- **The listener registry** (`listeners.dfy`): a `Map` from id to
  `{key, callback}`, kept in insertion order. It covers the dispatch that calls
  every listener of a key, deletion by id, and the decoding wrapper that the
  string layers register.
- **The userscript store** (`userscript.dfy`, `userscript_props.dfy`). Its
  parts are:
  - the cache of last known values (`lastKnownValues`);
  - the write path, which diffs with `deepEqual`, fires local listeners and
    posts to the broadcast channel;
  - the 1.5 s polling tick;
  - the broadcast-channel handler;
  - registration and removal, which start and stop the timer;
  - native mode, in which the host notifies by itself.

  The state of one browsing context is a `Store` value, and each operation is
  a function on it. The class `UserscriptStore` holds the same state in
  fields. Its methods are loops and assignments, and each is proved to
  compute exactly its function. The properties are lemmas over the functions.
- **The string-encoding adapter** (`userscript_string.dfy`): values are
  stored as JSON text and decoded on the way back to the caller and to the
  caller's listeners.
- **The localStorage adapter** (`local_storage.dfy`):
  - keys are namespaced under `extension.`;
  - writes are diffed against the stored string;
  - `storage` events from other windows are relayed;
  - `listValues` lists the stored keys (the module defines it but does not
    export it, so it is not reachable from outside lib/local-storage.ts).
- **The older localStorage adapter** (`local_storage_legacy.dfy`): a per-key
  array of listener functions, and an unsubscribe closure that splices every
  occurrence of its function out of that array.

A listener is an opaque identity. Every call a store makes to a listener is
appended to a `log`, and every message it posts is appended to an `outbox`.
"Fires each listener once" and "posts nothing" are statements about those
sequences.

### Where the design and the code differ

The model follows the code. It proves the following points as lemmas:

- **Messages from other contexts fire again.** The broadcast-channel handler
  does not compare the incoming value with the cache. A change that a polling
  tick has already delivered is delivered a second time when the writer's
  message arrives (`TickThenReceiveFiresTwice`). The other order is
  suppressed (`ReceiveThenTickIsQuiet`): the message updates the cache, so the
  next tick finds nothing new.
- **A polling tick re-broadcasts.** When a tick detects a change, it also
  posts it on the channel.
- **`null` and `undefined` notify differently.** In the userscript store,
  `setValue(key, null)` deletes the key, but listeners and the cache are told
  the new value is `null`. `deleteValue` tells them `undefined`
  (`DeletionForms`). On an absent key, `setValue(key, null)` fires once with
  `undefined -> null`. The next tick then reads `undefined` and fires again
  with `null -> undefined`, `remote = true` (`SetNullOnAbsentKeyFiresTwice`).
  Through the string adapter, both `null` and `undefined` become the same
  deletion (`SetNullishIsDelete`).
- **Native-mode ids come from the host.** In native mode,
  `addValueChangeListener` returns the id the host's own
  `GM.addValueChangeListener` hands back, not an id of the layer.
- **No polling switch.** There is no operation to turn polling off.
- **Writes diff against the host store, not the cache.** The write path reads
  the old value from the host store just before writing, so a value that the
  cache already holds still fires when the host store differs.
- **The cache is cleared only as a whole.** Removing a listener leaves its
  key cached while any listener remains; the cache is cleared only when the
  registry empties with polling on. A received message caches its key even
  when no listener watches it.

## Model

| member | source | states |
|---|---|---|
| Equality.DeepEqual | lib/deep-equal.ts:1-51 | deepEqual: `===` values are equal; otherwise a scalar or nullish side is unequal, an array only equals an array of the same length and an object only an object with the same number of keys, all of them present on the other side (deep comparison of elements and values as in ArraysElementwise and ObjectsByKeys) |
| Equality.DeepEqualIsEquality | lib/deep-equal.ts:1-51 | deepEqual(a, b) holds exactly when a and b are the same value tree |
| Equality.Reflexive | lib/deep-equal.ts:1-51 | every value is deep-equal to itself, compound values included |
| Equality.Symmetric | lib/deep-equal.ts:1-51 | deepEqual(a, b) and deepEqual(b, a) agree |
| Equality.Transitive | lib/deep-equal.ts:1-51 | two values deep-equal to a third are deep-equal to each other |
| Equality.NonObjectIsStrict | lib/deep-equal.ts:1-13 | when either side is a scalar, `undefined` or `null`, deepEqual is `===`; `null` differs from `{}` and `undefined` differs from `null` |
| Equality.ArrayIsNotObject | lib/deep-equal.ts:15-17 | an array is never deep-equal to a non-array object, in either order |
| Equality.ArraysElementwise | lib/deep-equal.ts:19-32 | two arrays are deep-equal iff they have equal length and are deep-equal at every index; swapping two distinct elements at any two positions breaks equality |
| Equality.ObjectsByKeys | lib/deep-equal.ts:34-50 | two objects are deep-equal iff they have the same key set and deep-equal values under every key |
| JsonUtils.SafeJsonParse | lib/json-utils.ts:1-15 | `undefined`/`null` give the default; otherwise the parsed value, or the default when parsing throws; the result is always the default or a parse of the input |
| JsonUtils.SafeJsonParseWithFallback | lib/json-utils.ts:17-34 | `undefined` gives `undefined`, `null` gives `null`, text gives its parse, or the text itself when parsing throws |
| JsonUtils.FallbackAgreesWithSafeParse | lib/json-utils.ts:1-34 | both helpers agree where parsing succeeds and on missing input without a default; on unparsable text the fallback is safeJsonParse with the text as default |
| JsonUtils.ParseOfEncoding | lib/json-utils.ts:10-14 | decoding the JSON text of a value the codec round-trips returns that value from both helpers |
| JsonUtils.AsInput | lib/userscript-string.ts:15-16 | a raw value of any type as safeJsonParse's branches see it: `undefined` and `null` as themselves, otherwise the text `JSON.parse` reads (the string itself, or the `String()` coercion of anything else) |
| JsonUtils.ParseWithFallback | lib/json-utils.ts:17-34 | safeJsonParseWithFallback on a value of any type: nullish comes back as itself; otherwise the parse of the value's text, or, when parsing throws, the argument itself (the original value, not its coercion); on strings and nullish it is the typed helper |
| JsonUtils.ParseWithFallbackKeepsUnparsable | lib/json-utils.ts:29-33 | a non-string whose coercion does not parse is handed back unchanged, which differs from decoding the text of its coercion |
| JsonUtils.FromOptional | lib/local-storage.ts:80-81 | an absent stored string is `undefined`, a present one its text; never `null` |
| Listeners.Matching | lib/userscript.ts:70-72 | the filtered registry holds exactly the entries registered for the key |
| Listeners.MatchingIncreasing | lib/userscript.ts:70-72 | filtering keeps the registry's insertion (id) order |
| Listeners.Fire | lib/userscript.ts:73-75 | one invocation per listener of the filtered list, in list order, each for that listener's id and callback |
| Listeners.Notify | lib/userscript.ts:64-76 | a dispatch makes as many calls as the key has listeners (NotifyExactlyMatching says which) |
| Listeners.NotifyExactlyMatching | lib/userscript.ts:64-76 | a dispatch calls every listener of the key exactly once, in registry order, no listener of another key, all with the same key, values and remote flag |
| Listeners.NotifySnoc | lib/local-storage.ts:38-42 | one step of a dispatch loop over the registry adds the current entry's call iff its key matches |
| Listeners.FireSnoc | lib/userscript.ts:73-75 | one step of the loop over the filtered list adds exactly that listener's call |
| Listeners.NotifyKeys | lib/userscript.ts:73-75 | every call of a dispatch carries the key passed to it |
| Listeners.Without | lib/userscript.ts:187 | deleting an id removes exactly the entries with that id; an unknown id leaves the registry as it is |
| Listeners.WithoutIncreasing | lib/userscript.ts:187 | deletion keeps the remaining entries in id order |
| Listeners.WithoutIssued | lib/userscript.ts:187 | deletion keeps every remaining id among the issued ones |
| Listeners.Deliver | lib/userscript-string.ts:35-40 | the caller's function receives the same key and flag; a plain callback the raw values, the wrapper both raw values passed through safeJsonParseWithFallback as they are, so an unparsable non-string arrives unchanged |
| Userscript.PollKey | lib/userscript.ts:31-42 | one key of a tick touches only the cache, the call log and the outbox, and leaves the key cached |
| Userscript.PollKeys | lib/userscript.ts:30-43 | a pass over keys touches only the cache, the call log and the outbox; log and outbox only grow |
| Userscript.Apply | lib/userscript.ts:124-144 | what the updater of setValue/deleteValue does to the host store: the key holds the written value, or is absent after a deletion; every other key is untouched |
| Userscript.Read | lib/userscript.ts:84-97 | GM.getValue: the stored value, or the default for an absent key |
| Userscript.Update | lib/userscript.ts:99-121 | the host store receives the write; registry, counter and timer are untouched; a deep-equal write or native mode leaves cache, calls and messages alone; a real change caches the new value and posts exactly one `{key, oldValue, newValue}` message |
| Userscript.Set | lib/userscript.ts:123-137 | `undefined`/`null` delete the key from the host store, anything else is stored; the registry is untouched |
| Userscript.Delete | lib/userscript.ts:139-145 | the key leaves the host store; the registry is untouched |
| Userscript.PollingStarted | lib/userscript.ts:24-26 | the timer runs afterwards unless the host notifies natively; nothing else changes |
| Userscript.AddListener | lib/userscript.ts:147-175 | native mode changes nothing; otherwise the counter advances, one entry with the new id is appended, the key is cached and the timer runs; no call and no message |
| Userscript.RemoveListener | lib/userscript.ts:177-193 | native mode changes nothing; otherwise the entry is deleted, the timer runs afterwards iff it ran and listeners remain, and the cache is cleared when the last one goes; no call and no message |
| Userscript.Tick | lib/userscript.ts:26-44 | without a running timer nothing happens; a tick touches only the cache, the call log and the outbox, and the last two only grow |
| Userscript.Receive | lib/userscript.ts:78-82 | a message sets the cache entry of its key to its new value, posts nothing and leaves host store, registry and timer alone |
| Userscript.DistinctKeys | lib/userscript.ts:27-29 | the keys of a tick are exactly the watched keys, each once |
| Userscript.InitInv | lib/userscript.ts:5-22 | the load-time state satisfies the store invariant (ids ordered and issued; the timer runs exactly while listeners exist; native mode holds no listeners) |
| Userscript.UpdateInv | lib/userscript.ts:99-121 | the write path preserves the store invariant |
| Userscript.AddListenerInv | lib/userscript.ts:147-175 | registration preserves the store invariant |
| Userscript.RemoveListenerInv | lib/userscript.ts:177-193 | removal preserves the store invariant; the timer stops with the last listener |
| Userscript.TickInv | lib/userscript.ts:26-44 | a polling tick preserves the store invariant |
| Userscript.ReceiveInv | lib/userscript.ts:78-82 | the channel handler preserves the store invariant |
| Userscript.UserscriptStore.constructor | lib/userscript.ts:5-22 | the fresh store is valid and is the load-time state over the given host store |
| Userscript.UserscriptStore.GetValue | lib/userscript.ts:84-97 | the stored value, or the default when the key is absent |
| Userscript.UserscriptStore.TriggerValueChangeListeners | lib/userscript.ts:64-76 | the loop appends exactly the dispatch of the key to the call log |
| Userscript.UserscriptStore.UpdateValue | lib/userscript.ts:99-121 | the new state is the write-path function of the old one, and the invariant is kept |
| Userscript.UserscriptStore.SetValue | lib/userscript.ts:123-137 | `undefined`/`null` delete, other values are written; the state follows the write-path function |
| Userscript.UserscriptStore.DeleteValue | lib/userscript.ts:139-145 | deletion with new value `undefined`; the state follows the write-path function |
| Userscript.UserscriptStore.StartPolling | lib/userscript.ts:24-26 | the timer starts unless it runs already or the host notifies natively |
| Userscript.UserscriptStore.AddValueChangeListener | lib/userscript.ts:147-175 | returns the next id (the host's in native mode); the state follows the registration function |
| Userscript.UserscriptStore.RemoveValueChangeListener | lib/userscript.ts:177-193 | the state follows the removal function, and the invariant is kept |
| Userscript.UserscriptStore.PollOneKey | lib/userscript.ts:31-42 | the body of the interval callback for one key computes exactly one key of the polling function |
| Userscript.UserscriptStore.PollTick | lib/userscript.ts:26-44 | the loop over the watched keys computes exactly one tick of the polling function |
| Userscript.UserscriptStore.OnMessage | lib/userscript.ts:78-82 | the state follows the receive function: cache updated, listeners fired as remote |
| UserscriptProps.TickPerKey | lib/userscript.ts:30-43 | per watched key, a tick leaves the current value cached; it fires each listener once and posts one message iff the cached value was stale; a key seen for the first time fires nothing |
| UserscriptProps.PollKeysQuiet | lib/userscript.ts:30-43 | a pass over keys whose cached values are current changes nothing |
| UserscriptProps.TickIdempotent | lib/userscript.ts:26-44 | two ticks with no write between them equal one tick, so a remote change is delivered once by polling |
| UserscriptProps.ReceiveFiresRemote | lib/userscript.ts:78-82 | a message updates the cache, fires every listener of its key once in id order with remote = true, and posts nothing |
| UserscriptProps.ReceiveThenTickIsQuiet | lib/userscript.ts:78-82 | after a message carrying the host's current value, the next tick fires nothing and posts nothing for that key |
| UserscriptProps.TickThenReceiveFiresTwice | lib/userscript.ts:78-82 | a change a tick delivered is delivered again by the writer's message: the listeners' calls for the key are the dispatch twice, and the tick posted one message |
| UserscriptProps.NoOpWriteIsSilent | lib/userscript.ts:111-114 | a write deep-equal to the current value fires nothing, posts nothing and leaves the cache alone; for a storable value it changes nothing |
| UserscriptProps.ChangeFiresEachListenerOnce | lib/userscript.ts:111-120 | a real change caches the new value, calls each listener of the key once in id order with remote = false and nobody else, and posts exactly one message |
| UserscriptProps.LocalWriteNotRepolled | lib/userscript.ts:116 | after a local change to any value other than `null` (deleteValue included) the next tick fires nothing and posts nothing for that key; `null` is cached while the key is deleted, so it is repolled |
| UserscriptProps.SetNullOnAbsentKeyFiresTwice | lib/userscript.ts:128-131 | setValue(k, null) on an absent key stores nothing yet fires `undefined -> null`, and the next tick fires `null -> undefined` |
| UserscriptProps.UndefinedWriteIsDelete | lib/userscript.ts:123-145 | in every state, setValue(k, undefined) equals deleteValue(k) and removes k from the host store |
| UserscriptProps.DeletionForms | lib/userscript.ts:123-145 | where k holds a value outside native mode, setValue(k, null) removes the same entry as deleteValue(k) but notifies `null` where deleteValue notifies `undefined` |
| UserscriptProps.AddListenerIssuesFreshId | lib/userscript.ts:164-174 | the id exceeds every id issued so far, one entry is appended, an unseen key is seeded from the host store, polling runs |
| UserscriptProps.RemoveListenerDeletesOnlyId | lib/userscript.ts:187-192 | only the entry with that id goes; an unknown id changes nothing; removing the last listener stops polling and clears the cache |
| UserscriptProps.RemovedListenerStaysSilent | lib/userscript.ts:187 | a message arriving after removal never calls the removed listener |
| UserscriptProps.StartPollingIdempotent | lib/userscript.ts:24-25 | starting the timer twice is starting it once; in native mode or when running it does nothing |
| UserscriptString.Encode | lib/userscript-string.ts:25-28 | `undefined`/`null` become `undefined` (a deletion below), anything else its JSON text |
| UserscriptString.Get | lib/userscript-string.ts:11-17 | an absent or nullish raw value gives the default; a stored string gives safeJsonParse of it |
| UserscriptString.Set | lib/userscript-string.ts:19-29 | `undefined`/`null` leave the key absent from the host store; anything else is stored as its JSON text |
| UserscriptString.AddListener | lib/userscript-string.ts:31-41 | outside native mode exactly one entry, the decoding wrapper around the caller's function under the next id, is appended |
| UserscriptString.GetValue | lib/userscript-string.ts:11-17 | an absent key or a stored `null`/`undefined` gives the default; stored text gives safeJsonParse of it |
| UserscriptString.SetValue | lib/userscript-string.ts:19-29 | the store follows the userscript write of the encoded value |
| UserscriptString.DeleteValue | lib/userscript-string.ts:8 | deletion is the userscript layer's own |
| UserscriptString.AddValueChangeListener | lib/userscript-string.ts:31-41 | registers the decoding wrapper around the caller's function |
| UserscriptString.GetAfterSet | lib/userscript-string.ts:11-29 | reading back a written value the codec round-trips gives it; after `null`/`undefined` the default |
| UserscriptString.SetNullishIsDelete | lib/userscript-string.ts:19-29 | setValue(k, null) and setValue(k, undefined) are deleteValue(k) |
| UserscriptString.WrappedListenerSeesDecodedChange | lib/userscript-string.ts:31-41 | on a real change, each wrapped listener receives the key, remote = false, the written value decoded back, and the old raw value through safeJsonParseWithFallback (unchanged when it is a non-string whose text does not parse) |
| LocalStorage.Namespaced | lib/local-storage.ts:19-21 | the namespaced key carries the prefix, and stripping the prefix gives the key back |
| LocalStorage.Unnamespaced | lib/local-storage.ts:21 | the prefix length is cut off (empty for a shorter key), and a key that carries the prefix is the prefix followed by the result |
| LocalStorage.NamespacedOfUnnamespaced | lib/local-storage.ts:19-21 | a key that carries the prefix is the namespaced form of its remainder |
| LocalStorage.Relevant | lib/local-storage.ts:56-60 | an event passes the filter only when it comes from localStorage and its key is the namespaced form of a caller key |
| LocalStorage.RelevantIffNamespaced | lib/local-storage.ts:56-60 | a localStorage event passes the filter iff its key is a namespaced key, and listeners then get the caller's key |
| LocalStorage.Normalise | lib/local-storage.ts:23-26 | a missing item and the text 'undefined' read as absent; anything else is returned unchanged |
| LocalStorage.AsValue | lib/local-storage.ts:66-67 | `null` in an event becomes `undefined`; a string stays that string |
| LocalStorage.Encode | lib/local-storage.ts:87-90 | `undefined`/`null` become a removal; anything else its JSON text |
| LocalStorage.LocalStorageStore.constructor | lib/local-storage.ts:3-15 | a fresh adapter over the given storage: no listeners, counter 0 |
| LocalStorage.LocalStorageStore.StoredValue | lib/local-storage.ts:23-26 | the stored string unless it is missing or 'undefined' |
| LocalStorage.LocalStorageStore.SetItem | lib/local-storage.ts:35 | stores the item; a new key joins the end of the key order |
| LocalStorage.LocalStorageStore.RemoveItem | lib/local-storage.ts:33 | removes the item and its key from the key order |
| LocalStorage.LocalStorageStore.Dispatch | lib/local-storage.ts:38-42 | the loop appends exactly the dispatch of the key, with the caller's key, to the call log |
| LocalStorage.LocalStorageStore.SetValueRaw | lib/local-storage.ts:28-43 | an unchanged value does nothing; otherwise it removes or sets the item (erasing the key from, or appending a new key to, the key order), then fires the key's listeners with remote = false |
| LocalStorage.LocalStorageStore.AddListenerRaw | lib/local-storage.ts:45-52 | returns the next id, above every id in the registry, and appends one entry |
| LocalStorage.LocalStorageStore.OnStorage | lib/local-storage.ts:54-74 | an irrelevant event does nothing; a relevant one fires the key's listeners with the caller's key and remote = true |
| LocalStorage.LocalStorageStore.GetValue | lib/local-storage.ts:76-82 | absent gives the default; stored text gives safeJsonParse of it |
| LocalStorage.LocalStorageStore.SetValue | lib/local-storage.ts:84-91 | `undefined`/`null` remove, anything else stores its JSON text, with the key order updated to match; a no-op write changes nothing and is silent |
| LocalStorage.LocalStorageStore.DeleteValue | lib/local-storage.ts:93-95 | when the item is present and is not the text 'undefined', removes it and its key from the key order and notifies `undefined`; otherwise (absent, or the text 'undefined') nothing changes and nothing fires |
| LocalStorage.LocalStorageStore.ListValues | lib/local-storage.ts:97-108 | one key per item, in storage order, each with the prefix length cut off; every stored key is listed |
| LocalStorage.LocalStorageStore.AddValueChangeListener | lib/local-storage.ts:110-122 | registers the decoding wrapper under the namespaced key with the next id |
| LocalStorage.LocalStorageStore.RemoveValueChangeListener | lib/local-storage.ts:124-126 | deletes exactly the entries with that id |
| LocalStorage.GetAfterSet | lib/local-storage.ts:76-95 | reading back a written value the codec round-trips gives it, unless its text is 'undefined'; after `null`/`undefined` the default |
| LegacyLocalStorage.Calls | lib/local-storage.js:9-13 | one call per registered function, in order, all with the same key and values |
| LegacyLocalStorage.RemoveAll | lib/local-storage.js:19-27 | the array after unsubscribing is never longer than before (RemoveAllRemoves, RemoveAllCounts and RemoveAllAppend say what it holds) |
| LegacyLocalStorage.RemoveAllRemoves | lib/local-storage.js:19-27 | after unsubscribing, no occurrence of the function is left in the array |
| LegacyLocalStorage.RemoveAllCounts | lib/local-storage.js:19-27 | every other function keeps its number of occurrences |
| LegacyLocalStorage.RemoveAllAbsent | lib/local-storage.js:19-27 | an array without the function is left as it is, so unsubscribing twice is unsubscribing once |
| LegacyLocalStorage.RemoveAllAppend | lib/local-storage.js:21-25 | removal distributes over concatenation, so the remaining functions keep their relative order |
| LegacyLocalStorage.SpliceStep | lib/local-storage.js:21-25 | one backward step of the splice loop either removes the function at that index or keeps it |
| LegacyLocalStorage.LegacyStore.constructor | lib/local-storage.js:1 | a fresh adapter over the given storage with no listener arrays |
| LegacyLocalStorage.LegacyStore.SetValueRaw | lib/local-storage.js:5-14 | an unchanged string does nothing; otherwise it stores the string, then calls every function of the key in order with the old string (or `null`) and the new one; for a key that finds an inherited Object.prototype member it throws after storing and before any call |
| LegacyLocalStorage.LegacyStore.AddValueChangeListener | lib/local-storage.js:16-19 | appends the function to the key's array, creating it if needed, and returns its unsubscriber; for a key that finds an inherited Object.prototype member it throws and leaves the table as it was |
| LegacyLocalStorage.LegacyStore.Unsubscribe | lib/local-storage.js:19-27 | the key's array loses every occurrence of the function, others kept in order; other keys and a missing array are untouched |
| LegacyLocalStorage.LegacyStore.GetValue | lib/local-storage.js:30-33 | missing, empty or 'undefined' items give `undefined`; otherwise the parse, or an escaping exception when parsing throws |
| LegacyLocalStorage.LegacyStore.SetValue | lib/local-storage.js:35-37 | `undefined` does nothing; anything else, `null` included, is stored as its JSON text through the diffing write, throwing as that write does |
| LegacyLocalStorage.LegacyStore.DeleteValue | lib/local-storage.js:39 | removes the item and calls no listener |
| LegacyLocalStorage.LegacyStore.ListValues | lib/local-storage.js:41-49 | every stored key once, unchanged, in storage order |

## Left out

- Asynchrony: every `await` is treated as completing at once, in program order. Interleavings of a write with a polling tick or with a message in flight are not modelled. The properties compare the orders tick-then-message and message-then-tick instead.
- Cache seeding: the `getValue(key).then(...)` that seeds the cache on registration is modelled as completing at once.
- The broadcast channel: it is modelled as an `outbox` of posted messages plus a handler that takes one message. Delivery to other contexts and dropping malformed messages are not modelled; messages are well-formed `{key, oldValue, newValue}` records.
- Timers: `setInterval`/`clearInterval` are modelled as a `polling` flag, and one run of the interval callback as `PollTick`. The 1.5 s period is not modelled.
- Host detection: the `GM` capability probes, `getScriptHandler` and the ignored-handler list are reduced to one `native` flag, fixed at construction. The branches where `GM`, `GM.getValue`, `GM.setValue` or `GM.deleteValue` is missing are not modelled; the host store always has all three.
- Native host notifications: the host's own change notifications are not modelled. In native mode the host's id is a parameter (`hostId`).
- Read failures: the `try`/`catch` around `GM.getValue` and its warning are not modelled; reads do not fail.
- UpdateValue: a rejected `GM.setValue` or `GM.deleteValue` in the updater (lib/userscript.ts:109, 130-133) makes updateValue reject before the diff; host writes are modelled as always succeeding, so `Userscript.UserscriptStore.UpdateValue`, `SetValue` and `DeleteValue` always complete.
- SetItem: `localStorage.setItem` throwing (a full quota, lib/local-storage.ts:35 and lib/local-storage.js:8) is not modelled; `LocalStorage.LocalStorageStore.SetItem` and the writes built on it, and the legacy `SetValueRaw`, always store the item.
- Foreign functions: `JSON.parse`, `JSON.stringify` and `String()` are abstract parameters. Numbers are integers, so NaN, infinities and fractions are not modelled.
- Listener callbacks: callbacks are opaque identities that are recorded, not run. A callback that throws or re-enters the store is not modelled.
- Unnamespaced: keys are sequences of Unicode scalar values, while `key.slice(prefix.length)` counts UTF-16 code units. For a key outside the namespace whose first ten code units include astral characters (for example "😀😀😀😀😀x"), the model cuts at a different point than the source ("" instead of "x"). Keys holding lone surrogates cannot be represented. Namespaced keys are unaffected, since the prefix is ten ASCII characters.
- ListValues: lists every stored key through `Unnamespaced`, so a stored key outside the namespace that holds astral characters is listed cut at a different point than in the source, as above.
- localStorage order: the key order that `localStorage.key(i)` enumerates is modelled as insertion order of new keys (`order`).
- lib/chrome.ts, lib/chrome.js, lib/userscript.js, lib/test.ts, lib/test-utils.ts and the type declarations are not part of this model.
