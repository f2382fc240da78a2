/**
  The change detector of the userscript store: a listener registry, a cache
  of last known values, a polling timer and a broadcast channel on top of the
  host's own key-value store.

  The module-level state of lib/userscript.ts becomes one `Store` value; each
  operation is a function from the old store to the new one, and the class
  `UserscriptStore` holds the same state in fields that its methods update
  step by step, each proved to produce exactly what its function says.
 */
module Userscript {
  import opened Json
  import opened Equality
  import opened Listeners

  /** `{key, oldValue, newValue}` as posted on the broadcast channel. */
  datatype Message = Message(key: string, oldValue: Value, newValue: Value)

  /** What the `updater` handed to updateValue does to the host store. */
  datatype Write = WriteValue(value: Value) | DeleteKey

  datatype Store = Store(
    native: bool,                 // isNativeListenerSupported(), fixed when the script loads
    backend: map<string, Value>,  // the host's value store behind GM.getValue/setValue/deleteValue
    listeners: seq<Entry>,        // valueChangeListeners, in insertion order
    counter: int,                 // valueChangeListenerIdCounter
    cache: map<string, Value>,    // lastKnownValues
    polling: bool,                // pollingIntervalId is set
    log: seq<Event>,              // every listener invocation made so far
    outbox: seq<Message>)         // every message posted on the broadcast channel so far

  /** The state when the script loads. */
  function Init(native: bool, backend: map<string, Value>): Store {
    Store(native, backend, [], 0, map[], false, [], [])
  }

  /**
    The registry is in id order and holds only issued ids. In native mode the
    host keeps the listeners, so the registry stays empty and nothing polls;
    otherwise the timer runs exactly while some listener is registered.
   */
  ghost predicate Inv(s: Store) {
    && 0 <= s.counter
    && IdsIncreasing(s.listeners)
    && IdsIssued(s.listeners, s.counter)
    && (s.native ==> !s.polling && s.listeners == [])
    && (!s.native ==> (s.polling <==> s.listeners != []))
  }

  /** The keys some registered listener watches. */
  ghost function KeysOf(entries: seq<Entry>): set<string> {
    set e | e in entries :: e.key
  }

  /** GM.getValue(key, defaultValue): the stored value, or the default when there is none. */
  function Read(backend: map<string, Value>, key: string, defaultValue: Value): (r: Value)
    ensures key in backend ==> r == backend[key]
    ensures key !in backend ==> r == defaultValue
  {
    if key in backend then backend[key] else defaultValue
  }

  /** The host store after the updater ran. */
  function Apply(backend: map<string, Value>, key: string, w: Write): (r: map<string, Value>)
    ensures key in r <==> w.WriteValue?
    ensures w.WriteValue? ==> r[key] == w.value
    ensures r - {key} == backend - {key}
  {
    match w
    case WriteValue(v) => backend[key := v]
    case DeleteKey => backend - {key}
  }

  /**
    updateValue(key, newValue, updater): outside native mode, read the old
    value, run the write, and unless old and new are deep-equal record the new
    value in the cache, fire the key's listeners with `remote = false` and
    post one message. In native mode only the write happens.
   */
  function Update(s: Store, key: string, newValue: Value, w: Write): (r: Store)
    ensures r.backend == Apply(s.backend, key, w)
    ensures r.native == s.native && r.listeners == s.listeners
    ensures r.counter == s.counter && r.polling == s.polling
    ensures s.native || DeepEqual(Read(s.backend, key, Undefined), newValue) ==>
      r.cache == s.cache && r.log == s.log && r.outbox == s.outbox
    ensures !s.native && !DeepEqual(Read(s.backend, key, Undefined), newValue) ==>
      r.cache == s.cache[key := newValue] && s.log <= r.log &&
      r.outbox == s.outbox + [Message(key, Read(s.backend, key, Undefined), newValue)]
  {
    if s.native then s.(backend := Apply(s.backend, key, w))
    else
      var oldValue := Read(s.backend, key, Undefined);
      var s1 := s.(backend := Apply(s.backend, key, w));
      if DeepEqual(oldValue, newValue) then s1
      else s1.(cache := s1.cache[key := newValue],
               log := s1.log + Notify(s1.listeners, key, key, oldValue, newValue, false),
               outbox := s1.outbox + [Message(key, oldValue, newValue)])
  }

  /** setValue(key, value): `undefined` and `null` delete the key instead of storing it. */
  function Set(s: Store, key: string, value: Value): (r: Store)
    ensures IsNullish(value) ==> r.backend == s.backend - {key}
    ensures !IsNullish(value) ==> r.backend == s.backend[key := value]
    ensures r.listeners == s.listeners && r.counter == s.counter && r.polling == s.polling
  {
    Update(s, key, value, if IsNullish(value) then DeleteKey else WriteValue(value))
  }

  /** deleteValue(key). */
  function Delete(s: Store, key: string): (r: Store)
    ensures r.backend == s.backend - {key}
    ensures r.listeners == s.listeners && r.counter == s.counter && r.polling == s.polling
  {
    Update(s, key, Undefined, DeleteKey)
  }

  /** startPolling(): starts the timer unless it runs already or the host notifies natively. */
  function PollingStarted(s: Store): (r: Store)
    ensures r.polling <==> s.polling || !s.native
    ensures r.(polling := s.polling) == s
  {
    if s.polling || s.native then s else s.(polling := true)
  }

  /** The id addValueChangeListener returns; in native mode the host issues it. */
  function IssuedId(s: Store, hostId: int): int {
    if s.native then hostId else s.counter + 1
  }

  /**
    addValueChangeListener(key, callback) outside native mode: issue the next
    id, register the entry, seed the cache for an unseen key from the host
    store, and start polling. In native mode the host registers the callback.
   */
  function AddListener(s: Store, key: string, callback: Callback): (r: Store)
    ensures s.native ==> r == s
    ensures !s.native ==>
      && r.counter == s.counter + 1
      && r.listeners == s.listeners + [Entry(s.counter + 1, key, callback)]
      && key in r.cache && r.polling
    ensures r.backend == s.backend && r.log == s.log && r.outbox == s.outbox
  {
    if s.native then s
    else
      var id := s.counter + 1;
      var s1 := s.(counter := id, listeners := s.listeners + [Entry(id, key, callback)]);
      var s2 := if key in s1.cache then s1
                else s1.(cache := s1.cache[key := Read(s1.backend, key, Undefined)]);
      PollingStarted(s2)
  }

  /**
    removeValueChangeListener(id) outside native mode: delete the entry; when
    the registry is then empty and the timer runs, stop it and clear the cache.
   */
  function RemoveListener(s: Store, id: int): (r: Store)
    ensures s.native ==> r == s
    ensures !s.native ==> r.listeners == Without(s.listeners, id)
    ensures !s.native ==> (r.polling <==> s.polling && r.listeners != [])
    ensures !s.native && r.listeners == [] && s.polling ==> r.cache == map[]
    ensures r.backend == s.backend && r.counter == s.counter
    ensures r.log == s.log && r.outbox == s.outbox
  {
    if s.native then s
    else
      var s1 := s.(listeners := Without(s.listeners, id));
      if |s1.listeners| == 0 && s1.polling then s1.(polling := false, cache := map[])
      else s1
  }

  /**
    One key of a polling tick: an uncached key is seeded with no notification;
    a cached key whose value changed is updated, fired with `remote = true` and
    broadcast; an unchanged key is left alone.
   */
  function PollKey(s: Store, key: string): (r: Store)
    ensures r.native == s.native && r.backend == s.backend && r.listeners == s.listeners
    ensures r.counter == s.counter && r.polling == s.polling
    ensures s.log <= r.log && s.outbox <= r.outbox
    ensures key in r.cache
  {
    var newValue := Read(s.backend, key, Undefined);
    if key !in s.cache then s.(cache := s.cache[key := newValue])
    else
      var oldValue := s.cache[key];
      if DeepEqual(oldValue, newValue) then s
      else s.(cache := s.cache[key := newValue],
              log := s.log + Notify(s.listeners, key, key, oldValue, newValue, true),
              outbox := s.outbox + [Message(key, oldValue, newValue)])
  }

  /** The keys of a tick, taken one after the other. */
  function PollKeys(s: Store, keys: seq<string>): (r: Store)
    ensures r.native == s.native && r.backend == s.backend && r.listeners == s.listeners
    ensures r.counter == s.counter && r.polling == s.polling
    ensures s.log <= r.log && s.outbox <= r.outbox
  {
    if keys == [] then s
    else PollKey(PollKeys(s, keys[..|keys| - 1]), keys[|keys| - 1])
  }

  /** One more key of a tick. */
  lemma PollKeysSnoc(s: Store, keys: seq<string>, i: int)
    requires 0 <= i < |keys|
    ensures PollKeys(s, keys[..i + 1]) == PollKey(PollKeys(s, keys[..i]), keys[i])
  {
    assert keys[..i + 1][..i] == keys[..i];
  }

  /**
    `new Set(Array.from(valueChangeListeners.values()).map((l) => l.key))`:
    every watched key once, in order of first registration.
   */
  function DistinctKeys(entries: seq<Entry>): (r: seq<string>)
    ensures forall k :: k in r <==> k in KeysOf(entries)
    ensures forall i, j :: 0 <= i < j < |r| ==> r[i] != r[j]
  {
    if entries == [] then []
    else
      var init, last := entries[..|entries| - 1], entries[|entries| - 1];
      assert entries == init + [last];
      assert KeysOf(entries) == KeysOf(init) + {last.key};
      var d := DistinctKeys(init);
      if last.key in d then d else d + [last.key]
  }

  /** One run of the interval callback; without a running timer nothing happens. */
  function Tick(s: Store): (r: Store)
    ensures !s.polling ==> r == s
    ensures r.backend == s.backend && r.listeners == s.listeners
    ensures r.counter == s.counter && r.polling == s.polling
    ensures s.log <= r.log && s.outbox <= r.outbox
  {
    if !s.polling then s else PollKeys(s, DistinctKeys(s.listeners))
  }

  /**
    A message from another context: record its new value in the cache and
    fire the key's listeners with `remote = true`, posting nothing.
   */
  function Receive(s: Store, m: Message): (r: Store)
    ensures r.cache == s.cache[m.key := m.newValue]
    ensures r.backend == s.backend && r.listeners == s.listeners
    ensures r.counter == s.counter && r.polling == s.polling
    ensures s.log <= r.log && r.outbox == s.outbox
  {
    s.(cache := s.cache[m.key := m.newValue],
       log := s.log + Notify(s.listeners, m.key, m.key, m.oldValue, m.newValue, true))
  }

  lemma InitInv(native: bool, backend: map<string, Value>)
    ensures Inv(Init(native, backend))
  {
  }

  lemma UpdateInv(s: Store, key: string, newValue: Value, w: Write)
    requires Inv(s)
    ensures Inv(Update(s, key, newValue, w))
  {
  }

  /** Registration keeps the registry in id order and starts the timer. */
  lemma AddListenerInv(s: Store, key: string, callback: Callback)
    requires Inv(s)
    ensures Inv(AddListener(s, key, callback))
  {
  }

  /** Removal keeps the registry in id order and stops the timer with the last listener. */
  lemma RemoveListenerInv(s: Store, id: int)
    requires Inv(s)
    ensures Inv(RemoveListener(s, id))
  {
    if !s.native {
      WithoutIncreasing(s.listeners, id);
      WithoutIssued(s.listeners, id, s.counter);
    }
  }

  lemma TickInv(s: Store)
    requires Inv(s)
    ensures Inv(Tick(s))
  {
  }

  lemma ReceiveInv(s: Store, m: Message)
    requires Inv(s)
    ensures Inv(Receive(s, m))
  {
  }

  /** The state of one browsing context running the userscript store. */
  class UserscriptStore {
    const native: bool
    var backend: map<string, Value>
    var listeners: seq<Entry>
    var counter: int
    var cache: map<string, Value>
    var polling: bool
    var log: seq<Event>
    var outbox: seq<Message>

    function State(): Store
      reads this
    {
      Store(native, backend, listeners, counter, cache, polling, log, outbox)
    }

    ghost predicate Valid()
      reads this
    {
      Inv(State())
    }

    constructor (native: bool, backend: map<string, Value>)
      ensures Valid() && State() == Init(native, backend)
    {
      this.native := native;
      this.backend := backend;
      listeners, counter, cache, polling := [], 0, map[], false;
      log, outbox := [], [];
    }

    /** getValue(key, defaultValue). */
    function GetValue(key: string, defaultValue: Value): (r: Value)
      reads this
      ensures key in backend ==> r == backend[key]
      ensures key !in backend ==> r == defaultValue
    {
      Read(backend, key, defaultValue)
    }

    /** triggerValueChangeListeners(key, oldValue, newValue, remote). */
    method TriggerValueChangeListeners(key: string, oldValue: Value, newValue: Value, remote: bool)
      modifies this`log
      ensures log == old(log) + Notify(listeners, key, key, oldValue, newValue, remote)
    {
      var list := Matching(listeners, key);
      var i := 0;
      while i < |list|
        invariant 0 <= i <= |list|
        invariant log == old(log) + Fire(list[..i], key, oldValue, newValue, remote)
      {
        FireSnoc(list[..i], list[i], key, oldValue, newValue, remote);
        assert list[..i + 1] == list[..i] + [list[i]];
        log := log + [Fired(list[i].id, list[i].callback, key, oldValue, newValue, remote)];
        i := i + 1;
      }
      assert list[..|list|] == list;
    }

    /** updateValue(key, newValue, updater), with the updater given as the write it performs. */
    method UpdateValue(key: string, newValue: Value, w: Write)
      requires Valid()
      modifies this
      ensures Valid() && State() == Update(old(State()), key, newValue, w)
    {
      UpdateInv(State(), key, newValue, w);
      var oldValue := Undefined;
      if !native {
        oldValue := GetValue(key, Undefined);
      }
      backend := Apply(backend, key, w);
      if !native {
        if DeepEqual(oldValue, newValue) {
          return;
        }
        cache := cache[key := newValue];
        TriggerValueChangeListeners(key, oldValue, newValue, false);
        outbox := outbox + [Message(key, oldValue, newValue)];
      }
    }

    /** setValue(key, value). */
    method SetValue(key: string, value: Value)
      requires Valid()
      modifies this
      ensures Valid() && State() == Set(old(State()), key, value)
    {
      if value.Undefined? || value.Null? {
        UpdateValue(key, value, DeleteKey);
      } else {
        UpdateValue(key, value, WriteValue(value));
      }
    }

    /** deleteValue(key). */
    method DeleteValue(key: string)
      requires Valid()
      modifies this
      ensures Valid() && State() == Delete(old(State()), key)
    {
      UpdateValue(key, Undefined, DeleteKey);
    }

    /** startPolling(). */
    method StartPolling()
      modifies this`polling
      ensures State() == PollingStarted(old(State()))
    {
      if polling || native {
        return;
      }
      polling := true;
    }

    /**
      addValueChangeListener(key, callback). `hostId` is the id the host's own
      GM.addValueChangeListener returns in native mode.
     */
    method AddValueChangeListener(key: string, callback: Callback, hostId: int) returns (id: int)
      requires Valid()
      modifies this
      ensures Valid() && State() == AddListener(old(State()), key, callback)
      ensures id == IssuedId(old(State()), hostId)
    {
      AddListenerInv(State(), key, callback);
      if native {
        id := hostId;
        return;
      }
      counter := counter + 1;
      id := counter;
      listeners := listeners + [Entry(id, key, callback)];
      if key !in cache {
        cache := cache[key := GetValue(key, Undefined)];
      }
      StartPolling();
    }

    /** removeValueChangeListener(id). */
    method RemoveValueChangeListener(id: int)
      requires Valid()
      modifies this
      ensures Valid() && State() == RemoveListener(old(State()), id)
    {
      ghost var s0 := State();
      RemoveListenerInv(s0, id);
      if native {
        return;
      }
      var rest := Without(listeners, id);
      if |rest| == 0 && polling {
        listeners, polling, cache := rest, false, map[];
      } else {
        listeners := rest;
      }
      assert State() == RemoveListener(s0, id);
    }

    /** The body of the interval callback for one watched key. */
    method PollOneKey(key: string)
      modifies this
      ensures State() == PollKey(old(State()), key)
    {
      var newValue := GetValue(key, Undefined);
      if key !in cache {
        cache := cache[key := newValue];
        return;
      }
      var oldValue := cache[key];
      if !DeepEqual(oldValue, newValue) {
        cache := cache[key := newValue];
        TriggerValueChangeListeners(key, oldValue, newValue, true);
        outbox := outbox + [Message(key, oldValue, newValue)];
      }
    }

    /** One run of the polling interval's callback. */
    method PollTick()
      requires Valid()
      modifies this
      ensures Valid() && State() == Tick(old(State()))
    {
      ghost var s0 := State();
      TickInv(s0);
      if !polling {
        return;
      }
      var keys := DistinctKeys(listeners);
      assert Tick(s0) == PollKeys(s0, keys);
      var i := 0;
      while i < |keys|
        invariant 0 <= i <= |keys|
        invariant State() == PollKeys(s0, keys[..i])
      {
        PollKeysSnoc(s0, keys, i);
        PollOneKey(keys[i]);
        i := i + 1;
      }
      assert keys[..|keys|] == keys;
    }

    /** The broadcast channel's message handler. */
    method OnMessage(m: Message)
      requires Valid()
      modifies this
      ensures Valid() && State() == Receive(old(State()), m)
    {
      ReceiveInv(State(), m);
      cache := cache[m.key := m.newValue];
      TriggerValueChangeListeners(m.key, m.oldValue, m.newValue, true);
    }
  }
}
