/**
  What the userscript change detector guarantees, stated over the `Store`
  functions of module Userscript: no-op suppression, exactly-once local
  delivery, the polling tick key by key, the interplay of polling and the
  broadcast channel, and the registry's id discipline.
 */
module UserscriptProps {
  import opened Json
  import opened Equality
  import opened Listeners
  import opened Userscript

  /** The invocations among `evs` made for `key`. */
  function EventsFor(evs: seq<Event>, key: string): seq<Event> {
    if evs == [] then [] else
    EventsFor(evs[..|evs| - 1], key) + (if evs[|evs| - 1].key == key then [evs[|evs| - 1]] else [])
  }

  /** The messages among `ms` posted for `key`. */
  function MessagesFor(ms: seq<Message>, key: string): seq<Message> {
    if ms == [] then [] else
    MessagesFor(ms[..|ms| - 1], key) + (if ms[|ms| - 1].key == key then [ms[|ms| - 1]] else [])
  }

  lemma {:induction false} EventsForAppend(a: seq<Event>, b: seq<Event>, key: string)
    ensures EventsFor(a + b, key) == EventsFor(a, key) + EventsFor(b, key)
    decreases |b|
  {
    if b == [] {
      assert a + b == a;
    } else {
      assert (a + b)[..|a + b| - 1] == a + b[..|b| - 1];
      assert (a + b)[|a + b| - 1] == b[|b| - 1];
      EventsForAppend(a, b[..|b| - 1], key);
    }
  }

  lemma {:induction false} MessagesForAppend(a: seq<Message>, b: seq<Message>, key: string)
    ensures MessagesFor(a + b, key) == MessagesFor(a, key) + MessagesFor(b, key)
    decreases |b|
  {
    if b == [] {
      assert a + b == a;
    } else {
      assert (a + b)[..|a + b| - 1] == a + b[..|b| - 1];
      assert (a + b)[|a + b| - 1] == b[|b| - 1];
      MessagesForAppend(a, b[..|b| - 1], key);
    }
  }

  /** Invocations all made for one key are kept whole for that key and vanish for any other. */
  lemma {:induction false} EventsForUniform(evs: seq<Event>, key: string, k: string)
    requires forall ev :: ev in evs ==> ev.key == key
    ensures EventsFor(evs, k) == if k == key then evs else []
  {
    if evs != [] {
      EventsForUniform(evs[..|evs| - 1], key, k);
      assert evs == evs[..|evs| - 1] + [evs[|evs| - 1]];
    }
  }

  lemma EventsForNotify(entries: seq<Entry>, key: string, k: string,
                        oldValue: Value, newValue: Value, remote: bool)
    ensures EventsFor(Notify(entries, key, key, oldValue, newValue, remote), k) ==
      if k == key then Notify(entries, key, key, oldValue, newValue, remote) else []
  {
    NotifyKeys(entries, key, key, oldValue, newValue, remote);
    EventsForUniform(Notify(entries, key, key, oldValue, newValue, remote), key, k);
  }

  /** A dispatch for `key` calls somebody as soon as some listener watches `key`. */
  lemma NotifyNonEmpty(entries: seq<Entry>, key: string, oldValue: Value, newValue: Value, remote: bool)
    requires IdsIncreasing(entries) && key in KeysOf(entries)
    ensures Notify(entries, key, key, oldValue, newValue, remote) != []
  {
    var e :| e in entries && e.key == key;
    NotifyExactlyMatching(entries, key, key, oldValue, newValue, remote);
  }

  /** The value a polling tick reads for `key`. */
  function Current(s: Store, key: string): Value {
    Read(s.backend, key, Undefined)
  }

  /** `key` is cached and its cached value is no longer what the host store holds. */
  predicate Stale(s: Store, key: string) {
    key in s.cache && !DeepEqual(s.cache[key], Current(s, key))
  }

  /** What one key of a tick does to the cache, seen from any key `k`. */
  lemma PollKeyCache(u: Store, key: string, k: string)
    ensures var t := PollKey(u, key);
      && (k == key ==> k in t.cache && t.cache[k] == Current(u, key))
      && (k != key ==> (k in t.cache <==> k in u.cache) && (k in u.cache ==> t.cache[k] == u.cache[k]))
  {
    if key in u.cache {
      DeepEqualIsEquality(u.cache[key], Current(u, key));
    }
  }

  /** What one key of a tick fires and posts, seen from any key `k`. */
  lemma PollKeyOutput(u: Store, key: string, k: string)
    ensures var t := PollKey(u, key);
      && EventsFor(t.log[|u.log|..], k) ==
           (if k == key && Stale(u, key)
            then Notify(u.listeners, key, key, u.cache[key], Current(u, key), true) else [])
      && MessagesFor(t.outbox[|u.outbox|..], k) ==
           (if k == key && Stale(u, key) then [Message(key, u.cache[key], Current(u, key))] else [])
  {
    var t := PollKey(u, key);
    if Stale(u, key) {
      assert t.log[|u.log|..] == Notify(u.listeners, key, key, u.cache[key], Current(u, key), true);
      assert t.outbox[|u.outbox|..] == [Message(key, u.cache[key], Current(u, key))];
      EventsForNotify(u.listeners, key, k, u.cache[key], Current(u, key), true);
    } else {
      assert t.log[|u.log|..] == [] && t.outbox[|u.outbox|..] == [];
    }
  }

  /**
    The cache after a tick over distinct keys: a visited key holds the host's
    value, any other key is as it was.
   */
  lemma {:induction false} PollKeysCache(s: Store, keys: seq<string>, k: string)
    ensures var t := PollKeys(s, keys);
      && (k in keys ==> k in t.cache && t.cache[k] == Current(s, k))
      && (k !in keys ==> (k in t.cache <==> k in s.cache) && (k in s.cache ==> t.cache[k] == s.cache[k]))
  {
    if keys != [] {
      var init, last := keys[..|keys| - 1], keys[|keys| - 1];
      assert keys == init + [last];
      PollKeysCache(s, init, k);
      PollKeyCache(PollKeys(s, init), last, k);
    }
  }

  /** The round of notifications a tick makes for a visited key `k` of `s`. */
  function TickEvents(s: Store, k: string): seq<Event> {
    if Stale(s, k) then Notify(s.listeners, k, k, s.cache[k], Current(s, k), true) else []
  }

  /** The message a tick posts for a visited key `k` of `s`. */
  function TickMessages(s: Store, k: string): seq<Message> {
    if Stale(s, k) then [Message(k, s.cache[k], Current(s, k))] else []
  }

  /** Before a tick visits `k`, the keys visited earlier have not touched what it sees of `k`. */
  lemma {:induction false} PollKeysKeepsOthers(s: Store, keys: seq<string>, k: string)
    requires k !in keys
    ensures TickEvents(PollKeys(s, keys), k) == TickEvents(s, k)
    ensures TickMessages(PollKeys(s, keys), k) == TickMessages(s, k)
  {
    PollKeysCache(s, keys, k);
  }

  /** The part of `c` after `a`, cut where `b` ends. */
  lemma SliceSplit<T>(a: seq<T>, b: seq<T>, c: seq<T>)
    requires a <= b <= c
    ensures c[|a|..] == b[|a|..] + c[|b|..]
  {
  }

  /** Taking the last key off a sequence of distinct keys. */
  lemma DistinctSnoc(keys: seq<string>)
    requires keys != [] && forall i, j :: 0 <= i < j < |keys| ==> keys[i] != keys[j]
    ensures var init, last := keys[..|keys| - 1], keys[|keys| - 1];
      && last !in init
      && (forall i, j :: 0 <= i < j < |init| ==> init[i] != init[j])
      && (forall x :: x in keys <==> x in init || x == last)
  {
    var init, last := keys[..|keys| - 1], keys[|keys| - 1];
    assert keys == init + [last];
  }

  /** Visiting `last` after the keys `init` adds its own round of notifications to what `init` fired. */
  lemma PollKeysEventsStep(s: Store, init: seq<string>, last: string, k: string)
    requires last !in init
    ensures var u := PollKeys(s, init);
      EventsFor(PollKey(u, last).log[|s.log|..], k) ==
        EventsFor(u.log[|s.log|..], k) + (if k == last then TickEvents(s, k) else [])
  {
    var u := PollKeys(s, init);
    var t := PollKey(u, last);
    assert t.log[|s.log|..] == u.log[|s.log|..] + t.log[|u.log|..] by {
      SliceSplit(s.log, u.log, t.log);
    }
    assert EventsFor(t.log[|u.log|..], k) == if k == last then TickEvents(s, k) else [] by {
      PollKeyOutput(u, last, k);
      if k == last {
        PollKeysKeepsOthers(s, init, k);
      }
    }
    EventsForAppend(u.log[|s.log|..], t.log[|u.log|..], k);
  }


  /** Visiting `last` after the keys `init` adds its own message to what `init` posted. */
  lemma PollKeysMessagesStep(s: Store, init: seq<string>, last: string, k: string)
    requires last !in init
    ensures var u := PollKeys(s, init);
      MessagesFor(PollKey(u, last).outbox[|s.outbox|..], k) ==
        MessagesFor(u.outbox[|s.outbox|..], k) + (if k == last then TickMessages(s, k) else [])
  {
    var u := PollKeys(s, init);
    var t := PollKey(u, last);
    assert t.outbox[|s.outbox|..] == u.outbox[|s.outbox|..] + t.outbox[|u.outbox|..] by {
      SliceSplit(s.outbox, u.outbox, t.outbox);
    }
    assert MessagesFor(t.outbox[|u.outbox|..], k) == if k == last then TickMessages(s, k) else [] by {
      PollKeyOutput(u, last, k);
      if k == last {
        PollKeysKeepsOthers(s, init, k);
      }
    }
    MessagesForAppend(u.outbox[|s.outbox|..], t.outbox[|u.outbox|..], k);
  }


  /**
    What a tick over distinct keys fires for a key `k`: exactly one round of
    notifications when `k` is visited and its cached value was stale, nothing
    otherwise.
   */
  lemma {:induction false} PollKeysEvents(s: Store, keys: seq<string>, k: string)
    requires forall i, j :: 0 <= i < j < |keys| ==> keys[i] != keys[j]
    ensures EventsFor(PollKeys(s, keys).log[|s.log|..], k) == if k in keys then TickEvents(s, k) else []
  {
    if keys == [] {
      assert PollKeys(s, keys).log[|s.log|..] == [];
    } else {
      var init, last := keys[..|keys| - 1], keys[|keys| - 1];
      DistinctSnoc(keys);
      PollKeysEvents(s, init, k);
      PollKeysEventsStep(s, init, last, k);
    }
  }

  /** What a tick over distinct keys posts for a key `k`: one message exactly when `k` was stale. */
  lemma {:induction false} PollKeysMessages(s: Store, keys: seq<string>, k: string)
    requires forall i, j :: 0 <= i < j < |keys| ==> keys[i] != keys[j]
    ensures MessagesFor(PollKeys(s, keys).outbox[|s.outbox|..], k) == if k in keys then TickMessages(s, k) else []
  {
    if keys == [] {
      assert PollKeys(s, keys).outbox[|s.outbox|..] == [];
    } else {
      var init, last := keys[..|keys| - 1], keys[|keys| - 1];
      DistinctSnoc(keys);
      PollKeysMessages(s, init, k);
      PollKeysMessagesStep(s, init, last, k);
    }
  }

  /**
    A polling tick, for every watched key `k`: an uncached key is seeded with
    the host's value and fires nothing; a cached key whose value changed (for
    instance because another context wrote it) is updated, fired once per
    listener with `remote = true` and broadcast once; an unchanged key does
    nothing.
   */
  lemma TickPerKey(s: Store, k: string)
    requires Inv(s) && s.polling && k in KeysOf(s.listeners)
    ensures var t := Tick(s);
      && k in t.cache && t.cache[k] == Current(s, k)
      && EventsFor(t.log[|s.log|..], k) ==
           (if Stale(s, k) then Notify(s.listeners, k, k, s.cache[k], Current(s, k), true) else [])
      && MessagesFor(t.outbox[|s.outbox|..], k) ==
           (if Stale(s, k) then [Message(k, s.cache[k], Current(s, k))] else [])
  {
    PollKeysCache(s, DistinctKeys(s.listeners), k);
    PollKeysEvents(s, DistinctKeys(s.listeners), k);
    PollKeysMessages(s, DistinctKeys(s.listeners), k);
  }

  /** A tick over keys whose cached values are current changes nothing. */
  lemma {:induction false} PollKeysQuiet(s: Store, keys: seq<string>)
    requires forall k :: k in keys ==> k in s.cache && s.cache[k] == Current(s, k)
    ensures PollKeys(s, keys) == s
  {
    if keys != [] {
      var init, last := keys[..|keys| - 1], keys[|keys| - 1];
      assert forall k :: k in init ==> k in keys;
      PollKeysQuiet(s, init);
      Reflexive(s.cache[last]);
    }
  }

  /**
    Polling is idempotent: a second tick with no write in between finds every
    watched key current and changes nothing at all, so a remote change is
    delivered once however many ticks observe it.
   */
  lemma TickIdempotent(s: Store)
    requires Inv(s)
    ensures Tick(Tick(s)) == Tick(s)
  {
    if s.polling {
      var keys := DistinctKeys(s.listeners);
      var t := Tick(s);
      forall k | k in keys
        ensures k in t.cache && t.cache[k] == Current(t, k)
      {
        PollKeysCache(s, keys, k);
      }
      PollKeysQuiet(t, keys);
    }
  }

  /**
    A message from another context updates the cache and fires every
    listener of its key once with `remote = true`; it never posts a message.
   */
  lemma ReceiveFiresRemote(s: Store, m: Message)
    requires Inv(s)
    ensures var t := Receive(s, m);
      && t.outbox == s.outbox && t.backend == s.backend
      && m.key in t.cache && t.cache[m.key] == m.newValue
      && (forall e :: e in s.listeners && e.key == m.key ==>
            Fired(e.id, e.callback, m.key, m.oldValue, m.newValue, true) in t.log[|s.log|..])
      && (forall ev :: ev in t.log[|s.log|..] ==>
            Entry(ev.listenerId, m.key, ev.callback) in s.listeners && ev.remote)
      && (forall i, j :: |s.log| <= i < j < |t.log| ==> t.log[i].listenerId < t.log[j].listenerId)
  {
    var t := Receive(s, m);
    assert t.log[|s.log|..] == Notify(s.listeners, m.key, m.key, m.oldValue, m.newValue, true);
    NotifyExactlyMatching(s.listeners, m.key, m.key, m.oldValue, m.newValue, true);
  }

  /**
    Relay first, then polling: when the message carries the value the host
    now holds, the next tick does not fire that key again.
   */
  lemma ReceiveThenTickIsQuiet(s: Store, m: Message)
    requires Inv(s) && s.polling && m.key in KeysOf(s.listeners)
    requires Current(s, m.key) == m.newValue
    ensures var r := Receive(s, m);
      EventsFor(Tick(r).log[|r.log|..], m.key) == [] &&
      MessagesFor(Tick(r).outbox[|r.outbox|..], m.key) == []
  {
    var r := Receive(s, m);
    ReceiveInv(s, m);
    Reflexive(m.newValue);
    TickPerKey(r, m.key);
  }

  /**
    Polling first, then the relay: the message handler does not compare with
    the cache, so a change that a tick already delivered is delivered a second
    time when the writer's message arrives; the tick also re-broadcasts it.
   */
  lemma TickThenReceiveFiresTwice(s: Store, k: string)
    requires Inv(s) && s.polling && k in KeysOf(s.listeners) && Stale(s, k)
    ensures var once := Notify(s.listeners, k, k, s.cache[k], Current(s, k), true);
      var t := Receive(Tick(s), Message(k, s.cache[k], Current(s, k)));
      && once != []
      && EventsFor(t.log[|s.log|..], k) == once + once
      && MessagesFor(t.outbox[|s.outbox|..], k) == [Message(k, s.cache[k], Current(s, k))]
  {
    var m := Message(k, s.cache[k], Current(s, k));
    var once := Notify(s.listeners, k, k, m.oldValue, m.newValue, true);
    var u := Tick(s);
    var t := Receive(u, m);
    assert u.listeners == s.listeners && s.log <= u.log;
    assert t.log[|s.log|..] == u.log[|s.log|..] + once && t.outbox == u.outbox;
    assert EventsFor(u.log[|s.log|..], k) == once && MessagesFor(u.outbox[|s.outbox|..], k) == [m] by {
      TickPerKey(s, k);
    }
    NotifyNonEmpty(s.listeners, k, m.oldValue, m.newValue, true);
    EventsForAppend(u.log[|s.log|..], once, k);
    EventsForNotify(s.listeners, k, k, m.oldValue, m.newValue, true);
  }

  /**
    No-op suppression: a write whose value deep-equals the value just read
    fires nothing, posts nothing and leaves the cache alone; for a value
    that is not `undefined` or `null` it changes nothing at all.
   */
  lemma NoOpWriteIsSilent(s: Store, key: string, value: Value)
    requires !s.native && DeepEqual(Current(s, key), value)
    ensures var t := Set(s, key, value);
      && t.log == s.log && t.outbox == s.outbox && t.cache == s.cache && t.listeners == s.listeners
      && (!IsNullish(value) ==> t == s)
  {
    DeepEqualIsEquality(Current(s, key), value);
    if !IsNullish(value) {
      assert s.backend[key := value] == s.backend;
    }
  }

  /**
    A real change on the write path: the cache takes the new value, every
    listener of the key is called exactly once (ids strictly increasing) with
    `remote = false` and nobody else, and exactly one message is posted.
   */
  lemma ChangeFiresEachListenerOnce(s: Store, key: string, value: Value)
    requires Inv(s) && !s.native && !DeepEqual(Current(s, key), value)
    ensures var t := Set(s, key, value); var o := Current(s, key);
      && t.cache == s.cache[key := value]
      && t.outbox == s.outbox + [Message(key, o, value)]
      && (forall e :: e in s.listeners && e.key == key ==>
            Fired(e.id, e.callback, key, o, value, false) in t.log[|s.log|..])
      && (forall ev :: ev in t.log[|s.log|..] ==>
            Entry(ev.listenerId, key, ev.callback) in s.listeners && !ev.remote &&
            ev.oldValue == o && ev.newValue == value)
      && (forall i, j :: |s.log| <= i < j < |t.log| ==> t.log[i].listenerId < t.log[j].listenerId)
  {
    var t := Set(s, key, value);
    assert t.log[|s.log|..] == Notify(s.listeners, key, key, Current(s, key), value, false);
    NotifyExactlyMatching(s.listeners, key, key, Current(s, key), value, false);
  }

  /**
    A local change is not delivered a second time by polling: after a write
    that changed the key, of any value but `null` (`undefined`, which is
    deleteValue, included), the next tick fires nothing for it. `null` is the
    exception because the cache is told `null` while the host store is left
    without the key (SetNullOnAbsentKeyFiresTwice).
   */
  lemma LocalWriteNotRepolled(s: Store, key: string, value: Value)
    requires Inv(s) && !s.native && s.polling && key in KeysOf(s.listeners)
    requires !value.Null? && !DeepEqual(Current(s, key), value)
    ensures var t := Set(s, key, value);
      EventsFor(Tick(t).log[|t.log|..], key) == [] && MessagesFor(Tick(t).outbox[|t.outbox|..], key) == []
  {
    var t := Set(s, key, value);
    UpdateInv(s, key, value, if value.Undefined? then DeleteKey else WriteValue(value));
    Reflexive(value);
    TickPerKey(t, key);
  }

  /**
    `null` deletes the key but is what listeners and the cache are told: on an
    absent key, setValue(key, null) stores nothing yet fires the listeners
    with `undefined -> null`, and the next tick reads `undefined` back and
    fires them again with `null -> undefined` and `remote = true`.
   */
  lemma SetNullOnAbsentKeyFiresTwice(s: Store, key: string)
    requires Inv(s) && !s.native && key !in s.backend && key in KeysOf(s.listeners)
    ensures var t := Set(s, key, Null);
      && t.backend == s.backend
      && t.log == s.log + Notify(s.listeners, key, key, Undefined, Null, false)
      && Notify(s.listeners, key, key, Undefined, Null, false) != []
      && EventsFor(Tick(t).log[|t.log|..], key) == Notify(s.listeners, key, key, Null, Undefined, true)
  {
    var t := Set(s, key, Null);
    assert t == s.(cache := s.cache[key := Null],
                   log := s.log + Notify(s.listeners, key, key, Undefined, Null, false),
                   outbox := s.outbox + [Message(key, Undefined, Null)]) by {
      assert s.backend - {key} == s.backend;
    }
    assert Inv(t) && t.polling && key in KeysOf(t.listeners) by {
      UpdateInv(s, key, Null, DeleteKey);
    }
    assert Stale(t, key) && Current(t, key) == Undefined;
    NotifyNonEmpty(s.listeners, key, Undefined, Null, false);
    TickPerKey(t, key);
  }

  /** setValue(key, undefined) is deleteValue(key) in every respect, in every state. */
  lemma UndefinedWriteIsDelete(s: Store, key: string)
    ensures Set(s, key, Undefined) == Delete(s, key)
    ensures Set(s, key, Undefined).backend == s.backend - {key}
  {
  }

  /**
    setValue(key, null) removes the same entry as deleteValue(key), but where
    the key held a value its listeners are told the new value is `null`
    rather than `undefined`.
   */
  lemma DeletionForms(s: Store, key: string)
    requires !s.native && key in s.backend && !s.backend[key].Null? && !s.backend[key].Undefined?
    ensures Set(s, key, Undefined) == Delete(s, key)
    ensures Set(s, key, Null).backend == Delete(s, key).backend == s.backend - {key}
    ensures Set(s, key, Null).log == s.log + Notify(s.listeners, key, key, s.backend[key], Null, false)
    ensures Delete(s, key).log == s.log + Notify(s.listeners, key, key, s.backend[key], Undefined, false)
  {
  }

  /**
    Registration outside native mode issues an id above every id issued so
    far, appends exactly one entry, caches the key and starts polling.
   */
  lemma AddListenerIssuesFreshId(s: Store, key: string, callback: Callback, hostId: int)
    requires Inv(s) && !s.native
    ensures var id := IssuedId(s, hostId); var t := AddListener(s, key, callback);
      && id > s.counter
      && (forall e :: e in s.listeners ==> e.id < id)
      && t.listeners == s.listeners + [Entry(id, key, callback)]
      && t.counter == id
      && key in t.cache && (key in s.cache ==> t.cache[key] == s.cache[key])
      && (key !in s.cache ==> t.cache[key] == Current(s, key))
      && t.polling && Inv(t)
  {
    AddListenerInv(s, key, callback);
    var id := IssuedId(s, hostId);
    forall e | e in s.listeners ensures e.id < id {
      var i :| 0 <= i < |s.listeners| && s.listeners[i] == e;
    }
  }

  /**
    Removal deletes the entry with that id and no other; an unknown id
    changes nothing. When the last listener goes, polling stops and the cache
    is emptied.
   */
  lemma RemoveListenerDeletesOnlyId(s: Store, id: int)
    requires Inv(s) && !s.native
    ensures var t := RemoveListener(s, id);
      && (forall e :: e in t.listeners <==> e in s.listeners && e.id != id)
      && ((forall e :: e in s.listeners ==> e.id != id) ==> t == s)
      && (s.listeners != [] && t.listeners == [] ==> !t.polling && t.cache == map[])
      && (t.listeners != [] ==> t.cache == s.cache && t.polling)
      && Inv(t)
  {
    RemoveListenerInv(s, id);
  }

  /** A removed listener is never called again, even by a message that arrives afterwards. */
  lemma RemovedListenerStaysSilent(s: Store, id: int, m: Message)
    requires Inv(s)
    ensures var t := RemoveListener(s, id);
      forall ev :: ev in Receive(t, m).log[|t.log|..] ==> ev.listenerId != id
  {
    var t := RemoveListener(s, id);
    RemoveListenerInv(s, id);
    NotifyExactlyMatching(t.listeners, m.key, m.key, m.oldValue, m.newValue, true);
    assert Receive(t, m).log[|t.log|..] == Notify(t.listeners, m.key, m.key, m.oldValue, m.newValue, true);
  }

  /** startPolling is idempotent, and does nothing when the host notifies natively. */
  lemma StartPollingIdempotent(s: Store)
    ensures PollingStarted(PollingStarted(s)) == PollingStarted(s)
    ensures s.native || s.polling ==> PollingStarted(s) == s
  {
  }
}
