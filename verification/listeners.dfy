/**
  The listener registry shared by the userscript and the localStorage stores:
  a JavaScript `Map` from id to `{key, callback}`, iterated in insertion
  order, and the notifications a dispatch over it produces.
 */
module Listeners {
  import opened Json
  import opened JsonUtils

  /**
    The identity of a callback function (functions compare by reference).
    `JsonDecoding(fn)` is the wrapper closure the string-encoding layers
    register around the caller's `fn`.
   */
  datatype Callback = Plain(fn: nat) | JsonDecoding(fn: nat)

  /** One registry entry, `id -> {key, callback}`. */
  datatype Entry = Entry(id: int, key: string, callback: Callback)

  /** One invocation `callback(key, oldValue, newValue, remote)` of a registered listener. */
  datatype Event = Fired(
    listenerId: int, callback: Callback,
    key: string, oldValue: Value, newValue: Value, remote: bool)

  /** What the caller's own function receives once a wrapper has decoded the arguments. */
  datatype Call = Call(fn: nat, key: string, oldValue: Value, newValue: Value, remote: bool)

  /**
    Entries appear in strictly increasing id order. Ids come from a counter
    that only grows and `Map.set` with a fresh id appends, so insertion order
    is id order.
   */
  ghost predicate IdsIncreasing(entries: seq<Entry>) {
    forall i, j :: 0 <= i < j < |entries| ==> entries[i].id < entries[j].id
  }

  /** Every id in the registry was issued by a counter now at `counter`. */
  ghost predicate IdsIssued(entries: seq<Entry>, counter: int) {
    forall i :: 0 <= i < |entries| ==> 0 < entries[i].id <= counter
  }

  /** `Array.from(listeners.values()).filter((l) => l.key === key)`. */
  function Matching(entries: seq<Entry>, key: string): (r: seq<Entry>)
    ensures forall e :: e in r <==> e in entries && e.key == key
  {
    if entries == [] then []
    else
      var init, last := entries[..|entries| - 1], entries[|entries| - 1];
      assert entries == init + [last];
      Matching(init, key) + (if last.key == key then [last] else [])
  }

  /** Filtering keeps registry order. */
  lemma {:induction false} MatchingIncreasing(entries: seq<Entry>, key: string)
    requires IdsIncreasing(entries)
    ensures IdsIncreasing(Matching(entries, key))
  {
    if entries != [] {
      var init, last := entries[..|entries| - 1], entries[|entries| - 1];
      MatchingIncreasing(init, key);
      forall e | e in Matching(init, key) ensures e.id < last.id {
        var i :| 0 <= i < |init| && init[i] == e;
      }
    }
  }

  /** The invocations for an already filtered list, one per entry, in list order. */
  function Fire(list: seq<Entry>, argKey: string, oldValue: Value, newValue: Value, remote: bool): (r: seq<Event>)
    ensures |r| == |list|
    ensures forall i :: 0 <= i < |r| ==> r[i].listenerId == list[i].id && r[i].callback == list[i].callback
  {
    seq(|list|, i requires 0 <= i < |list| =>
      Fired(list[i].id, list[i].callback, argKey, oldValue, newValue, remote))
  }

  /**
    The invocations a dispatch for `key` makes: every listener registered for
    `key`, in registry order, each called with `argKey`, the two values and
    the `remote` flag.
   */
  function Notify(entries: seq<Entry>, key: string, argKey: string,
                  oldValue: Value, newValue: Value, remote: bool): (r: seq<Event>)
    ensures |r| == |Matching(entries, key)|
  {
    Fire(Matching(entries, key), argKey, oldValue, newValue, remote)
  }

  /**
    A dispatch calls exactly the listeners registered for `key`: each of them
    once (the listener ids of the calls strictly increase, which is registry
    order), none registered for another key, and every call carries the same
    key, values and flag.
   */
  lemma {:induction false} NotifyExactlyMatching(entries: seq<Entry>, key: string, argKey: string,
                                                 oldValue: Value, newValue: Value, remote: bool)
    requires IdsIncreasing(entries)
    ensures var evs := Notify(entries, key, argKey, oldValue, newValue, remote);
      && (forall i, j :: 0 <= i < j < |evs| ==> evs[i].listenerId < evs[j].listenerId)
      && (forall e :: e in entries && e.key == key ==>
            Fired(e.id, e.callback, argKey, oldValue, newValue, remote) in evs)
      && (forall ev :: ev in evs ==>
            && Entry(ev.listenerId, key, ev.callback) in entries
            && ev.key == argKey && ev.oldValue == oldValue
            && ev.newValue == newValue && ev.remote == remote)
  {
    MatchingIncreasing(entries, key);
    var m := Matching(entries, key);
    var evs := Notify(entries, key, argKey, oldValue, newValue, remote);
    forall e | e in entries && e.key == key
      ensures Fired(e.id, e.callback, argKey, oldValue, newValue, remote) in evs
    {
      var i :| 0 <= i < |m| && m[i] == e;
      assert evs[i] == Fired(e.id, e.callback, argKey, oldValue, newValue, remote);
    }
    forall ev | ev in evs
      ensures Entry(ev.listenerId, key, ev.callback) in entries
    {
      var i :| 0 <= i < |evs| && evs[i] == ev;
      assert m[i] in m;
    }
  }

  /** One step of a dispatch loop: appending an entry adds at most its own call. */
  lemma NotifySnoc(entries: seq<Entry>, e: Entry, key: string, argKey: string,
                   oldValue: Value, newValue: Value, remote: bool)
    ensures Notify(entries + [e], key, argKey, oldValue, newValue, remote) ==
      Notify(entries, key, argKey, oldValue, newValue, remote) +
      (if e.key == key then [Fired(e.id, e.callback, argKey, oldValue, newValue, remote)] else [])
  {
    assert (entries + [e])[..|entries|] == entries;
  }

  /** One step over an already filtered list. */
  lemma FireSnoc(list: seq<Entry>, e: Entry, argKey: string, oldValue: Value, newValue: Value, remote: bool)
    ensures Fire(list + [e], argKey, oldValue, newValue, remote) ==
      Fire(list, argKey, oldValue, newValue, remote) + [Fired(e.id, e.callback, argKey, oldValue, newValue, remote)]
  {
  }

  /** Every call of a dispatch names the key it was made for. */
  lemma NotifyKeys(entries: seq<Entry>, key: string, argKey: string,
                   oldValue: Value, newValue: Value, remote: bool)
    ensures forall ev :: ev in Notify(entries, key, argKey, oldValue, newValue, remote) ==> ev.key == argKey
  {
  }

  /** `listeners.delete(id)`: the registry without the entry for `id`. */
  function Without(entries: seq<Entry>, id: int): (r: seq<Entry>)
    ensures forall e :: e in r <==> e in entries && e.id != id
    ensures (forall e :: e in entries ==> e.id != id) ==> r == entries
  {
    if entries == [] then []
    else
      var init, last := entries[..|entries| - 1], entries[|entries| - 1];
      assert entries == init + [last];
      Without(init, id) + (if last.id != id then [last] else [])
  }

  /** Deleting an entry keeps the others in registry order. */
  lemma {:induction false} WithoutIncreasing(entries: seq<Entry>, id: int)
    requires IdsIncreasing(entries)
    ensures IdsIncreasing(Without(entries, id))
  {
    if entries != [] {
      var init, last := entries[..|entries| - 1], entries[|entries| - 1];
      WithoutIncreasing(init, id);
      forall e | e in Without(init, id) ensures e.id < last.id {
        var i :| 0 <= i < |init| && init[i] == e;
      }
    }
  }

  /** Deleting an entry keeps every remaining id among the issued ones. */
  lemma WithoutIssued(entries: seq<Entry>, id: int, counter: int)
    requires IdsIssued(entries, counter)
    ensures IdsIssued(Without(entries, id), counter)
  {
    var w := Without(entries, id);
    assert forall i :: 0 <= i < |w| ==> w[i] in entries;
  }

  /**
    What the caller's function receives for one invocation. A plain callback
    gets the raw arguments; the decoding wrapper passes the same key and flag
    and decodes both values with safeJsonParseWithFallback, which hands back a
    value whose text does not parse as it was.
   */
  function Deliver(ev: Event, codec: Codec): (c: Call)
    ensures c.fn == ev.callback.fn && c.key == ev.key && c.remote == ev.remote
    ensures ev.callback.Plain? ==> c.oldValue == ev.oldValue && c.newValue == ev.newValue
    ensures ev.callback.JsonDecoding? ==>
      && c.oldValue == ParseWithFallback(ev.oldValue, codec)
      && c.newValue == ParseWithFallback(ev.newValue, codec)
  {
    match ev.callback
    case Plain(fn) => Call(fn, ev.key, ev.oldValue, ev.newValue, ev.remote)
    case JsonDecoding(fn) =>
      Call(fn, ev.key,
           ParseWithFallback(ev.oldValue, codec),
           ParseWithFallback(ev.newValue, codec),
           ev.remote)
  }
}
