/**
  The localStorage adapter: keys live under the `extension.` namespace,
  values are JSON text, writes are diffed against the stored string and fire
  the matching listeners, and `storage` events from other windows are
  relayed to listeners of namespaced keys.
 */
module LocalStorage {
  import opened Wrappers
  import opened Json
  import opened JsonUtils
  import opened Listeners

  const Prefix: string := "extension."

  predicate HasPrefix(key: string) {
    |Prefix| <= |key| && key[..|Prefix|] == Prefix
  }

  /** getUnnamespacedKey: `key.slice(prefix.length)`, empty for a shorter key. */
  function Unnamespaced(key: string): (r: string)
    ensures |r| == if |key| <= |Prefix| then 0 else |key| - |Prefix|
    ensures HasPrefix(key) ==> key == Prefix + r
  {
    if |key| <= |Prefix| then
      assert HasPrefix(key) ==> key == Prefix;
      ""
    else
      assert HasPrefix(key) ==> key == key[..|Prefix|] + key[|Prefix|..];
      key[|Prefix|..]
  }

  /** getNamespacedKey: the key under the namespace; removing the namespace gives it back. */
  function Namespaced(key: string): (r: string)
    ensures HasPrefix(r) && |r| == |Prefix| + |key|
    ensures Unnamespaced(r) == key
  {
    Prefix + key
  }

  /** The other direction: a key under the namespace is the namespaced form of its remainder. */
  lemma NamespacedOfUnnamespaced(key: string)
    requires HasPrefix(key)
    ensures Namespaced(Unnamespaced(key)) == key
  {
    assert key == key[..|Prefix|] + key[|Prefix|..];
  }

  /** _getValue's normalisation of getItem: a missing item and the string 'undefined' are absent. */
  function Normalise(item: Option<string>): (r: Option<string>)
    ensures r.None? <==> item.None? || item == Some("undefined")
    ensures r.Some? ==> r == item
  {
    match item
    case None => None
    case Some(v) => if v == "undefined" then None else item
  }

  /** An optional string passed to a callback: absent is `undefined`. */
  function AsValue(o: Option<string>): (r: Value)
    ensures r.Undefined? || r.Str?
    ensures o.None? <==> r.Undefined?
    ensures o.Some? ==> r == Str(o.value)
  {
    match o
    case None => Undefined
    case Some(s) => Str(s)
  }

  /** The string setValue stores: none (a removal) for `undefined` and `null`, else the JSON text. */
  function Encode(value: Value, stringify: Value -> string): (r: Option<string>)
    ensures r.None? <==> IsNullish(value)
    ensures r.Some? ==> r.value == stringify(value)
  {
    if IsNullish(value) then None else Some(stringify(value))
  }

  /**
    The `storage` event filter: the event concerns localStorage and carries a
    non-empty key under the namespace.
   */
  predicate Relevant(fromLocalStorage: bool, key: Option<string>): (r: bool)
    ensures r ==> fromLocalStorage && key.Some? && Namespaced(Unnamespaced(key.value)) == key.value
  {
    fromLocalStorage && key.Some? && key.value != "" && HasPrefix(key.value)
  }

  /**
    Exactly the namespaced forms of caller keys pass the filter (for events
    from localStorage), and what a listener is then told is the caller's key.
   */
  lemma RelevantIffNamespaced(key: string)
    ensures Relevant(true, Some(key)) <==> exists k :: Namespaced(k) == key
    ensures Relevant(true, Some(key)) ==> Namespaced(Unnamespaced(key)) == key
  {
    if Relevant(true, Some(key)) {
      NamespacedOfUnnamespaced(key);
    }
  }

  /** Distinct strings: a sequence in which each occurs once. */
  ghost predicate Distinct(s: seq<string>) {
    forall i, j :: 0 <= i < j < |s| ==> s[i] != s[j]
  }

  /** The key order without one key. */
  function Erase(s: seq<string>, x: string): (r: seq<string>)
    ensures forall y :: y in r <==> y in s && y != x
  {
    if s == [] then []
    else
      var init, last := s[..|s| - 1], s[|s| - 1];
      assert s == init + [last];
      Erase(init, x) + (if last == x then [] else [last])
  }

  lemma {:induction false} EraseDistinct(s: seq<string>, x: string)
    requires Distinct(s)
    ensures Distinct(Erase(s, x))
  {
    if s != [] {
      var init, last := s[..|s| - 1], s[|s| - 1];
      EraseDistinct(init, x);
      assert last !in init;
    }
  }

  /** A sequence without repetitions has as many elements as its set of elements. */
  lemma {:induction false} DistinctCard(s: seq<string>)
    requires Distinct(s)
    ensures |set y | y in s| == |s|
  {
    if s != [] {
      var init, last := s[..|s| - 1], s[|s| - 1];
      assert s == init + [last];
      DistinctCard(init);
      assert (set y | y in s) == (set y | y in init) + {last};
      assert last !in init;
    }
  }

  /** The adapter's state in one window: the page's localStorage and the listener registry. */
  class LocalStorageStore {
    var items: map<string, string>   // localStorage contents
    var order: seq<string>           // the order localStorage.key(i) enumerates them in
    var listeners: seq<Entry>        // listeners, in insertion order
    var counter: int                 // listenerIdCounter
    var log: seq<Event>              // every listener invocation made so far

    ghost predicate Valid()
      reads this
    {
      && Distinct(order)
      && (forall k :: k in order <==> k in items)
      && 0 <= counter
      && IdsIncreasing(listeners)
      && IdsIssued(listeners, counter)
    }

    constructor (items: map<string, string>, order: seq<string>)
      requires Distinct(order) && forall k :: k in order <==> k in items
      ensures Valid() && this.items == items && this.order == order
      ensures listeners == [] && counter == 0 && log == []
    {
      this.items := items;
      this.order := order;
      listeners, counter, log := [], 0, [];
    }

    /** localStorage.getItem(key). */
    function GetItem(key: string): Option<string>
      reads this
    {
      if key in items then Some(items[key]) else None
    }

    /** _getValue(key). */
    function StoredValue(key: string): (r: Option<string>)
      reads this
      ensures key !in items ==> r.None?
      ensures key in items ==> (r.None? <==> items[key] == "undefined")
      ensures r.Some? ==> key in items && r.value == items[key]
    {
      Normalise(GetItem(key))
    }

    /** localStorage.setItem(key, value). */
    method SetItem(key: string, value: string)
      requires Valid()
      modifies this`items, this`order
      ensures Valid() && items == old(items)[key := value]
      ensures order == if key in old(items) then old(order) else old(order) + [key]
    {
      if key !in items {
        order := order + [key];
      }
      items := items[key := value];
    }

    /** localStorage.removeItem(key). */
    method RemoveItem(key: string)
      requires Valid()
      modifies this`items, this`order
      ensures Valid() && items == old(items) - {key} && order == Erase(old(order), key)
    {
      EraseDistinct(order, key);
      order := Erase(order, key);
      items := items - {key};
    }

    /** Fires the listeners registered for `key`, as the loops of _setValue and the storage handler do. */
    method Dispatch(key: string, oldValue: Value, newValue: Value, remote: bool)
      modifies this`log
      ensures log == old(log) + Notify(listeners, key, Unnamespaced(key), oldValue, newValue, remote)
    {
      var entries, argKey := listeners, Unnamespaced(key);
      var fired: seq<Event> := [];
      var i := 0;
      while i < |entries|
        invariant 0 <= i <= |entries|
        invariant fired == Notify(entries[..i], key, argKey, oldValue, newValue, remote)
        invariant log == old(log)
      {
        var l := entries[i];
        NotifySnoc(entries[..i], l, key, argKey, oldValue, newValue, remote);
        assert entries[..i + 1] == entries[..i] + [l];
        if l.key == key {
          fired := fired + [Fired(l.id, l.callback, argKey, oldValue, newValue, remote)];
        }
        i := i + 1;
      }
      assert entries[..|entries|] == entries;
      log := log + fired;
    }

    /**
      _setValue(key, value): nothing when the normalised stored string equals
      the new one; otherwise remove or set the item, then fire every listener
      of `key` with the caller's key and `remote = false`.
     */
    method SetValueRaw(key: string, value: Option<string>)
      requires Valid()
      modifies this
      ensures Valid() && listeners == old(listeners) && counter == old(counter)
      ensures old(StoredValue(key)) == value ==>
        items == old(items) && order == old(order) && log == old(log)
      ensures old(StoredValue(key)) != value ==>
        && items == (if value.None? then old(items) - {key} else old(items)[key := value.value])
        && order == (if value.None? then Erase(old(order), key)
                     else if key in old(items) then old(order) else old(order) + [key])
        && log == old(log) + Notify(listeners, key, Unnamespaced(key), AsValue(old(StoredValue(key))), AsValue(value), false)
    {
      var oldValue := StoredValue(key);
      if oldValue == value {
        return;
      }
      if value.None? {
        RemoveItem(key);
      } else {
        SetItem(key, value.value);
      }
      Dispatch(key, AsValue(oldValue), AsValue(value), false);
    }

    /** _addValueChangeListener(key, callback): the next id, one entry appended. */
    method AddListenerRaw(key: string, callback: Callback) returns (id: int)
      requires Valid()
      modifies this`listeners, this`counter
      ensures Valid()
      ensures id == old(counter) + 1 && counter == id
      ensures forall e :: e in old(listeners) ==> e.id < id
      ensures listeners == old(listeners) + [Entry(id, key, callback)]
    {
      counter := counter + 1;
      id := counter;
      forall e | e in listeners ensures e.id < id {
        var i :| 0 <= i < |listeners| && listeners[i] == e;
      }
      listeners := listeners + [Entry(id, key, callback)];
    }

    /**
      The `storage` event handler: for an event from localStorage about a
      namespaced key, fire that key's listeners with the caller's key,
      `null` values as `undefined`, and `remote = true`; otherwise nothing.
     */
    method OnStorage(fromLocalStorage: bool, key: Option<string>,
                     oldValue: Option<string>, newValue: Option<string>)
      modifies this`log
      ensures !Relevant(fromLocalStorage, key) ==> log == old(log)
      ensures Relevant(fromLocalStorage, key) ==>
        log == old(log) + Notify(listeners, key.value, Unnamespaced(key.value), AsValue(oldValue), AsValue(newValue), true)
    {
      if Relevant(fromLocalStorage, key) {
        Dispatch(key.value, AsValue(oldValue), AsValue(newValue), true);
      }
    }

    /** getValue(key, defaultValue). */
    function GetValue(key: string, defaultValue: Value, parse: string -> Option<Value>): (r: Value)
      reads this
      ensures StoredValue(Namespaced(key)).None? ==> r == defaultValue
      ensures StoredValue(Namespaced(key)).Some? ==>
        r == SafeJsonParse(Text(items[Namespaced(key)]), defaultValue, parse)
    {
      SafeJsonParse(FromOptional(StoredValue(Namespaced(key))), defaultValue, parse)
    }

    /** setValue(key, value): `undefined` and `null` remove the item. */
    method SetValue(key: string, value: Value, stringify: Value -> string)
      requires Valid()
      modifies this
      ensures Valid() && listeners == old(listeners) && counter == old(counter)
      ensures var v := Encode(value, stringify); var nk := Namespaced(key);
        && (old(StoredValue(nk)) == v ==> items == old(items) && order == old(order) && log == old(log))
        && (old(StoredValue(nk)) != v ==>
              && items == (if v.None? then old(items) - {nk} else old(items)[nk := v.value])
              && order == (if v.None? then Erase(old(order), nk)
                           else if nk in old(items) then old(order) else old(order) + [nk])
              && log == old(log) + Notify(listeners, nk, key, AsValue(old(StoredValue(nk))), AsValue(v), false))
    {
      SetValueRaw(Namespaced(key), if value.Undefined? || value.Null? then None else Some(stringify(value)));
    }

    /** deleteValue(key): the same call as setValue(key, undefined). */
    method DeleteValue(key: string)
      requires Valid()
      modifies this
      ensures Valid() && listeners == old(listeners) && counter == old(counter)
      ensures var nk := Namespaced(key);
        && (old(StoredValue(nk)).None? ==> items == old(items) && order == old(order) && log == old(log))
        && (old(StoredValue(nk)).Some? ==>
              && items == old(items) - {nk}
              && order == Erase(old(order), nk)
              && log == old(log) + Notify(listeners, nk, key, AsValue(old(StoredValue(nk))), Undefined, false))
    {
      SetValueRaw(Namespaced(key), None);
    }

    /** listValues(): every stored key, in storage order, with the prefix length cut off. */
    method ListValues() returns (keys: seq<string>)
      requires Valid()
      ensures |keys| == |order| == |items|
      ensures forall i :: 0 <= i < |keys| ==> keys[i] == Unnamespaced(order[i])
      ensures forall k :: k in items ==> Unnamespaced(k) in keys
    {
      var length := |order|;
      keys := [];
      var i := 0;
      while i < length
        invariant 0 <= i <= length
        invariant |keys| == i
        invariant forall j :: 0 <= j < i ==> keys[j] == Unnamespaced(order[j])
      {
        keys := keys + [Unnamespaced(order[i])];
        i := i + 1;
      }
      DistinctCard(order);
      assert items.Keys == set y | y in order;
      forall k | k in items ensures Unnamespaced(k) in keys {
        var j :| 0 <= j < |order| && order[j] == k;
        assert keys[j] == Unnamespaced(k);
      }
    }

    /** addValueChangeListener(key, func): a decoding wrapper registered under the namespaced key. */
    method AddValueChangeListener(key: string, fn: nat) returns (id: int)
      requires Valid()
      modifies this`listeners, this`counter
      ensures Valid()
      ensures id == old(counter) + 1 && counter == id
      ensures forall e :: e in old(listeners) ==> e.id < id
      ensures listeners == old(listeners) + [Entry(id, Namespaced(key), JsonDecoding(fn))]
    {
      id := AddListenerRaw(Namespaced(key), JsonDecoding(fn));
    }

    /** removeValueChangeListener(id): deletes that entry only. */
    method RemoveValueChangeListener(id: int)
      requires Valid()
      modifies this`listeners
      ensures Valid() && listeners == Without(old(listeners), id)
      ensures forall e :: e in listeners <==> e in old(listeners) && e.id != id
    {
      WithoutIncreasing(listeners, id);
      WithoutIssued(listeners, id, counter);
      listeners := Without(listeners, id);
    }
  }

  /**
    Writing then reading a caller key gives the value back, provided the codec
    round-trips it and its encoding is not the text 'undefined' (which reads
    as absent); `undefined` and `null` read back as the default.
   */
  lemma GetAfterSet(items: map<string, string>, key: string, value: Value, d: Value, codec: Codec)
    requires !IsNullish(value) ==>
      codec.parse(codec.stringify(value)) == Some(value) && codec.stringify(value) != "undefined"
    ensures var v := Encode(value, codec.stringify); var nk := Namespaced(key);
      var after := if v.None? then items - {nk} else items[nk := v.value];
      var stored := Normalise(if nk in after then Some(after[nk]) else None);
      SafeJsonParse(FromOptional(stored), d, codec.parse) == if IsNullish(value) then d else value
  {
  }
}
