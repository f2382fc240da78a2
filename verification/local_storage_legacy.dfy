/**
  The older localStorage adapter: raw keys, a per-key array of listener
  functions, and an unsubscribe closure that splices every occurrence of its
  function out of that array.
 */
module LegacyLocalStorage {
  import opened Wrappers
  import opened Json
  import LocalStorage

  /** A listener function; functions compare by reference, so by this identity. */
  type Func = int

  /** One call `func(key, oldValue, newValue)`; a missing item reads as `null` (None). */
  datatype Call = Call(func: Func, key: string, oldValue: Option<string>, newValue: string)

  /** The closure _addValueChangeListener returns, with the key and function it captured. */
  datatype Unsubscriber = Unsubscriber(key: string, func: Func)

  /** What getValue does: return a value, or let the exception of `JSON.parse` escape. */
  datatype Outcome = Returned(value: Value) | Threw

  /** The calls one dispatch makes: every function of the list, in list order. */
  function Calls(funcs: seq<Func>, key: string, oldValue: Option<string>, newValue: string): (r: seq<Call>)
    ensures |r| == |funcs|
    ensures forall i :: 0 <= i < |r| ==> r[i].func == funcs[i]
    ensures forall c :: c in r ==> c.key == key && c.oldValue == oldValue && c.newValue == newValue
  {
    seq(|funcs|, i requires 0 <= i < |funcs| => Call(funcs[i], key, oldValue, newValue))
  }

  /**
    `list` with every occurrence of `f` taken out and the rest in their order;
    with RemoveAllAbsent, removing twice is removing once.
   */
  function RemoveAll(list: seq<Func>, f: Func): (r: seq<Func>)
    ensures |r| <= |list|
  {
    if list == [] then []
    else
      assert list == [list[0]] + list[1..];
      (if list[0] == f then [] else [list[0]]) + RemoveAll(list[1..], f)
  }

  /** No occurrence of the function is left. */
  lemma {:induction false} RemoveAllRemoves(list: seq<Func>, f: Func)
    ensures f !in RemoveAll(list, f)
  {
    if list != [] {
      RemoveAllRemoves(list[1..], f);
    }
  }

  /** A list without the function is left as it is, so removing twice is removing once. */
  lemma {:induction false} RemoveAllAbsent(list: seq<Func>, f: Func)
    requires f !in list
    ensures RemoveAll(list, f) == list
  {
    if list != [] {
      assert list == [list[0]] + list[1..];
      RemoveAllAbsent(list[1..], f);
    }
  }

  /** Every other function keeps its number of occurrences. */
  lemma {:induction false} RemoveAllCounts(list: seq<Func>, f: Func, g: Func)
    requires g != f
    ensures multiset(RemoveAll(list, f))[g] == multiset(list)[g]
  {
    if list != [] {
      var head := if list[0] == f then [] else [list[0]];
      RemoveAllCounts(list[1..], f, g);
      assert multiset(RemoveAll(list, f)) == multiset(head) + multiset(RemoveAll(list[1..], f));
      assert list == [list[0]] + list[1..];
      assert multiset(list) == multiset([list[0]]) + multiset(list[1..]);
    }
  }

  /** Removal distributes over concatenation, so the survivors keep their relative order. */
  lemma {:induction false} RemoveAllAppend(a: seq<Func>, b: seq<Func>, f: Func)
    ensures RemoveAll(a + b, f) == RemoveAll(a, f) + RemoveAll(b, f)
  {
    if a == [] {
      assert a + b == b;
    } else {
      assert (a + b)[0] == a[0] && (a + b)[1..] == a[1..] + b;
      RemoveAllAppend(a[1..], b, f);
    }
  }

  /** Removal from a list that starts with `x`. */
  lemma RemoveAllCons(list: seq<Func>, f: Func)
    requires list != []
    ensures RemoveAll(list, f) == (if list[0] == f then [] else [list[0]]) + RemoveAll(list[1..], f)
  {
  }

  /**
    One step of the backward splice loop of the unsubscribe closure: with the
    list so far `cur` (the untouched prefix up to `i`, then the cleaned
    suffix), index `i` holds `list[i]`; splicing it out when it is `f`, or
    keeping it otherwise, cleans one more element.
   */
  lemma SpliceStep(list: seq<Func>, i: int, f: Func, cur: seq<Func>)
    requires 0 <= i < |list|
    requires cur == list[..i + 1] + RemoveAll(list[i + 1..], f)
    ensures cur[i] == list[i]
    ensures list[i] == f ==> cur[..i] + cur[i + 1..] == list[..i] + RemoveAll(list[i..], f)
    ensures list[i] != f ==> cur == list[..i] + RemoveAll(list[i..], f)
  {
    var prefix, x, rest := list[..i], list[i], RemoveAll(list[i + 1..], f);
    var tail := list[i..];
    assert tail[0] == x && tail[1..] == list[i + 1..];
    RemoveAllCons(tail, f);
    assert list[..i + 1] == prefix + [x];
    if x == f {
      assert RemoveAll(tail, f) == rest;
      assert cur[..i] == prefix;
      assert cur[i + 1..] == rest;
    } else {
      assert RemoveAll(tail, f) == [x] + rest;
      assert cur == prefix + ([x] + rest);
    }
  }

  /**
    The properties every plain object inherits from `Object.prototype`. The
    listener table is a plain `{}`, so for one of these keys without an own
    array `listeners[key]` is the inherited member: truthy, but neither
    iterable nor an array.
   */
  const ObjectPrototypeNames: set<string> := {
    "constructor", "hasOwnProperty", "isPrototypeOf", "propertyIsEnumerable",
    "toLocaleString", "toString", "valueOf", "__proto__",
    "__defineGetter__", "__defineSetter__", "__lookupGetter__", "__lookupSetter__"}

  /** The page's localStorage and the per-key listener arrays. */
  class LegacyStore {
    var items: map<string, string>          // localStorage contents
    var order: seq<string>                  // the order localStorage.key(i) enumerates them in
    var listeners: map<string, seq<Func>>   // listeners[key]
    var log: seq<Call>                      // every listener call made so far

    ghost predicate Valid()
      reads this
    {
      LocalStorage.Distinct(order) && forall k :: k in order <==> k in items
    }

    constructor (items: map<string, string>, order: seq<string>)
      requires LocalStorage.Distinct(order) && forall k :: k in order <==> k in items
      ensures Valid() && this.items == items && this.order == order
      ensures listeners == map[] && log == []
    {
      this.items := items;
      this.order := order;
      listeners, log := map[], [];
    }

    /** localStorage.getItem(key); None is `null`. */
    function GetItem(key: string): Option<string>
      reads this
    {
      if key in items then Some(items[key]) else None
    }

    /** `listeners[key]` finds an inherited member of Object.prototype instead of an array. */
    predicate Inherited(key: string)
      reads this
    {
      key !in listeners && key in ObjectPrototypeNames
    }

    /** listeners[key], or no functions when the key has no array. */
    function ListenersOf(key: string): seq<Func>
      reads this
    {
      if key in listeners then listeners[key] else []
    }

    /**
      _setValue(key, value): nothing when the stored string is already
      `value`; otherwise store it, then call every function registered for
      `key`, in registration order, with the old and new strings. For a key
      that finds an inherited member of Object.prototype the loop throws
      (`threw`) after the item is stored and before any call.
     */
    method SetValueRaw(key: string, value: string) returns (threw: bool)
      requires Valid()
      modifies this`items, this`order, this`log
      ensures Valid()
      ensures old(GetItem(key)) == Some(value) ==>
        !threw && items == old(items) && order == old(order) && log == old(log)
      ensures old(GetItem(key)) != Some(value) ==>
        (threw <==> Inherited(key)) &&
        items == old(items)[key := value] &&
        order == (if key in old(items) then old(order) else old(order) + [key]) &&
        log == old(log) + Calls(ListenersOf(key), key, old(GetItem(key)), value)
    {
      threw := false;
      var oldValue := GetItem(key);
      if oldValue == Some(value) {
        return;
      }
      if key !in items {
        order := order + [key];
      }
      items := items[key := value];
      if key in listeners {
        var funcs := listeners[key];
        var made: seq<Call> := [];
        var i := 0;
        while i < |funcs|
          invariant 0 <= i <= |funcs|
          invariant made == Calls(funcs[..i], key, oldValue, value)
        {
          assert Calls(funcs[..i + 1], key, oldValue, value) ==
                 Calls(funcs[..i], key, oldValue, value) + [Call(funcs[i], key, oldValue, value)];
          made := made + [Call(funcs[i], key, oldValue, value)];
          i := i + 1;
        }
        assert funcs[..|funcs|] == funcs;
        log := log + made;
      } else {
        threw := key in ObjectPrototypeNames;
        assert Calls([], key, oldValue, value) == [];
      }
    }

    /**
      _addValueChangeListener(key, func): append `func` to listeners[key],
      creating the array if needed, and hand back the unsubscribe closure.
      For a key that finds an inherited member of Object.prototype, `||`
      keeps that member and `push` is not a function of it: the call throws
      (None) and the table is left as it was.
     */
    method AddValueChangeListener(key: string, func: Func) returns (u: Option<Unsubscriber>)
      modifies this`listeners
      ensures old(Inherited(key)) ==> u.None? && listeners == old(listeners)
      ensures !old(Inherited(key)) ==>
        u == Some(Unsubscriber(key, func)) &&
        listeners == old(listeners)[key := old(ListenersOf(key)) + [func]]
    {
      if key !in listeners && key in ObjectPrototypeNames {
        return None;
      }
      var list := if key in listeners then listeners[key] else [];
      listeners := listeners[key := list + [func]];
      u := Some(Unsubscriber(key, func));
    }

    /**
      Calling the unsubscribe closure: walk listeners[key] from the end and
      splice out every occurrence of the function. The others keep their
      order, other keys are untouched, and a missing or empty array is left
      as it is.
     */
    method Unsubscribe(u: Unsubscriber)
      modifies this`listeners
      ensures u.key in old(listeners) ==> listeners == old(listeners)[u.key := RemoveAll(old(listeners)[u.key], u.func)]
      ensures u.key !in old(listeners) ==> listeners == old(listeners)
    {
      if u.key in listeners && |listeners[u.key]| > 0 {
        ghost var list := listeners[u.key];
        var cur := listeners[u.key];
        var i := |cur| - 1;
        assert list[..i + 1] == list && list[i + 1..] == [];
        while i >= 0
          invariant -1 <= i < |list|
          invariant cur == list[..i + 1] + RemoveAll(list[i + 1..], u.func)
          invariant listeners == old(listeners)[u.key := cur]
        {
          SpliceStep(list, i, u.func, cur);
          if cur[i] == u.func {
            cur := cur[..i] + cur[i + 1..];
            listeners := listeners[u.key := cur];
          }
          i := i - 1;
        }
        assert list[..0] == [] && list[0..] == list;
        assert cur == RemoveAll(list, u.func);
      } else if u.key in listeners {
        assert old(listeners)[u.key := RemoveAll(listeners[u.key], u.func)] == old(listeners);
      }
    }

    /**
      getValue(key): a missing, empty or 'undefined' item is `undefined`;
      otherwise the item is parsed, and a parse failure escapes.
     */
    function GetValue(key: string, parse: string -> Option<Value>): (r: Outcome)
      reads this
      ensures (key !in items || items[key] == "" || items[key] == "undefined") ==> r == Returned(Undefined)
      ensures key in items && items[key] != "" && items[key] != "undefined" ==>
        (r.Threw? <==> parse(items[key]).None?) &&
        (r.Returned? ==> Some(r.value) == parse(items[key]))
    {
      match GetItem(key)
      case None => Returned(Undefined)
      case Some(v) =>
        if v == "" || v == "undefined" then Returned(Undefined)
        else match parse(v)
          case Some(x) => Returned(x)
          case None => Threw
    }

    /**
      setValue(key, value): `undefined` is ignored, anything else is stored as
      its JSON text; `threw` as for _setValue.
     */
    method SetValue(key: string, value: Value, stringify: Value -> string) returns (threw: bool)
      requires Valid()
      modifies this`items, this`order, this`log
      ensures Valid()
      ensures value.Undefined? ==> !threw && items == old(items) && order == old(order) && log == old(log)
      ensures !value.Undefined? && old(GetItem(key)) == Some(stringify(value)) ==>
        !threw && items == old(items) && order == old(order) && log == old(log)
      ensures !value.Undefined? && old(GetItem(key)) != Some(stringify(value)) ==>
        (threw <==> Inherited(key)) &&
        items == old(items)[key := stringify(value)] &&
        order == (if key in old(items) then old(order) else old(order) + [key]) &&
        log == old(log) + Calls(ListenersOf(key), key, old(GetItem(key)), stringify(value))
    {
      threw := false;
      if !value.Undefined? {
        threw := SetValueRaw(key, stringify(value));
      }
    }

    /** deleteValue(key): removes the item and calls no listener. */
    method DeleteValue(key: string)
      requires Valid()
      modifies this`items, this`order
      ensures Valid() && items == old(items) - {key} && order == LocalStorage.Erase(old(order), key)
    {
      LocalStorage.EraseDistinct(order, key);
      order := LocalStorage.Erase(order, key);
      items := items - {key};
    }

    /** listValues(): every stored key once, unchanged, in storage order. */
    method ListValues() returns (keys: seq<string>)
      requires Valid()
      ensures keys == order && |keys| == |items|
      ensures forall k :: k in keys <==> k in items
    {
      var length := |order|;
      keys := [];
      var i := 0;
      while i < length
        invariant 0 <= i <= length
        invariant keys == order[..i]
      {
        keys := keys + [order[i]];
        i := i + 1;
      }
      assert order[..length] == order;
      LocalStorage.DistinctCard(order);
      assert items.Keys == set y | y in order;
    }
  }
}
