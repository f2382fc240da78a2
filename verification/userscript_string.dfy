/**
  The string-encoding adapter over the userscript store: values are stored as
  their JSON text, read back through safeJsonParse, and listeners registered
  here receive decoded old and new values.
 */
module UserscriptString {
  import opened Wrappers
  import opened Json
  import opened Equality
  import opened JsonUtils
  import opened Listeners
  import Userscript

  /**
    What setValue hands to the userscript layer: `undefined` for `undefined`
    and `null` (a deletion there), the JSON text otherwise.
   */
  function Encode(value: Value, codec: Codec): (r: Value)
    ensures r.Undefined? || r.Str?
    ensures r.Undefined? <==> IsNullish(value)
    ensures r.Str? ==> r.s == codec.stringify(value)
  {
    if IsNullish(value) then Undefined else Str(codec.stringify(value))
  }

  /** getValue(key, defaultValue): the raw value decoded, or the default. */
  function Get(s: Userscript.Store, key: string, defaultValue: Value, codec: Codec): (r: Value)
    ensures key !in s.backend || IsNullish(s.backend[key]) ==> r == defaultValue
    ensures key in s.backend && s.backend[key].Str? ==>
      r == SafeJsonParse(Text(s.backend[key].s), defaultValue, codec.parse)
  {
    SafeJsonParse(AsInput(Userscript.Read(s.backend, key, Undefined), codec), defaultValue, codec.parse)
  }

  /** setValue(key, value). */
  function Set(s: Userscript.Store, key: string, value: Value, codec: Codec): (r: Userscript.Store)
    ensures IsNullish(value) ==> key !in r.backend
    ensures !IsNullish(value) ==> r.backend == s.backend[key := Str(codec.stringify(value))]
  {
    Userscript.Set(s, key, Encode(value, codec))
  }

  /** addValueChangeListener(key, func): registers the decoding wrapper around `func`. */
  function AddListener(s: Userscript.Store, key: string, fn: nat): (r: Userscript.Store)
    ensures s.native ==> r == s
    ensures !s.native ==> r.listeners == s.listeners + [Entry(s.counter + 1, key, JsonDecoding(fn))]
  {
    Userscript.AddListener(s, key, JsonDecoding(fn))
  }

  /** getValue over a live store. */
  function GetValue(store: Userscript.UserscriptStore, key: string, defaultValue: Value, codec: Codec): (r: Value)
    reads store
    ensures key !in store.backend ==> r == defaultValue
    ensures key in store.backend && IsNullish(store.backend[key]) ==> r == defaultValue
    ensures key in store.backend && store.backend[key].Str? ==>
      r == SafeJsonParse(Text(store.backend[key].s), defaultValue, codec.parse)
  {
    Get(store.State(), key, defaultValue, codec)
  }

  /** setValue over a live store. */
  method SetValue(store: Userscript.UserscriptStore, key: string, value: Value, codec: Codec)
    requires store.Valid()
    modifies store
    ensures store.Valid() && store.State() == Set(old(store.State()), key, value, codec)
  {
    var raw := if value.Undefined? || value.Null? then Undefined else Str(codec.stringify(value));
    store.SetValue(key, raw);
  }

  /** deleteValue is the userscript layer's own. */
  method DeleteValue(store: Userscript.UserscriptStore, key: string)
    requires store.Valid()
    modifies store
    ensures store.Valid() && store.State() == Userscript.Delete(old(store.State()), key)
  {
    store.DeleteValue(key);
  }

  /** addValueChangeListener over a live store. */
  method AddValueChangeListener(store: Userscript.UserscriptStore, key: string, fn: nat, hostId: int)
    returns (id: int)
    requires store.Valid()
    modifies store
    ensures store.Valid() && store.State() == AddListener(old(store.State()), key, fn)
    ensures id == Userscript.IssuedId(old(store.State()), hostId)
  {
    id := store.AddValueChangeListener(key, JsonDecoding(fn), hostId);
  }

  /**
    Reading back what was written: a value the codec round-trips comes back
    as itself; after `null` or `undefined` the key is gone and the default is
    returned.
   */
  lemma GetAfterSet(s: Userscript.Store, key: string, value: Value, d: Value, codec: Codec)
    requires !IsNullish(value) ==> codec.parse(codec.stringify(value)) == Some(value)
    ensures Get(Set(s, key, value, codec), key, d, codec) == if IsNullish(value) then d else value
  {
    var t := Set(s, key, value, codec);
    if IsNullish(value) {
      assert key !in t.backend;
    } else {
      assert t.backend[key] == Str(codec.stringify(value));
      ParseOfEncoding(value, d, codec);
    }
  }

  /**
    Through this layer `null` and `undefined` both become a deletion whose
    listeners are told `undefined`: setValue(key, null) is deleteValue(key).
   */
  lemma SetNullishIsDelete(s: Userscript.Store, key: string, value: Value, codec: Codec)
    requires IsNullish(value)
    ensures Set(s, key, value, codec) == Userscript.Delete(s, key)
  {
  }

  /**
    A wrapped listener sees a real change decoded: same key, `remote = false`,
    the written value back when the codec round-trips it, and the previous raw
    value decoded with safeJsonParseWithFallback (kept as it is when it is not
    a string and its text does not parse).
   */
  lemma WrappedListenerSeesDecodedChange(s: Userscript.Store, key: string, value: Value, codec: Codec)
    requires Userscript.Inv(s) && !s.native && !IsNullish(value)
    requires codec.parse(codec.stringify(value)) == Some(value)
    requires !DeepEqual(Userscript.Read(s.backend, key, Undefined), Str(codec.stringify(value)))
    ensures var t := Set(s, key, value, codec);
      forall ev :: ev in t.log[|s.log|..] && ev.callback.JsonDecoding? ==>
        var c := Deliver(ev, codec);
        && c.key == key && !c.remote && c.newValue == value
        && c.oldValue == ParseWithFallback(Userscript.Read(s.backend, key, Undefined), codec)
  {
    var raw := Str(codec.stringify(value));
    var o := Userscript.Read(s.backend, key, Undefined);
    var t := Set(s, key, value, codec);
    assert t.log[|s.log|..] == Notify(s.listeners, key, key, o, raw, false);
    NotifyExactlyMatching(s.listeners, key, key, o, raw, false);
  }
}
