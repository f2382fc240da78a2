/**
  Structural equality over JSON-like trees: the comparison that decides
  whether a write is a real change.
 */
module Equality {
  import opened Json

  /**
    deepEqual(a, b): strict identity first; otherwise both sides must be
    objects of the same kind (array or not). Arrays compare by length and
    then element by element in order; objects by key count and then every
    key of `a` must be an own key of `b` holding a deep-equal value.
    Recursion descends only into children of `a`, so it terminates.
   */
  predicate DeepEqual(a: Value, b: Value): (r: bool)
    ensures StrictEquals(a, b) ==> r
    ensures r && (!IsObject(a) || !IsObject(b)) ==> StrictEquals(a, b)
    ensures r && a.Arr? ==> b.Arr? && |a.items| == |b.items|
    ensures r && a.Obj? ==> b.Obj? && a.fields.Keys <= b.fields.Keys && |a.fields| == |b.fields|
    decreases a
  {
    if StrictEquals(a, b) then true
    else if !IsObject(a) || !IsObject(b) then false
    else if a.Arr? != b.Arr? then false
    else if a.Arr? then
      |a.items| == |b.items| &&
      forall i :: 0 <= i < |a.items| ==> DeepEqual(a.items[i], b.items[i])
    else
      |a.fields| == |b.fields| &&
      forall k :: k in a.fields ==> k in b.fields && DeepEqual(a.fields[k], b.fields[k])
  }

  /** A subset of a finite set with as many elements is the whole set. */
  lemma SubsetOfSameSize<T>(x: set<T>, y: set<T>)
    requires x <= y && |x| == |y|
    ensures x == y
  {
    assert y == x + (y - x);
    assert |y| == |x| + |y - x|;
    assert |y - x| == 0;
  }

  /**
    On finite trees deepEqual is exactly equality of values: scalars must be
    identical, arrays equal element by element in the same order, objects
    must have the same key set and equal values under every key.
   */
  lemma {:induction false} DeepEqualIsEquality(a: Value, b: Value)
    ensures DeepEqual(a, b) <==> a == b
    decreases a
  {
    match a
    case Arr(xs) =>
      if b.Arr? && |xs| == |b.items| {
        forall i | 0 <= i < |xs|
          ensures DeepEqual(xs[i], b.items[i]) <==> xs[i] == b.items[i]
        {
          DeepEqualIsEquality(xs[i], b.items[i]);
        }
        if DeepEqual(a, b) {
          assert xs == b.items;
        }
      }
    case Obj(m) =>
      if b.Obj? {
        forall k | k in m && k in b.fields
          ensures DeepEqual(m[k], b.fields[k]) <==> m[k] == b.fields[k]
        {
          DeepEqualIsEquality(m[k], b.fields[k]);
        }
        if DeepEqual(a, b) {
          SubsetOfSameSize(m.Keys, b.fields.Keys);
          assert m == b.fields;
        }
      }
    case _ =>
  }

  /** Every value, and in particular every tree compared with itself, is deep-equal to itself. */
  lemma Reflexive(a: Value)
    ensures DeepEqual(a, a)
  {
    DeepEqualIsEquality(a, a);
  }

  /** deepEqual does not depend on the order of its arguments. */
  lemma Symmetric(a: Value, b: Value)
    ensures DeepEqual(a, b) <==> DeepEqual(b, a)
  {
    DeepEqualIsEquality(a, b);
    DeepEqualIsEquality(b, a);
  }

  /** Two values deep-equal to a third are deep-equal to each other. */
  lemma Transitive(a: Value, b: Value, c: Value)
    requires DeepEqual(a, b) && DeepEqual(b, c)
    ensures DeepEqual(a, c)
  {
    DeepEqualIsEquality(a, b);
    DeepEqualIsEquality(b, c);
    DeepEqualIsEquality(a, c);
  }

  /**
    When one side is not an object (a scalar, `undefined` or `null`) the
    result is strict identity; so `null` differs from `{}` and `undefined`
    from `null`.
   */
  lemma NonObjectIsStrict(a: Value, b: Value)
    requires !IsObject(a) || !IsObject(b)
    ensures DeepEqual(a, b) <==> StrictEquals(a, b)
    ensures !DeepEqual(Null, Obj(map[])) && !DeepEqual(Undefined, Null)
  {
  }

  /** An array is never deep-equal to a non-array object, whatever their contents. */
  lemma ArrayIsNotObject(xs: seq<Value>, m: map<string, Value>)
    ensures !DeepEqual(Arr(xs), Obj(m)) && !DeepEqual(Obj(m), Arr(xs))
  {
  }

  /**
    Two arrays are deep-equal iff they have the same length and are deep-equal
    position by position; in particular order matters: swapping two distinct
    elements gives an unequal array.
   */
  lemma ArraysElementwise(xs: seq<Value>, ys: seq<Value>)
    ensures DeepEqual(Arr(xs), Arr(ys)) <==>
      |xs| == |ys| && forall i :: 0 <= i < |xs| ==> DeepEqual(xs[i], ys[i])
    ensures forall i, j :: 0 <= i < |xs| && 0 <= j < |xs| && xs[i] != xs[j] ==>
      !DeepEqual(Arr(xs), Arr(xs[i := xs[j]][j := xs[i]]))
  {
    forall i, j | 0 <= i < |xs| && 0 <= j < |xs| && xs[i] != xs[j]
      ensures !DeepEqual(Arr(xs), Arr(xs[i := xs[j]][j := xs[i]]))
    {
      var ys := xs[i := xs[j]][j := xs[i]];
      DeepEqualIsEquality(Arr(xs), Arr(ys));
      assert ys[i] != xs[i];
    }
  }

  /**
    Two objects are deep-equal iff they have the same key set and deep-equal
    values under every key.
   */
  lemma ObjectsByKeys(m: map<string, Value>, n: map<string, Value>)
    ensures DeepEqual(Obj(m), Obj(n)) <==>
      m.Keys == n.Keys && forall k :: k in m ==> DeepEqual(m[k], n[k])
  {
    if DeepEqual(Obj(m), Obj(n)) {
      SubsetOfSameSize(m.Keys, n.Keys);
    }
  }
}
