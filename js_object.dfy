/** JavaScript objects as the manifest code uses them: own properties in insertion order,
    read with `o[k]`, written with `o[k] = v`, removed with `delete o[k]`, and combined with
    the spread syntax `{ ...a, ...c }`. */
module JsObject {
  import opened Wrappers

  /** An object as its (key, value) properties in enumeration order. */
  type Object<V> = seq<(string, V)>

  /** `Object.keys(o)`. */
  function Keys<V>(o: Object<V>): (ks: seq<string>)
    ensures |ks| == |o|
    ensures forall i :: 0 <= i < |o| ==> ks[i] == o[i].0
  {
    if o == [] then [] else [o[0].0] + Keys(o[1..])
  }

  /** `Object.values(o)`. */
  function Values<V>(o: Object<V>): (vs: seq<V>)
    ensures |vs| == |o|
    ensures forall i :: 0 <= i < |o| ==> vs[i] == o[i].1
  {
    if o == [] then [] else [o[0].1] + Values(o[1..])
  }

  /** No key occurs twice, as in every object JavaScript builds. */
  predicate Wf<V>(o: Object<V>) {
    forall i, j :: 0 <= i < j < |o| ==> o[i].0 != o[j].0
  }

  /** `o[k]`: `None` for `undefined`. */
  function Get<V>(o: Object<V>, k: string): (r: Option<V>)
    ensures r.Some? <==> k in Keys(o)
  {
    if o == [] then None
    else if o[0].0 == k then Some(o[0].1)
    else
      assert Keys(o) == [o[0].0] + Keys(o[1..]);
      Get(o[1..], k)
  }

  /** Position of the property `k`. */
  function IndexOf<V>(o: Object<V>, k: string): (i: nat)
    requires k in Keys(o)
    ensures i < |o| && o[i].0 == k
    ensures forall j :: 0 <= j < i ==> o[j].0 != k
  {
    if o[0].0 == k then 0
    else
      assert Keys(o) == [o[0].0] + Keys(o[1..]);
      IndexOf(o[1..], k) + 1
  }

  /** A property's value is the one at its first position. */
  lemma {:induction false} GetAt<V>(o: Object<V>, k: string)
    requires k in Keys(o)
    ensures Get(o, k) == Some(o[IndexOf(o, k)].1)
  {
    if o[0].0 != k {
      assert Keys(o) == [o[0].0] + Keys(o[1..]);
      GetAt(o[1..], k);
    }
  }

  /** `o[k] = v`: an existing property keeps its place, a new one goes last. */
  function Put<V>(o: Object<V>, k: string, v: V): (r: Object<V>)
    ensures Get(r, k) == Some(v)
    ensures k !in Keys(o) ==> r == o + [(k, v)]
  {
    if o == [] then [(k, v)]
    else if o[0].0 == k then [(k, v)] + o[1..]
    else
      assert Keys(o) == [o[0].0] + Keys(o[1..]);
      [o[0]] + Put(o[1..], k, v)
  }

  /** Assigning `k` leaves every other property's value as it was. */
  lemma {:induction false} PutKeepsOthers<V>(o: Object<V>, k: string, v: V, k': string)
    requires k' != k
    ensures Get(Put(o, k, v), k') == Get(o, k')
  {
    if o != [] && o[0].0 != k {
      PutKeepsOthers(o[1..], k, v, k');
    }
  }

  /** Assigning an existing property keeps the keys and their order; a new one is added
      last. */
  lemma {:induction false} PutKeys<V>(o: Object<V>, k: string, v: V)
    ensures Keys(Put(o, k, v)) == if k in Keys(o) then Keys(o) else Keys(o) + [k]
  {
    if o != [] && o[0].0 != k {
      assert Keys(o) == [o[0].0] + Keys(o[1..]);
      PutKeys(o[1..], k, v);
      assert Keys(Put(o, k, v)) == [o[0].0] + Keys(Put(o[1..], k, v));
    }
  }

  lemma PutWf<V>(o: Object<V>, k: string, v: V)
    ensures Wf(o) ==> Wf(Put(o, k, v))
  {
    var r := Put(o, k, v);
    PutKeys(o, k, v);
    if Wf(o) {
      forall a, b | 0 <= a < b < |r|
        ensures r[a].0 != r[b].0
      {
        assert r[a].0 == Keys(r)[a] && r[b].0 == Keys(r)[b];
        if b < |o| {
          assert Keys(o)[a] == o[a].0 && Keys(o)[b] == o[b].0;
        } else {
          assert Keys(o)[a] == o[a].0;
        }
      }
    }
  }

  /** `delete o[k]`: the property goes and every other keeps its value. */
  function Delete<V>(o: Object<V>, k: string): (r: Object<V>)
    ensures k !in Keys(r)
    ensures k !in Keys(o) ==> r == o
  {
    if o == [] then []
    else
      assert Keys(o) == [o[0].0] + Keys(o[1..]);
      if o[0].0 == k then Delete(o[1..], k)
      else
        assert Keys([o[0]] + Delete(o[1..], k)) == [o[0].0] + Keys(Delete(o[1..], k));
        [o[0]] + Delete(o[1..], k)
  }

  /** After `delete o[k]` every other property keeps its value. */
  lemma {:induction false} DeleteKeepsOthers<V>(o: Object<V>, k: string, k': string)
    requires k' != k
    ensures Get(Delete(o, k), k') == Get(o, k')
  {
    if o != [] {
      DeleteKeepsOthers(o[1..], k, k');
    }
  }

  /** `s` with every occurrence of `x` dropped and the rest in order. */
  function Without(s: seq<string>, x: string): (r: seq<string>)
    ensures forall y :: y in r <==> y in s && y != x
  {
    if s == [] then []
    else
      assert s == [s[0]] + s[1..];
      if s[0] == x then Without(s[1..], x) else [s[0]] + Without(s[1..], x)
  }

  /** `delete o[k]` drops `k` from the keys and keeps the others in their order. */
  lemma {:induction false} DeleteKeys<V>(o: Object<V>, k: string)
    ensures Keys(Delete(o, k)) == Without(Keys(o), k)
  {
    if o != [] {
      assert Keys(o) == [o[0].0] + Keys(o[1..]);
      assert Keys(o)[1..] == Keys(o[1..]);
      DeleteKeys(o[1..], k);
      if o[0].0 != k {
        assert Keys([o[0]] + Delete(o[1..], k)) == [o[0].0] + Keys(Delete(o[1..], k));
      }
    }
  }

  lemma TailWf<V>(o: Object<V>)
    requires o != [] && Wf(o)
    ensures Wf(o[1..]) && o[0].0 !in Keys(o[1..])
  {
    assert Keys(o) == [o[0].0] + Keys(o[1..]);
  }

  /** A property whose key is new can go in front of a well-formed object. */
  lemma ConsWf<V>(x: (string, V), o: Object<V>)
    requires Wf(o) && x.0 !in Keys(o)
    ensures Wf([x] + o)
  {
    var r := [x] + o;
    forall a, b | 0 <= a < b < |r|
      ensures r[a].0 != r[b].0
    {
      assert r[b] == o[b - 1];
      if a > 0 {
        assert r[a] == o[a - 1];
      }
    }
  }

  /** Deleting keeps an object well-formed. */
  lemma {:induction false} DeleteWf<V>(o: Object<V>, k: string)
    requires Wf(o)
    ensures Wf(Delete(o, k))
  {
    if o != [] {
      TailWf(o);
      DeleteWf(o[1..], k);
      if o[0].0 != k {
        DeleteKeepsOthers(o[1..], k, o[0].0);
        ConsWf(o[0], Delete(o[1..], k));
      }
    }
  }

  /** `{ ...a, ...c }` written as spreading `c` onto (a copy of) `a`: each property of `c` is
      put in turn. */
  function Spread<V>(a: Object<V>, c: Object<V>): (r: Object<V>)
    ensures Wf(a) ==> Wf(r)
    decreases |c|
  {
    if c == [] then a
    else
      PutWf(a, c[0].0, c[0].1);
      Spread(Put(a, c[0].0, c[0].1), c[1..])
  }

  /** After a spread, a key of `c` has `c`'s value and any other key keeps `a`'s. */
  lemma {:induction false} SpreadGet<V>(a: Object<V>, c: Object<V>, k: string)
    requires Wf(c)
    decreases |c|
    ensures Get(Spread(a, c), k) == if k in Keys(c) then Get(c, k) else Get(a, k)
  {
    if c != [] {
      assert Keys(c) == [c[0].0] + Keys(c[1..]);
      assert Wf(c[1..]) by {
        assert Keys(c[1..]) == Keys(c)[1..];
      }
      SpreadGet(Put(a, c[0].0, c[0].1), c[1..], k);
      if k != c[0].0 {
        PutKeepsOthers(a, c[0].0, c[0].1, k);
      }
      if k == c[0].0 {
        TailWf(c);
      }
    }
  }

  /** Spreading an object whose keys are all new appends its properties in order; in
      particular `{ ...a }` is a faithful copy of a well-formed `a`. */
  lemma {:induction false} SpreadFresh<V>(a: Object<V>, c: Object<V>)
    requires Wf(a + c)
    ensures Spread(a, c) == a + c
    decreases |c|
  {
    if c != [] {
      FirstAddedIsFresh(a, c);
      assert a + c == (a + [c[0]]) + c[1..];
      SpreadFresh(a + [c[0]], c[1..]);
    }
  }

  /** In a well-formed `a + c`, the first key of `c` is not a key of `a`. */
  lemma FirstAddedIsFresh<V>(a: Object<V>, c: Object<V>)
    requires c != [] && Wf(a + c)
    ensures c[0].0 !in Keys(a)
  {
    forall i | 0 <= i < |a|
      ensures a[i].0 != c[0].0
    {
      assert (a + c)[i] == a[i] && (a + c)[|a|] == c[0];
    }
  }

  lemma SpreadCopy<V>(a: Object<V>)
    requires Wf(a)
    ensures Spread([], a) == a
  {
    assert [] + a == a;
    SpreadFresh([], a);
  }

  /** `objs.reduce((a, c) => ({ ...a, ...c }), {})`. */
  function Flatten<V>(objs: seq<Object<V>>): (r: Object<V>)
    ensures (forall i :: 0 <= i < |objs| ==> Wf(objs[i])) ==> Wf(r)
  {
    if objs == [] then []
    else Spread(Spread([], Flatten(objs[..|objs| - 1])), objs[|objs| - 1])
  }

  /** The value that the last of `objs` having the key `k` gives it. */
  function LastBinding<V>(objs: seq<Object<V>>, k: string): Option<V> {
    if objs == [] then None
    else if k in Keys(objs[|objs| - 1]) then Get(objs[|objs| - 1], k)
    else LastBinding(objs[..|objs| - 1], k)
  }

  /** Flattening lets a later object override an earlier one on a shared key. */
  lemma {:induction false} FlattenLaterWins<V>(objs: seq<Object<V>>, k: string)
    requires forall i :: 0 <= i < |objs| ==> Wf(objs[i])
    ensures Get(Flatten(objs), k) == LastBinding(objs, k)
  {
    if objs != [] {
      var init, last := objs[..|objs| - 1], objs[|objs| - 1];
      var acc := Flatten(init);
      FlattenLaterWins(init, k);
      SpreadGet(Spread([], acc), last, k);
      SpreadGet([], acc, k);
    }
  }
}
