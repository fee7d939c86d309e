/** The option type and a few facts on sequences that the other modules share. */
module Sequences {

  datatype Option<+T> = None | Some(value: T)

  lemma Assoc<T>(a: seq<T>, b: seq<T>, c: seq<T>)
    ensures a + b + c == a + (b + c)
  {
  }

  lemma Assoc4<T>(a: seq<T>, b: seq<T>, c: seq<T>, d: seq<T>, e: seq<T>)
    ensures a + b + c + d + e == a + (b + (c + (d + e)))
    ensures a + b + c + d == a + (b + (c + d))
  {
  }

  lemma Parts<T>(a: seq<T>, b: seq<T>)
    ensures (a + b)[..|a|] == a && (a + b)[|a|..] == b
  {
  }

  lemma PrefixSplit<T>(a: seq<T>, b: seq<T>) returns (t: seq<T>)
    requires a <= b
    ensures b == a + t
  {
    t := b[|a|..];
  }

  function FlatMap<S, T>(f: S -> seq<T>, xs: seq<S>): seq<T> {
    if xs == [] then [] else f(xs[0]) + FlatMap(f, xs[1..])
  }

  lemma {:induction false} FlatMapConcat<S, T>(f: S -> seq<T>, a: seq<S>, b: seq<S>)
    ensures FlatMap(f, a + b) == FlatMap(f, a) + FlatMap(f, b)
  {
    if a == [] {
      assert a + b == b;
    } else {
      FlatMapConcat(f, a[1..], b);
      assert (a + b)[1..] == a[1..] + b;
      Assoc(f(a[0]), FlatMap(f, a[1..]), FlatMap(f, b));
    }
  }

  /** `emplace`: a key that is already there keeps its value. */
  function Emplace<K, V>(m: map<K, V>, k: K, v: V): map<K, V> {
    if k in m then m else m[k := v]
  }

  function Lookup<K, V>(m: map<K, V>, k: K): Option<V> {
    if k in m then Some(m[k]) else None
  }

  /** The value of the first pair with this key. */
  function FirstOf<K(==), V>(pairs: seq<(K, V)>, k: K): Option<V> {
    if pairs == [] then None
    else if pairs[0].0 == k then Some(pairs[0].1)
    else FirstOf(pairs[1..], k)
  }

  lemma {:induction false} FirstOfSnoc<K, V>(pairs: seq<(K, V)>, last: (K, V), k: K)
    ensures FirstOf(pairs + [last], k) ==
            if FirstOf(pairs, k).Some? then FirstOf(pairs, k)
            else if last.0 == k then Some(last.1) else None
  {
    if pairs != [] {
      assert (pairs + [last])[1..] == pairs[1..] + [last];
      FirstOfSnoc(pairs[1..], last, k);
    }
  }

  function OrElse<T>(a: Option<T>, b: Option<T>): Option<T> {
    if a.Some? then a else b
  }

  /** The map after emplacing all the pairs in order. */
  function EmplaceInto<K, V>(m: map<K, V>, pairs: seq<(K, V)>): map<K, V>
    decreases |pairs|
  {
    if pairs == [] then m
    else
      var n := |pairs| - 1;
      Emplace(EmplaceInto(m, pairs[..n]), pairs[n].0, pairs[n].1)
  }

  function EmplaceAll<K, V>(pairs: seq<(K, V)>): map<K, V> {
    EmplaceInto(map[], pairs)
  }

  /** Emplacing keeps what is there, and otherwise the first value given for a key. */
  lemma {:induction false} EmplaceIntoKeepsFirst<K, V>(m: map<K, V>, pairs: seq<(K, V)>, k: K)
    ensures Lookup(EmplaceInto(m, pairs), k) == OrElse(Lookup(m, k), FirstOf(pairs, k))
    decreases |pairs|
  {
    if pairs != [] {
      var n := |pairs| - 1;
      EmplaceIntoKeepsFirst(m, pairs[..n], k);
      assert pairs == pairs[..n] + [pairs[n]];
      FirstOfSnoc(pairs[..n], pairs[n], k);
    }
  }

  /** A map filled by `emplace` holds the first value given for every key, and nothing else. */
  lemma EmplaceAllKeepsFirst<K, V>(pairs: seq<(K, V)>, k: K)
    ensures Lookup(EmplaceAll(pairs), k) == FirstOf(pairs, k)
  {
    EmplaceIntoKeepsFirst(map[], pairs, k);
  }
}
