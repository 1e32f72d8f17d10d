/** The key order of the canisters' `BTreeMap`s, and listing a map's values
    in that order (`map.values()`). */
module Ordered {
  import opened Bytes

  ghost predicate Irreflexive<T(!new)>(less: (T, T) -> bool) {
    forall a :: !less(a, a)
  }

  /** `a`, `b`, `c` ascend. Transitivity is stated over this term so that
      the solver applies it only to chains a proof names. */
  ghost predicate Chain<T>(less: (T, T) -> bool, a: T, b: T, c: T) {
    less(a, b) && less(b, c)
  }

  ghost predicate Transitive<T(!new)>(less: (T, T) -> bool) {
    forall a, b, c {:trigger Chain(less, a, b, c)} :: Chain(less, a, b, c) ==> less(a, c)
  }

  ghost predicate Connected<T(!new)>(less: (T, T) -> bool) {
    forall a, b :: a == b || less(a, b) || less(b, a)
  }

  /** `less` is a strict total order, as Rust's `Ord` promises. */
  ghost predicate StrictOrder<T(!new)>(less: (T, T) -> bool) {
    Irreflexive(less) && Transitive(less) && Connected(less)
  }

  /** Lexicographic comparison of `a[i..]` and `b[i..]` by the element order
      `less`; a proper prefix comes first. This is the derived `Ord` of Rust
      slices, and so of `String` (by byte, which is the order of code points). */
  predicate LexFrom<T(==)>(a: seq<T>, b: seq<T>, less: (T, T) -> bool, i: nat)
    requires i <= |a| && i <= |b|
    decreases |a| - i
  {
    if i == |a| then i < |b|
    else if i == |b| then false
    else if a[i] != b[i] then less(a[i], b[i])
    else LexFrom(a, b, less, i + 1)
  }

  function CharLess(x: char, y: char): bool {
    x < y
  }

  /** The order of `String` keys: by code point, shorter prefix first. */
  function StringLess(a: string, b: string): bool {
    LexFrom(a, b, CharLess, 0)
  }

  /** The order of principal keys: lexicographic on the raw bytes. */
  function BytesLess(a: seq<byte>, b: seq<byte>): bool {
    LexFrom(a, b, ByteLess, 0)
  }

  lemma {:induction false} LexIrreflexive<T(!new)>(a: seq<T>, less: (T, T) -> bool, i: nat)
    requires i <= |a|
    requires Irreflexive(less)
    ensures !LexFrom(a, a, less, i)
    decreases |a| - i
  {
    if i < |a| {
      LexIrreflexive(a, less, i + 1);
    }
  }

  lemma {:induction false} LexTransitive<T(!new)>(a: seq<T>, b: seq<T>, c: seq<T>, less: (T, T) -> bool, i: nat)
    requires i <= |a| && i <= |b| && i <= |c|
    requires Irreflexive(less) && Transitive(less)
    requires LexFrom(a, b, less, i) && LexFrom(b, c, less, i)
    ensures LexFrom(a, c, less, i)
    decreases |a| - i
  {
    if i < |a| && i < |b| && i < |c| {
      if a[i] == b[i] && b[i] == c[i] {
        LexTransitive(a, b, c, less, i + 1);
      } else {
        var x, y, z := a[i], b[i], c[i];
        assert Chain(less, x, y, z) ==> less(x, z);
      }
    }
  }

  lemma {:induction false} LexConnected<T(!new)>(a: seq<T>, b: seq<T>, less: (T, T) -> bool, i: nat)
    requires i <= |a| && i <= |b|
    requires a[..i] == b[..i]
    requires Connected(less)
    ensures a == b || LexFrom(a, b, less, i) || LexFrom(b, a, less, i)
    decreases |a| - i
  {
    if i == |a| && i == |b| {
      assert a == a[..i] && b == b[..i];
    } else if i < |a| && i < |b| && a[i] == b[i] {
      assert a[..i + 1] == a[..i] + [a[i]];
      assert b[..i + 1] == b[..i] + [b[i]];
      LexConnected(a, b, less, i + 1);
    }
  }

  /** Lexicographic order over a strict total element order is a strict total order. */
  lemma LexStrict<T(!new)>(less: (T, T) -> bool, lex: (seq<T>, seq<T>) -> bool)
    requires StrictOrder(less)
    requires forall a, b :: lex(a, b) == LexFrom(a, b, less, 0)
    ensures StrictOrder(lex)
  {
    forall a: seq<T> ensures !lex(a, a) {
      LexIrreflexive(a, less, 0);
    }
    forall a: seq<T>, b: seq<T>, c: seq<T> | Chain(lex, a, b, c) ensures lex(a, c) {
      LexTransitive(a, b, c, less, 0);
    }
    forall a: seq<T>, b: seq<T> ensures a == b || lex(a, b) || lex(b, a) {
      LexConnected(a, b, less, 0);
    }
  }

  lemma StringOrder()
    ensures StrictOrder(StringLess)
  {
    LexStrict(CharLess, StringLess);
  }

  lemma BytesOrder()
    ensures StrictOrder(BytesLess)
  {
    LexStrict(ByteLess, BytesLess);
  }

  /** Every non-empty finite set has a least element. */
  lemma {:induction false} LeastExists<K(!new)>(keys: set<K>, less: (K, K) -> bool)
    requires keys != {}
    requires StrictOrder(less)
    ensures exists k :: k in keys && forall j :: j in keys && j != k ==> less(k, j)
    decreases |keys|
  {
    var x :| x in keys;
    var rest := keys - {x};
    if rest == {} {
      assert forall j :: j in keys && j != x ==> j in rest;
      assert x in keys && forall j :: j in keys && j != x ==> less(x, j);
    } else {
      LeastExists(rest, less);
      var m :| m in rest && forall j :: j in rest && j != m ==> less(m, j);
      if less(x, m) {
        forall j | j in keys && j != x
          ensures less(x, j)
        {
          if j != m {
            assert j in rest;
            assert Chain(less, x, m, j);
          }
        }
        assert x in keys;
      } else {
        assert less(m, x);
        forall j | j in keys && j != m
          ensures less(m, j)
        {
          if j != x {
            assert j in rest;
          }
        }
        assert m in keys;
      }
    }
  }

  /** A set has at most one least key. */
  lemma LeastUnique<K(!new)>(keys: set<K>, less: (K, K) -> bool, k1: K, k2: K)
    requires StrictOrder(less)
    requires k1 in keys && forall j :: j in keys && j != k1 ==> less(k1, j)
    requires k2 in keys && forall j :: j in keys && j != k2 ==> less(k2, j)
    ensures k1 == k2
  {
    assert k1 == k2 || Chain(less, k1, k2, k1);
  }

  /** The least key of a non-empty set. */
  function Least<K(!new)>(keys: set<K>, less: (K, K) -> bool): (k: K)
    requires keys != {}
    requires StrictOrder(less)
    ensures k in keys
    ensures forall j :: j in keys && j != k ==> less(k, j)
  {
    LeastExists(keys, less);
    assert forall k1, k2 | k1 in keys && (forall j :: j in keys && j != k1 ==> less(k1, j))
                        && k2 in keys && (forall j :: j in keys && j != k2 ==> less(k2, j)) :: k1 == k2 by {
      forall k1, k2 | k1 in keys && (forall j :: j in keys && j != k1 ==> less(k1, j))
                   && k2 in keys && (forall j :: j in keys && j != k2 ==> less(k2, j))
        ensures k1 == k2
      {
        LeastUnique(keys, less, k1, k2);
      }
    }
    var k :| k in keys && forall j :: j in keys && j != k ==> less(k, j);
    k
  }

  /** Strictly increasing: in order and free of duplicates. */
  ghost predicate Increasing<K>(ks: seq<K>, less: (K, K) -> bool) {
    forall i, j :: 0 <= i < j < |ks| ==> less(ks[i], ks[j])
  }

  /** The keys of a set in ascending order, the iteration order of a `BTreeMap`. */
  function SortedKeys<K(!new)>(keys: set<K>, less: (K, K) -> bool): (ks: seq<K>)
    requires StrictOrder(less)
    ensures |ks| == |keys|
    ensures forall k :: k in ks <==> k in keys
    ensures Increasing(ks, less)
    decreases |keys|
  {
    if keys == {} then []
    else
      var k := Least(keys, less);
      [k] + SortedKeys(keys - {k}, less)
  }

  /** The head of an increasing enumeration of a set is the set's least key. */
  lemma HeadIsLeast<K(!new)>(keys: set<K>, ks: seq<K>, less: (K, K) -> bool)
    requires StrictOrder(less)
    requires Increasing(ks, less)
    requires forall k :: k in ks <==> k in keys
    requires keys != {}
    ensures ks != [] && ks[0] == Least(keys, less)
  {
    var k :| k in keys;
    assert k in ks;
    forall j | j in keys && j != ks[0]
      ensures less(ks[0], j)
    {
      var m :| 0 <= m < |ks| && ks[m] == j;
    }
    var l, h := Least(keys, less), ks[0];
    assert h in keys;
    assert l == h || less(l, h);
    assert l == h || less(h, l);
    assert l == h || Chain(less, l, h, l);
  }

  /** The tail of an increasing enumeration of a set enumerates the rest. */
  lemma TailEnumerates<K(!new)>(keys: set<K>, ks: seq<K>, less: (K, K) -> bool)
    requires StrictOrder(less)
    requires Increasing(ks, less)
    requires forall k :: k in ks <==> k in keys
    requires ks != []
    ensures Increasing(ks[1..], less)
    ensures forall k :: k in ks[1..] <==> k in keys - {ks[0]}
  {
    forall j | 0 < j < |ks|
      ensures ks[j] != ks[0]
    {
      assert less(ks[0], ks[j]);
    }
    forall j | j in keys - {ks[0]}
      ensures j in ks[1..]
    {
      var i :| 0 <= i < |ks| && ks[i] == j;
      assert ks[1..][i - 1] == j;
    }
  }

  /** An increasing sequence holding exactly the keys of a set is its sorted
      listing: the iteration order is determined by the set alone. */
  lemma {:induction false} SortedKeysUnique<K(!new)>(keys: set<K>, ks: seq<K>, less: (K, K) -> bool)
    requires StrictOrder(less)
    requires Increasing(ks, less)
    requires forall k :: k in ks <==> k in keys
    ensures ks == SortedKeys(keys, less)
    decreases |keys|
  {
    if keys != {} {
      HeadIsLeast(keys, ks, less);
      TailEnumerates(keys, ks, less);
      SortedKeysUnique(keys - {ks[0]}, ks[1..], less);
      assert ks == [ks[0]] + ks[1..];
    }
  }

  /** Reading `m` at each key of an enumeration of its keys yields exactly
      its values. */
  lemma ValuesAt<K, V>(m: map<K, V>, ks: seq<K>, vs: seq<V>)
    requires forall k :: k in ks <==> k in m
    requires |vs| == |ks|
    requires forall i :: 0 <= i < |ks| ==> ks[i] in m && vs[i] == m[ks[i]]
    ensures forall v :: v in vs <==> v in m.Values
  {
    forall v | v in m.Values
      ensures v in vs
    {
      var k :| k in m && m[k] == v;
      var i :| 0 <= i < |ks| && ks[i] == k;
      assert vs[i] == v;
    }
  }

  /** The values of `m` in ascending key order (`m.values()`): each stored
      value once per key holding it, and nothing else. */
  function Values<K(!new), V(!new,==)>(m: map<K, V>, less: (K, K) -> bool): (vs: seq<V>)
    requires StrictOrder(less)
    ensures |vs| == |m|
    ensures forall i :: 0 <= i < |vs| ==> vs[i] == m[SortedKeys(m.Keys, less)[i]]
    ensures forall v :: v in vs <==> v in m.Values
  {
    var ks := SortedKeys(m.Keys, less);
    var vs := seq(|ks|, i requires 0 <= i < |ks| => m[ks[i]]);
    ValuesAt(m, ks, vs);
    vs
  }
}
