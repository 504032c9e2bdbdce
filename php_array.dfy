/**
 * PHP arrays as the assembly code uses them: string-keyed, insertion-ordered
 * dictionaries. Writing an existing key replaces its value and keeps its
 * position; writing a new key appends it. `array_keys` returns the keys in
 * that order.
 */
module PhpArray {

  /** No element occurs twice. */
  ghost predicate NoDup<T(!new)>(s: seq<T>) {
    forall i, j :: 0 <= i < j < |s| ==> s[i] != s[j]
  }

  /** The key list of a PHP array used as a set after `$set[x] = true`. */
  function AddUnique<T(==,!new)>(s: seq<T>, x: T): (r: seq<T>)
    ensures forall y :: y in r <==> y in s || y == x
    ensures NoDup(s) ==> NoDup(r)
    ensures x in s ==> r == s
    ensures x !in s ==> r == s + [x]
  {
    if x in s then s else s + [x]
  }

  /** `array_keys` of the set built by writing every element of `xs` in order:
      each element once, at the place of its first occurrence. */
  function Distinct<T(==,!new)>(xs: seq<T>): (r: seq<T>)
    ensures NoDup(r)
    ensures forall y :: y in r <==> y in xs
    ensures |r| <= |xs|
  {
    if xs == [] then [] else AddUnique(Distinct(xs[..|xs| - 1]), xs[|xs| - 1])
  }

  /** Position of the first occurrence of `x` in `s`. */
  function IndexOf<T(==,!new)>(s: seq<T>, x: T): (i: nat)
    requires x in s
    ensures i < |s| && s[i] == x
    ensures forall j :: 0 <= j < i ==> s[j] != x
  {
    if s[0] == x then 0 else 1 + IndexOf(s[1..], x)
  }

  /** Position of the last occurrence of `x` in `s`. */
  function LastIndexOf<T(==,!new)>(s: seq<T>, x: T): (i: nat)
    requires x in s
    ensures i < |s| && s[i] == x
    ensures forall j :: i < j < |s| ==> s[j] != x
  {
    if s[|s| - 1] == x then |s| - 1 else LastIndexOf(s[..|s| - 1], x)
  }

  lemma DistinctSnoc<T(!new)>(xs: seq<T>, x: T)
    ensures Distinct(xs + [x]) == AddUnique(Distinct(xs), x)
  {
    assert (xs + [x])[..|xs|] == xs;
  }

  /** Distinct keeps the order of first occurrences. */
  lemma {:induction false} DistinctFirstSeen<T(!new)>(xs: seq<T>, i: nat, j: nat)
    requires i < j < |Distinct(xs)|
    ensures IndexOf(xs, Distinct(xs)[i]) < IndexOf(xs, Distinct(xs)[j])
  {
    var n := |xs| - 1;
    var p, d := xs[..n], Distinct(xs);
    var dp := Distinct(p);
    assert xs == p + [xs[n]];
    if xs[n] in dp {
      assert d == dp;
      DistinctFirstSeen(p, i, j);
      IndexOfPrefix(p, xs, dp[i]);
      IndexOfPrefix(p, xs, dp[j]);
    } else {
      assert d == dp + [xs[n]];
      if j < |dp| {
        DistinctFirstSeen(p, i, j);
        IndexOfPrefix(p, xs, dp[i]);
        IndexOfPrefix(p, xs, dp[j]);
      } else {
        assert d[j] == xs[n] && xs[n] !in p;
        IndexOfPrefix(p, xs, dp[i]);
        IndexOfLast(p, xs[n]);
      }
    }
  }

  lemma IndexOfPrefix<T(!new)>(p: seq<T>, s: seq<T>, x: T)
    requires x in p && p <= s
    ensures x in s && IndexOf(s, x) == IndexOf(p, x)
  {
    var i := IndexOf(p, x);
    assert s[i] == x;
  }

  lemma IndexOfLast<T(!new)>(p: seq<T>, x: T)
    requires x !in p
    ensures IndexOf(p + [x], x) == |p|
  {
    var s := p + [x];
    assert s[|p|] == x;
  }

  /** A list without duplicates is its own Distinct. */
  lemma {:induction false} DistinctOfNoDup<T(!new)>(xs: seq<T>)
    requires NoDup(xs)
    ensures Distinct(xs) == xs
  {
    if xs != [] {
      var n := |xs| - 1;
      assert xs == xs[..n] + [xs[n]];
      DistinctOfNoDup(xs[..n]);
      assert xs[n] !in xs[..n];
    }
  }

  /** Deduplicating a prefix first changes nothing. */
  lemma {:induction false} DistinctOfDistinctPrefix<T(!new)>(a: seq<T>, b: seq<T>)
    ensures Distinct(Distinct(a) + b) == Distinct(a + b)
  {
    if b == [] {
      assert Distinct(a) + b == Distinct(a);
      assert a + b == a;
      DistinctOfNoDup(Distinct(a));
    } else {
      var n := |b| - 1;
      assert b == b[..n] + [b[n]];
      DistinctOfDistinctPrefix(a, b[..n]);
      assert Distinct(a) + b == (Distinct(a) + b[..n]) + [b[n]];
      assert a + b == (a + b[..n]) + [b[n]];
      DistinctSnoc(Distinct(a) + b[..n], b[n]);
      DistinctSnoc(a + b[..n], b[n]);
    }
  }

  /** An insertion-ordered PHP array with string keys. */
  datatype OrderedMap<V> = OrderedMap(keys: seq<string>, values: map<string, V>) {

    /** The key list holds every key exactly once. */
    ghost predicate Valid() {
      NoDup(keys) && forall k :: k in values <==> k in keys
    }

    /** `$array[$k] = $v`. */
    function Put(k: string, v: V): (r: OrderedMap<V>)
      ensures k in r.values && r.values[k] == v
      ensures forall j :: j != k ==> (j in r.values <==> j in values)
      ensures forall j :: j != k && j in values ==> r.values[j] == values[j]
      ensures Valid() ==> r.Valid() && r.keys == AddUnique(keys, k)
    {
      OrderedMap(if k in values then keys else keys + [k], values[k := v])
    }
  }

  function Empty<V>(): (m: OrderedMap<V>)
    ensures m.Valid() && m.keys == [] && m.values == map[]
  {
    OrderedMap([], map[])
  }

  /** The keys of a list of writes, in order. */
  function KeysOf<V>(es: seq<(string, V)>): (r: seq<string>)
    ensures |r| == |es|
    ensures forall i :: 0 <= i < |es| ==> r[i] == es[i].0
  {
    if es == [] then [] else KeysOf(es[..|es| - 1]) + [es[|es| - 1].0]
  }

  /** The array after `$result[$k] = $v` for every entry in order: the last
      write to a key wins, the first write fixes its position. */
  function PutAll<V>(es: seq<(string, V)>): OrderedMap<V> {
    if es == [] then Empty()
    else
      var n := |es| - 1;
      PutAll(es[..n]).Put(es[n].0, es[n].1)
  }

  /** Keys appear in the order of their first write, each once. */
  lemma {:induction false} PutAllKeys<V>(es: seq<(string, V)>)
    ensures PutAll(es).Valid() && PutAll(es).keys == Distinct(KeysOf(es))
  {
    if es != [] {
      var n := |es| - 1;
      assert KeysOf(es)[..n] == KeysOf(es[..n]);
      PutAllKeys(es[..n]);
    }
  }

  /** The array after "if (!array_key_exists($k, $result)) $result[$k] = $v"
      for every entry in order: the first write to a key wins. */
  function PutFirst<V>(es: seq<(string, V)>): OrderedMap<V> {
    if es == [] then Empty()
    else
      var n := |es| - 1;
      var m := PutFirst(es[..n]);
      if es[n].0 in m.values then m else m.Put(es[n].0, es[n].1)
  }

  /** Keys appear in the order of their first write, each once. */
  lemma {:induction false} PutFirstKeys<V>(es: seq<(string, V)>)
    ensures PutFirst(es).Valid() && PutFirst(es).keys == Distinct(KeysOf(es))
  {
    if es != [] {
      var n := |es| - 1;
      assert KeysOf(es)[..n] == KeysOf(es[..n]);
      PutFirstKeys(es[..n]);
    }
  }

  /** `$set[$x] = true` on the array of a set of the elements of `xs`. */
  lemma SetAdd(m: OrderedMap<bool>, xs: seq<string>, x: string)
    requires m.Valid() && m.keys == Distinct(xs)
    ensures m.Put(x, true).Valid() && m.Put(x, true).keys == Distinct(xs + [x])
  {
    DistinctSnoc(xs, x);
  }

  /** `$set[$x] = true` for the next element of `ys`. */
  lemma SetAddNext(m: OrderedMap<bool>, xs: seq<string>, ys: seq<string>, k: nat)
    requires k < |ys|
    requires m.Valid() && m.keys == Distinct(xs + ys[..k])
    ensures m.Put(ys[k], true).Valid() && m.Put(ys[k], true).keys == Distinct(xs + ys[..k + 1])
  {
    assert xs + ys[..k + 1] == (xs + ys[..k]) + [ys[k]];
    SetAdd(m, xs + ys[..k], ys[k]);
  }

  /** Creating an entry and then overwriting it is one write. */
  lemma PutPut<V>(m: OrderedMap<V>, k: string, v: V, w: V)
    ensures m.Put(k, v).Put(k, w) == m.Put(k, w)
  {
    assert m.values[k := v][k := w] == m.values[k := w];
  }

  /** The writes up to and including the `i`-th. */
  lemma PutAllPrefix<V>(es: seq<(string, V)>, i: nat)
    requires i < |es|
    ensures PutAll(es[..i + 1]) == PutAll(es[..i]).Put(es[i].0, es[i].1)
  {
    assert es[..i + 1][..i] == es[..i];
  }

  /** One more write at the end. */
  lemma PutAllSnoc<V>(es: seq<(string, V)>, e: (string, V))
    ensures PutAll(es + [e]) == PutAll(es).Put(e.0, e.1)
  {
    assert (es + [e])[..|es|] == es;
  }

  /** One write gives a one-key array. */
  lemma PutAllSingle<V>(es: seq<(string, V)>)
    requires |es| == 1
    ensures PutAll(es).keys == [es[0].0]
    ensures es[0].0 in PutAll(es).values && PutAll(es).values[es[0].0] == es[0].1
  {
    assert es[..0] == [];
  }

  lemma PutFirstSnoc<V>(es: seq<(string, V)>, e: (string, V))
    ensures PutFirst(es + [e]) == if e.0 in PutFirst(es).values then PutFirst(es) else PutFirst(es).Put(e.0, e.1)
  {
    assert (es + [e])[..|es|] == es;
  }

  /** Every key written by some entry is present. */
  lemma PutAllHas<V>(es: seq<(string, V)>, i: nat)
    requires i < |es|
    ensures es[i].0 in PutAll(es).values
  {
    assert KeysOf(es)[i] == es[i].0;
  }

  /** The last entry that writes a key gives that key's value. */
  lemma {:induction false} PutAllLast<V>(es: seq<(string, V)>, i: nat)
    requires i < |es|
    requires forall j :: i < j < |es| ==> es[j].0 != es[i].0
    ensures es[i].0 in PutAll(es).values && PutAll(es).values[es[i].0] == es[i].1
  {
    var n := |es| - 1;
    if i < n {
      PutAllLast(es[..n], i);
    }
  }

  /** A present key was last written by some entry, which gives its value. */
  lemma PutAllAt<V>(es: seq<(string, V)>, k: string) returns (i: nat)
    requires k in PutAll(es).values
    ensures i < |es| && es[i].0 == k
    ensures forall j :: i < j < |es| ==> es[j].0 != k
    ensures PutAll(es).values[k] == es[i].1
  {
    var ks := KeysOf(es);
    PutAllKeys(es);
    assert k in Distinct(ks);
    i := LastIndexOf(ks, k);
    PutAllLast(es, i);
  }

  /** Every key written by some entry is present. */
  lemma PutFirstHas<V>(es: seq<(string, V)>, i: nat)
    requires i < |es|
    ensures es[i].0 in PutFirst(es).values
  {
    assert KeysOf(es)[i] == es[i].0;
  }

  /** The first entry that writes a key gives that key's value. */
  lemma {:induction false} PutFirstFirst<V>(es: seq<(string, V)>, i: nat)
    requires i < |es|
    requires forall j :: 0 <= j < i ==> es[j].0 != es[i].0
    ensures es[i].0 in PutFirst(es).values && PutFirst(es).values[es[i].0] == es[i].1
  {
    var n := |es| - 1;
    var p := es[..n];
    assert es == p + [es[n]];
    PutFirstSnoc(p, es[n]);
    if i < n {
      forall j | 0 <= j < i ensures p[j].0 != p[i].0 {
        assert p[j] == es[j] && p[i] == es[i];
      }
      PutFirstFirst(p, i);
    } else {
      PutFirstAbsent(p, es[n].0);
    }
  }

  /** A key that no entry writes is absent. */
  lemma PutFirstAbsent<V>(es: seq<(string, V)>, k: string)
    requires forall j :: 0 <= j < |es| ==> es[j].0 != k
    ensures k !in PutFirst(es).values
  {
    var ks := KeysOf(es);
    assert k !in ks;
  }

  /** The array with every value passed through `f`, keys and order unchanged. */
  function MapValues<V, W>(m: OrderedMap<V>, f: V -> W): (r: OrderedMap<W>)
    ensures r.keys == m.keys
    ensures forall k :: k in r.values <==> k in m.values
    ensures forall k :: k in m.values ==> r.values[k] == f(m.values[k])
  {
    OrderedMap(m.keys, map k | k in m.values :: f(m.values[k]))
  }

  /** Mapping the values commutes with a write. */
  lemma MapValuesPut<V, W>(m: OrderedMap<V>, k: string, v: V, f: V -> W)
    ensures MapValues(m.Put(k, v), f) == MapValues(m, f).Put(k, f(v))
  {
    assert MapValues(m.Put(k, v), f).values == MapValues(m, f).Put(k, f(v)).values;
  }

  /** Writing entries whose values have been mapped gives the mapped array. */
  lemma {:induction false} PutAllMapValues<V, W>(es: seq<(string, V)>, fs: seq<(string, W)>, f: V -> W)
    requires |fs| == |es|
    requires forall i :: 0 <= i < |es| ==> fs[i] == (es[i].0, f(es[i].1))
    ensures PutAll(fs) == MapValues(PutAll(es), f)
  {
    if es == [] {
      assert MapValues(PutAll(es), f).values == map[];
    } else {
      var n := |es| - 1;
      PutAllMapValues(es[..n], fs[..n], f);
      MapValuesPut(PutAll(es[..n]), es[n].0, es[n].1, f);
    }
  }
}
