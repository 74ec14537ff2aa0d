/**
 * Python's `dict` as the scripts use it: an insertion-ordered table in which
 * every key occurs once. `d[k] = v` replaces the value of a present key in
 * place and appends a new key at the end; `l | r` is `l` updated with the
 * items of `r` in order; and `defaultdict(list)` with `d[k].append(v)`
 * groups values under their keys.
 */
module PyDict {
  import opened Results

  /** The items of a dict, in insertion order. */
  type Dict<K, V> = seq<(K, V)>

  function Keys<K, V>(d: Dict<K, V>): (ks: seq<K>)
    ensures |ks| == |d|
    ensures forall i | 0 <= i < |d| :: ks[i] == d[i].0
  {
    if d == [] then [] else [d[0].0] + Keys(d[1..])
  }

  predicate Distinct<T(==)>(s: seq<T>) {
    forall i, j | 0 <= i < j < |s| :: s[i] != s[j]
  }

  /** Python never holds a key twice. */
  predicate Valid<K(==), V>(d: Dict<K, V>) {
    Distinct(Keys(d))
  }

  /** Position of the first `k` in `ks`, or `|ks|` when `k` is not there. */
  function Find<K(==)>(ks: seq<K>, k: K): (i: nat)
    ensures i <= |ks|
    ensures i < |ks| <==> k in ks
    ensures i < |ks| ==> ks[i] == k
    ensures forall j | 0 <= j < i :: ks[j] != k
  {
    if ks == [] then 0 else if ks[0] == k then 0 else 1 + Find(ks[1..], k)
  }

  /** `d.get(k)`: the value of the first item with key `k`. */
  function Get<K(==), V>(d: Dict<K, V>, k: K): (r: Option<V>)
    ensures r.Some? <==> k in Keys(d)
  {
    if d == [] then None
    else if d[0].0 == k then Some(d[0].1)
    else Get(d[1..], k)
  }

  /** `d.get(k, default)`, which is also what `d[k]` reads in a `defaultdict`. */
  function GetOr<K(==), V>(d: Dict<K, V>, k: K, default: V): V {
    match Get(d, k)
    case Some(v) => v
    case None => default
  }

  /** The mapping a dict stands for, forgetting the order of its keys. */
  function ToMap<K(==), V>(d: Dict<K, V>): (m: map<K, V>)
    ensures m.Keys == set k | k in Keys(d)
    ensures forall k | k in m :: Get(d, k) == Some(m[k])
  {
    map k | k in Keys(d) :: Get(d, k).value
  }

  /** `d[k] = v`: a present key keeps its place and takes the new value; a new key goes last. */
  function Put<K(==, !new), V>(d: Dict<K, V>, k: K, v: V): (r: Dict<K, V>)
    ensures Keys(r) == if k in Keys(d) then Keys(d) else Keys(d) + [k]
    ensures Valid(d) ==> Valid(r)
    ensures Get(r, k) == Some(v)
    ensures forall k' | k' != k :: Get(r, k') == Get(d, k')
  {
    if d == [] then [(k, v)]
    else if d[0].0 == k then
      PutHead(d, v);
      [(k, v)] + d[1..]
    else
      var r1 := Put(d[1..], k, v);
      PutCons(d, k, v, r1);
      [d[0]] + r1
  }

  lemma PutHead<K(!new), V>(d: Dict<K, V>, v: V)
    requires d != []
    ensures var r := [(d[0].0, v)] + d[1..];
            && Keys(r) == Keys(d)
            && (Valid(d) ==> Valid(r))
            && Get(r, d[0].0) == Some(v)
            && forall k' | k' != d[0].0 :: Get(r, k') == Get(d, k')
  {
    var r := [(d[0].0, v)] + d[1..];
    assert r[1..] == d[1..];
    KeysCons(r);
    KeysCons(d);
  }

  lemma PutCons<K(!new), V>(d: Dict<K, V>, k: K, v: V, r1: Dict<K, V>)
    requires d != [] && d[0].0 != k
    requires Keys(r1) == if k in Keys(d[1..]) then Keys(d[1..]) else Keys(d[1..]) + [k]
    requires Valid(d[1..]) ==> Valid(r1)
    requires Get(r1, k) == Some(v)
    requires forall k' | k' != k :: Get(r1, k') == Get(d[1..], k')
    ensures var r := [d[0]] + r1;
            && Keys(r) == (if k in Keys(d) then Keys(d) else Keys(d) + [k])
            && (Valid(d) ==> Valid(r))
            && Get(r, k) == Some(v)
            && forall k' | k' != k :: Get(r, k') == Get(d, k')
  {
    PutConsKeys(d, k, r1);
    if Valid(d) {
      KeysCons(d);
      DistinctCons(d[0].0, Keys(d[1..]));
      PutConsValid(d, k, r1);
    }
    PutConsGet(d, k, r1);
  }

  lemma PutConsKeys<K, V>(d: Dict<K, V>, k: K, r1: Dict<K, V>)
    requires d != [] && d[0].0 != k
    requires Keys(r1) == if k in Keys(d[1..]) then Keys(d[1..]) else Keys(d[1..]) + [k]
    ensures Keys([d[0]] + r1) == if k in Keys(d) then Keys(d) else Keys(d) + [k]
  {
    var r := [d[0]] + r1;
    assert r[1..] == r1;
    KeysCons(r);
    KeysCons(d);
    assert k in Keys(d) <==> k in Keys(d[1..]);
    if k !in Keys(d[1..]) {
      assert [d[0].0] + (Keys(d[1..]) + [k]) == Keys(d) + [k];
    }
  }

  lemma PutConsValid<K, V>(d: Dict<K, V>, k: K, r1: Dict<K, V>)
    requires d != [] && d[0].0 != k
    requires Keys(r1) == if k in Keys(d[1..]) then Keys(d[1..]) else Keys(d[1..]) + [k]
    requires d[0].0 !in Keys(d[1..]) && Valid(r1)
    ensures Valid([d[0]] + r1)
  {
    var r := [d[0]] + r1;
    assert r[1..] == r1;
    KeysCons(r);
    assert d[0].0 !in Keys(r1);
    DistinctCons(d[0].0, Keys(r1));
  }

  lemma PutConsGet<K, V>(d: Dict<K, V>, k: K, r1: Dict<K, V>)
    requires d != [] && d[0].0 != k
    ensures Get([d[0]] + r1, k) == Get(r1, k)
    ensures forall k' | k' != d[0].0 :: Get([d[0]] + r1, k') == Get(r1, k')
    ensures Get([d[0]] + r1, d[0].0) == Get(d, d[0].0)
  {
    var r := [d[0]] + r1;
    assert r[0] == d[0] && r[1..] == r1;
  }

  lemma KeysCons<K, V>(d: Dict<K, V>)
    requires d != []
    ensures Keys(d) == [d[0].0] + Keys(d[1..])
  {
  }

  lemma DistinctCons<T>(x: T, s: seq<T>)
    ensures Distinct([x] + s) <==> x !in s && Distinct(s)
  {
    var t := [x] + s;
    if x !in s && Distinct(s) {
      forall i, j | 0 <= i < j < |t| ensures t[i] != t[j] {
        assert t[j] == s[j - 1];
        if i > 0 {
          assert t[i] == s[i - 1];
        }
      }
    }
    if Distinct(t) {
      forall i, j | 0 <= i < j < |s| ensures s[i] != s[j] {
        assert s[i] == t[i + 1] && s[j] == t[j + 1];
      }
      forall j | 0 <= j < |s| ensures s[j] != x {
        assert t[0] != t[j + 1];
      }
    }
  }

  /** A dict's lookup finds the value of each of its items, when no key repeats. */
  lemma {:induction false} GetAt<K(!new), V>(d: Dict<K, V>, i: nat)
    requires Valid(d) && i < |d|
    ensures Get(d, d[i].0) == Some(d[i].1)
  {
    if i > 0 {
      KeysCons(d);
      DistinctCons(d[0].0, Keys(d[1..]));
      assert Keys(d[1..])[i - 1] == d[i].0;
      GetAt(d[1..], i - 1);
    }
  }

  /** Two dicts with the same lookups stand for the same mapping. */
  lemma ToMapByGet<K(!new), V>(d: Dict<K, V>, e: Dict<K, V>)
    requires (set k | k in Keys(d)) == (set k | k in Keys(e))
    requires forall k | k in Keys(d) :: Get(d, k) == Get(e, k)
    ensures ToMap(d) == ToMap(e)
  {
    var m, n := ToMap(d), ToMap(e);
    forall k | k in m ensures k in n && m[k] == n[k] {
      assert Get(d, k) == Some(m[k]) && Get(e, k) == Some(n[k]);
    }
  }

  /** A mapping with the dict's keys and lookups is the one it stands for. */
  lemma ToMapIs<K(!new), V>(d: Dict<K, V>, m: map<K, V>)
    requires forall k :: k in m <==> k in Keys(d)
    requires forall k | k in m :: Get(d, k) == Some(m[k])
    ensures ToMap(d) == m
  {
    var t := ToMap(d);
    assert t.Keys == m.Keys;
    forall k | k in t ensures t[k] == m[k] {
      assert Get(d, k) == Some(t[k]);
    }
  }

  /** Putting a key changes the mapping at that key and nowhere else. */
  lemma PutToMap<K(!new), V>(d: Dict<K, V>, k: K, v: V)
    ensures ToMap(Put(d, k, v)) == ToMap(d)[k := v]
  {
    var r := Put(d, k, v);
    var n := ToMap(d)[k := v];
    forall k' | k' in n ensures Get(r, k') == Some(n[k']) {
      if k' != k {
        assert Get(d, k') == Some(ToMap(d)[k']);
      }
    }
    ToMapIs(r, n);
  }

  /** The keys of `s` in order of first appearance after those of `acc`, each once. */
  function DedupInto<T(==)>(acc: seq<T>, s: seq<T>): seq<T>
    decreases |s|
  {
    if s == [] then acc
    else DedupInto(if s[0] in acc then acc else acc + [s[0]], s[1..])
  }

  function Dedup<T(==)>(s: seq<T>): seq<T> {
    DedupInto([], s)
  }

  lemma {:induction false} DedupIntoFacts<T>(acc: seq<T>, s: seq<T>)
    requires Distinct(acc)
    ensures Distinct(DedupInto(acc, s))
    ensures acc <= DedupInto(acc, s)
    ensures forall x :: x in DedupInto(acc, s) <==> x in acc || x in s
    decreases |s|
  {
    if s != [] {
      var acc' := if s[0] in acc then acc else acc + [s[0]];
      DedupIntoFacts(acc', s[1..]);
      assert forall x :: x in s <==> x == s[0] || x in s[1..] by {
        assert s == [s[0]] + s[1..];
      }
    }
  }

  /** `l | r`: the items of `l`, then the new ones of `r`; on a shared key `r`'s value wins, in `l`'s place. */
  function Union<K(==, !new), V>(l: Dict<K, V>, r: Dict<K, V>): Dict<K, V>
    decreases |r|
  {
    if r == [] then l else Union(Put(l, r[0].0, r[0].1), r[1..])
  }

  /** Lookups in `l | r` find `r`'s value first, then `l`'s; its keys are `l`'s followed by `r`'s new ones. */
  lemma UnionFacts<K(!new), V>(l: Dict<K, V>, r: Dict<K, V>)
    requires Valid(l) && Valid(r)
    ensures Valid(Union(l, r))
    ensures Keys(Union(l, r)) == DedupInto(Keys(l), Keys(r))
    ensures forall k :: Get(Union(l, r), k) == if k in Keys(r) then Get(r, k) else Get(l, k)
  {
    UnionKeys(l, r);
    DedupIntoFacts(Keys(l), Keys(r));
    forall k ensures Get(Union(l, r), k) == if k in Keys(r) then Get(r, k) else Get(l, k) {
      UnionGet(l, r, k);
    }
  }

  lemma {:induction false} UnionKeys<K(!new), V>(l: Dict<K, V>, r: Dict<K, V>)
    ensures Keys(Union(l, r)) == DedupInto(Keys(l), Keys(r))
    decreases |r|
  {
    if r != [] {
      KeysCons(r);
      UnionKeys(Put(l, r[0].0, r[0].1), r[1..]);
    }
  }

  lemma {:induction false} UnionGet<K(!new), V>(l: Dict<K, V>, r: Dict<K, V>, k: K)
    requires Valid(r)
    ensures Get(Union(l, r), k) == if k in Keys(r) then Get(r, k) else Get(l, k)
    decreases |r|
  {
    if r != [] {
      var l' := Put(l, r[0].0, r[0].1);
      KeysCons(r);
      DistinctCons(r[0].0, Keys(r[1..]));
      UnionGet(l', r[1..], k);
      if k in Keys(r[1..]) {
        GetTail(r, k);
      } else if k == r[0].0 {
        assert Get(r, k) == Some(r[0].1);
      } else {
        assert Get(l', k) == Get(l, k);
      }
    }
  }

  /** In a dict without repeated keys, the lookup of a key of the tail ignores the head. */
  lemma GetTail<K(!new), V>(r: Dict<K, V>, k: K)
    requires Valid(r) && r != [] && k in Keys(r[1..])
    ensures Get(r, k) == Get(r[1..], k)
  {
    KeysCons(r);
    DistinctCons(r[0].0, Keys(r[1..]));
  }

  /** As a mapping, `l | r` is the right-biased union of the two mappings. */
  lemma UnionToMap<K(!new), V>(l: Dict<K, V>, r: Dict<K, V>)
    requires Valid(l) && Valid(r)
    ensures ToMap(Union(l, r)) == ToMap(l) + ToMap(r)
  {
    UnionFacts(l, r);
    var u := Union(l, r);
    DedupIntoFacts(Keys(l), Keys(r));
    var n := ToMap(l) + ToMap(r);
    forall k | k in n ensures Get(u, k) == Some(n[k]) {
      if k in Keys(r) {
        assert Get(r, k) == Some(ToMap(r)[k]);
      } else {
        assert Get(l, k) == Some(ToMap(l)[k]);
      }
    }
    ToMapIs(u, n);
  }

  /** `{x: f(x) for x in ks}`, added to `acc`. */
  function ComprehensionInto<K(==, !new), V>(acc: Dict<K, V>, ks: seq<K>, f: K -> V): Dict<K, V>
    decreases |ks|
  {
    if ks == [] then acc else ComprehensionInto(Put(acc, ks[0], f(ks[0])), ks[1..], f)
  }

  /** `{x: f(x) for x in ks}` */
  function Comprehension<K(==, !new), V>(ks: seq<K>, f: K -> V): Dict<K, V> {
    ComprehensionInto([], ks, f)
  }

  /** The comprehension has each `x` of `ks` once, in order of first appearance, mapped to `f(x)`. */
  lemma ComprehensionIntoFacts<K(!new), V>(acc: Dict<K, V>, ks: seq<K>, f: K -> V)
    requires Valid(acc)
    ensures Valid(ComprehensionInto(acc, ks, f))
    ensures Keys(ComprehensionInto(acc, ks, f)) == DedupInto(Keys(acc), ks)
    ensures forall k :: Get(ComprehensionInto(acc, ks, f), k) == if k in ks then Some(f(k)) else Get(acc, k)
  {
    ComprehensionIntoKeys(acc, ks, f);
    DedupIntoFacts(Keys(acc), ks);
    forall k ensures Get(ComprehensionInto(acc, ks, f), k) == if k in ks then Some(f(k)) else Get(acc, k) {
      ComprehensionIntoGet(acc, ks, f, k);
    }
  }

  lemma {:induction false} ComprehensionIntoKeys<K(!new), V>(acc: Dict<K, V>, ks: seq<K>, f: K -> V)
    ensures Keys(ComprehensionInto(acc, ks, f)) == DedupInto(Keys(acc), ks)
    decreases |ks|
  {
    if ks != [] {
      ComprehensionIntoKeys(Put(acc, ks[0], f(ks[0])), ks[1..], f);
    }
  }

  lemma {:induction false} ComprehensionIntoGet<K(!new), V>(acc: Dict<K, V>, ks: seq<K>, f: K -> V, k: K)
    ensures Get(ComprehensionInto(acc, ks, f), k) == if k in ks then Some(f(k)) else Get(acc, k)
    decreases |ks|
  {
    if ks != [] {
      var acc' := Put(acc, ks[0], f(ks[0]));
      assert ComprehensionInto(acc, ks, f) == ComprehensionInto(acc', ks[1..], f);
      ComprehensionIntoGet(acc', ks[1..], f, k);
      InTail(ks, k);
      if k !in ks[1..] {
        if k == ks[0] {
          assert Get(acc', k) == Some(f(k));
        } else {
          assert Get(acc', k) == Get(acc, k);
        }
      }
    }
  }

  lemma InTail<T>(s: seq<T>, x: T)
    requires s != []
    ensures x in s <==> x == s[0] || x in s[1..]
  {
    assert s == [s[0]] + s[1..];
  }

  /** `d[k].append(v)` on a `defaultdict(list)`: a missing key starts from the empty list. */
  function AppendTo<K(==, !new), V>(d: Dict<K, seq<V>>, k: K, v: V): Dict<K, seq<V>> {
    Put(d, k, GetOr(d, k, []) + [v])
  }

  lemma AppendToGetOr<K(!new), V>(d: Dict<K, seq<V>>, k0: K, v0: V, k: K)
    ensures GetOr(AppendTo(d, k0, v0), k, []) == GetOr(d, k, []) + (if k0 == k then [v0] else [])
  {
    var w := GetOr(d, k0, []) + [v0];
    var r := Put(d, k0, w);
    assert AppendTo(d, k0, v0) == r;
    if k == k0 {
      assert Get(r, k) == Some(w);
    } else {
      assert Get(r, k) == Get(d, k);
      GetOrSame(r, d, k);
    }
  }

  lemma GetOrSame<K, V>(d: Dict<K, seq<V>>, e: Dict<K, seq<V>>, k: K)
    requires Get(d, k) == Get(e, k)
    ensures GetOr(d, k, []) == GetOr(e, k, [])
  {
  }

  /** `for k, v in kvs: acc[k].append(v)` */
  function GroupInto<K(==, !new), V>(acc: Dict<K, seq<V>>, kvs: seq<(K, V)>): Dict<K, seq<V>>
    decreases |kvs|
  {
    if kvs == [] then acc else GroupInto(AppendTo(acc, kvs[0].0, kvs[0].1), kvs[1..])
  }

  /** One more pair at the end is one more append at the end. */
  lemma {:induction false} GroupIntoSnoc<K(!new), V>(acc: Dict<K, seq<V>>, kvs: seq<(K, V)>, k: K, v: V)
    ensures GroupInto(acc, kvs + [(k, v)]) == AppendTo(GroupInto(acc, kvs), k, v)
    decreases |kvs|
  {
    if kvs == [] {
      assert kvs + [(k, v)] == [(k, v)];
    } else {
      assert (kvs + [(k, v)])[1..] == kvs[1..] + [(k, v)];
      GroupIntoSnoc(AppendTo(acc, kvs[0].0, kvs[0].1), kvs[1..], k, v);
    }
  }

  /** Grouping into a fresh `defaultdict(list)`. */
  function Group<K(==, !new), V>(kvs: seq<(K, V)>): Dict<K, seq<V>> {
    GroupInto([], kvs)
  }

  lemma GroupSnoc<K(!new), V>(kvs: seq<(K, V)>, k: K, v: V)
    ensures Group(kvs + [(k, v)]) == AppendTo(Group(kvs), k, v)
  {
    GroupIntoSnoc([], kvs, k, v);
  }

  /** The values paired with `k` in `kvs`, in their order there. */
  function ValuesFor<K(==), V>(kvs: seq<(K, V)>, k: K): (vs: seq<V>)
    ensures |vs| <= |kvs|
    ensures vs != [] <==> k in Keys(kvs)
  {
    if kvs == [] then []
    else
      assert Keys(kvs) == [kvs[0].0] + Keys(kvs[1..]);
      (if kvs[0].0 == k then [kvs[0].1] else []) + ValuesFor(kvs[1..], k)
  }

  /** Grouping adds a key exactly when it first occurs, and never repeats one. */
  lemma {:induction false} GroupIntoKeys<K(!new), V>(acc: Dict<K, seq<V>>, kvs: seq<(K, V)>)
    requires Valid(acc)
    ensures Valid(GroupInto(acc, kvs))
    ensures Keys(GroupInto(acc, kvs)) == DedupInto(Keys(acc), Keys(kvs))
    decreases |kvs|
  {
    if kvs != [] {
      var acc' := AppendTo(acc, kvs[0].0, kvs[0].1);
      AppendToKeys(acc, kvs[0].0, kvs[0].1);
      KeysCons(kvs);
      GroupIntoKeys(acc', kvs[1..]);
    }
  }

  lemma AppendToKeys<K(!new), V>(d: Dict<K, seq<V>>, k: K, v: V)
    ensures Keys(AppendTo(d, k, v)) == if k in Keys(d) then Keys(d) else Keys(d) + [k]
    ensures Valid(d) ==> Valid(AppendTo(d, k, v))
  {
  }

  /** Grouping appends each key's values to its list, in order. */
  lemma {:induction false} GroupIntoValues<K(!new), V>(acc: Dict<K, seq<V>>, kvs: seq<(K, V)>, k: K)
    ensures GetOr(GroupInto(acc, kvs), k, []) == GetOr(acc, k, []) + ValuesFor(kvs, k)
    decreases |kvs|
  {
    if kvs != [] {
      var k0, v0 := kvs[0].0, kvs[0].1;
      var acc' := AppendTo(acc, k0, v0);
      assert GroupInto(acc, kvs) == GroupInto(acc', kvs[1..]);
      GroupIntoValues(acc', kvs[1..], k);
      AppendToGetOr(acc, k0, v0, k);
      ValuesForCons(kvs, k);
      Regroup(GetOr(GroupInto(acc', kvs[1..]), k, []), GetOr(acc', k, []), GetOr(acc, k, []),
              if k0 == k then [v0] else [], ValuesFor(kvs[1..], k), ValuesFor(kvs, k));
    }
  }

  lemma Regroup<V>(g: seq<V>, a': seq<V>, a: seq<V>, here: seq<V>, rest: seq<V>, all: seq<V>)
    requires g == a' + rest && a' == a + here && all == here + rest
    ensures g == a + all
  {
  }

  lemma ValuesForCons<K, V>(kvs: seq<(K, V)>, k: K)
    requires kvs != []
    ensures ValuesFor(kvs, k) == (if kvs[0].0 == k then [kvs[0].1] else []) + ValuesFor(kvs[1..], k)
  {
  }

  /** A key of a group holds exactly the values paired with it, in order; no other key is present. */
  lemma GroupMeaning<K(!new), V>(kvs: seq<(K, V)>)
    ensures Valid(Group(kvs))
    ensures Keys(Group(kvs)) == Dedup(Keys(kvs))
    ensures ToMap(Group(kvs)) == map k | k in Keys(kvs) :: ValuesFor(kvs, k)
  {
    GroupIntoKeys([], kvs);
    GroupToMap(kvs);
  }

  lemma GroupToMap<K(!new), V>(kvs: seq<(K, V)>)
    requires Keys(Group(kvs)) == DedupInto([], Keys(kvs))
    ensures ToMap(Group(kvs)) == map k | k in Keys(kvs) :: ValuesFor(kvs, k)
  {
    DedupIntoFacts([], Keys(kvs));
    var m, n := ToMap(Group(kvs)), map k | k in Keys(kvs) :: ValuesFor(kvs, k);
    assert m.Keys == n.Keys;
    forall k | k in m ensures m[k] == n[k] {
      GroupValue(kvs, k, m[k]);
    }
  }

  lemma GroupValue<K(!new), V>(kvs: seq<(K, V)>, k: K, vs: seq<V>)
    requires Get(Group(kvs), k) == Some(vs)
    ensures vs == ValuesFor(kvs, k)
  {
    GroupIntoValues([], kvs, k);
    assert GetOr(Group(kvs), k, []) == vs;
    var empty: Dict<K, seq<V>> := [];
    assert GetOr(empty, k, []) == [];
  }

  /** A group has each key once, in order of first appearance, holding that key's values. */
  lemma GroupFacts<K(!new), V>(kvs: seq<(K, V)>)
    ensures Valid(Group(kvs))
    ensures Keys(Group(kvs)) == Dedup(Keys(kvs))
    ensures forall i | 0 <= i < |Group(kvs)| :: Group(kvs)[i].1 == ValuesFor(kvs, Group(kvs)[i].0)
  {
    GroupIntoKeys([], kvs);
    forall i | 0 <= i < |Group(kvs)| ensures Group(kvs)[i].1 == ValuesFor(kvs, Group(kvs)[i].0) {
      GroupAt(kvs, i);
    }
  }

  /** Each item of a group holds exactly the values paired with its key. */
  lemma GroupAt<K(!new), V>(kvs: seq<(K, V)>, i: nat)
    requires i < |Group(kvs)|
    ensures Group(kvs)[i].1 == ValuesFor(kvs, Group(kvs)[i].0)
  {
    var g := Group(kvs);
    GroupIntoKeys([], kvs);
    GetAt(g, i);
    GroupValue(kvs, g[i].0, g[i].1);
  }

  /** The number of values held over all keys. */
  function TotalLength<K, V>(d: Dict<K, seq<V>>): nat {
    if d == [] then 0 else |d[0].1| + TotalLength(d[1..])
  }

  /** `d[k] = w` replaces the list held under `k`, if any, by `w`. */
  lemma {:induction false} PutTotalLength<K(!new), V>(d: Dict<K, seq<V>>, k: K, w: seq<V>)
    ensures TotalLength(Put(d, k, w)) == TotalLength(d) - |GetOr(d, k, [])| + |w|
  {
    if d != [] && d[0].0 != k {
      PutTotalLength(d[1..], k, w);
      assert Put(d, k, w)[1..] == Put(d[1..], k, w);
    }
  }

  /** Grouping loses no value and invents none: the lists together hold one entry per pair. */
  lemma {:induction false} GroupIntoTotalLength<K(!new), V>(acc: Dict<K, seq<V>>, kvs: seq<(K, V)>)
    ensures TotalLength(GroupInto(acc, kvs)) == TotalLength(acc) + |kvs|
    decreases |kvs|
  {
    if kvs != [] {
      var k, v := kvs[0].0, kvs[0].1;
      PutTotalLength(acc, k, GetOr(acc, k, []) + [v]);
      GroupIntoTotalLength(AppendTo(acc, k, v), kvs[1..]);
    }
  }
}
