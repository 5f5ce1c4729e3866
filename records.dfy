/**
 * A JavaScript object with string keys, as the source uses them for error
 * records, the availability map and request bodies: a list of entries in
 * insertion order.  Assigning an existing key replaces its value where it
 * stands; assigning a new key appends it; `delete` removes it.
 */
module Records {

  import opened Wrappers

  type Rec<V> = seq<(string, V)>

  predicate NoDuplicates<T(==)>(s: seq<T>) {
    forall i, j :: 0 <= i < j < |s| ==> s[i] != s[j]
  }

  /** `Object.keys(r)`. */
  function Keys<V>(r: Rec<V>): (ks: seq<string>)
    ensures |ks| == |r|
  {
    if r == [] then [] else [r[0].0] + Keys(r[1..])
  }

  lemma {:induction false} KeysAt<V>(r: Rec<V>, i: nat)
    requires i < |r|
    ensures Keys(r)[i] == r[i].0
  {
    if i > 0 { KeysAt(r[1..], i - 1); }
  }

  predicate HasKey<V>(r: Rec<V>, k: string) {
    k in Keys(r)
  }

  predicate DistinctKeys<V>(r: Rec<V>) {
    NoDuplicates(Keys(r))
  }

  /** `r[k]`, with `None` for `undefined`: the value of the entry with key `k`. */
  function Get<V>(r: Rec<V>, k: string): (v: Option<V>)
    ensures v.Some? <==> HasKey(r, k)
  {
    if r == [] then None
    else if r[0].0 == k then Some(r[0].1)
    else Get(r[1..], k)
  }

  /** `r[k] = v`. */
  function Set<V>(r: Rec<V>, k: string, v: V): (s: Rec<V>)
    ensures HasKey(r, k) ==> Keys(s) == Keys(r)
    ensures !HasKey(r, k) ==> Keys(s) == Keys(r) + [k]
  {
    if r == [] then [(k, v)]
    else if r[0].0 == k then [(k, v)] + r[1..]
    else [r[0]] + Set(r[1..], k, v)
  }

  lemma {:induction false} SetGet<V>(r: Rec<V>, k: string, v: V, k': string)
    ensures Get(Set(r, k, v), k') == if k' == k then Some(v) else Get(r, k')
  {
    if r != [] && r[0].0 != k {
      SetGet(r[1..], k, v, k');
    }
  }

  lemma SetDistinct<V>(r: Rec<V>, k: string, v: V)
    requires DistinctKeys(r)
    ensures DistinctKeys(Set(r, k, v))
  {
  }

  /** `delete r[k]`. */
  function Delete<V>(r: Rec<V>, k: string): (s: Rec<V>)
    ensures !HasKey(s, k)
  {
    if r == [] then []
    else if r[0].0 == k then Delete(r[1..], k)
    else [r[0]] + Delete(r[1..], k)
  }

  lemma {:induction false} DeleteGet<V>(r: Rec<V>, k: string, k': string)
    ensures Get(Delete(r, k), k') == if k' == k then None else Get(r, k')
  {
    if r != [] {
      DeleteGet(r[1..], k, k');
    }
  }

  lemma {:induction false} DeleteKeys<V>(r: Rec<V>, k: string, k': string)
    ensures HasKey(Delete(r, k), k') <==> HasKey(r, k') && k' != k
  {
    DeleteGet(r, k, k');
  }

  lemma {:induction false} DeleteDistinct<V>(r: Rec<V>, k: string)
    requires DistinctKeys(r)
    ensures DistinctKeys(Delete(r, k))
  {
    if r != [] {
      assert DistinctKeys(r[1..]) by {
        var ks := Keys(r[1..]);
        forall i, j | 0 <= i < j < |ks| ensures ks[i] != ks[j] {
          assert ks[i] == Keys(r)[i + 1] && ks[j] == Keys(r)[j + 1];
        }
      }
      DeleteDistinct(r[1..], k);
      if r[0].0 != k {
        DeleteKeys(r[1..], k, r[0].0);
        assert r[0].0 !in Keys(r[1..]) by {
          forall j | 0 <= j < |Keys(r[1..])| ensures Keys(r[1..])[j] != r[0].0 {
            assert Keys(r)[0] == r[0].0 && Keys(r)[j + 1] == Keys(r[1..])[j];
          }
        }
      }
    }
  }

  /** The keys of `ks` that are not in `drop`, in their order. */
  function Without(ks: seq<string>, drop: seq<string>): (r: seq<string>)
    ensures forall k :: k in r <==> k in ks && k !in drop
  {
    if ks == [] then [] else (if ks[0] in drop then [] else [ks[0]]) + Without(ks[1..], drop)
  }

  /** Dropping nothing keeps every key. */
  lemma {:induction false} WithoutNothing(ks: seq<string>)
    ensures Without(ks, []) == ks
  {
    if ks != [] {
      WithoutNothing(ks[1..]);
    }
  }

  /** Dropping one more key after the others is dropping them all at once. */
  lemma {:induction false} WithoutSnoc(ks: seq<string>, drop: seq<string>, k: string)
    ensures Without(Without(ks, drop), [k]) == Without(ks, drop + [k])
  {
    if ks != [] {
      var h, t := ks[0], ks[1..];
      WithoutSnoc(t, drop, k);
      var w := Without(t, drop);
      assert Without(ks, drop + [k]) == (if h in drop + [k] then [] else [h]) + Without(t, drop + [k]);
      assert h in drop + [k] <==> h in drop || h == k;
      if h !in drop {
        assert Without(ks, drop) == [h] + w;
        WithoutCons(h, w, [k]);
        assert h in [k] <==> h == k;
      } else {
        assert Without(ks, drop) == w;
      }
    }
  }

  lemma WithoutCons(h: string, t: seq<string>, drop: seq<string>)
    ensures Without([h] + t, drop) == (if h in drop then [] else [h]) + Without(t, drop)
  {
    assert ([h] + t)[1..] == t;
  }

  /** `delete` removes the key from the key list and keeps the order of the others. */
  lemma {:induction false} DeleteKeyOrder<V>(r: Rec<V>, k: string)
    ensures Keys(Delete(r, k)) == Without(Keys(r), [k])
  {
    if r != [] {
      DeleteKeyOrder(r[1..], k);
      if r[0].0 != k {
        assert Delete(r, k) == [r[0]] + Delete(r[1..], k);
        assert ([r[0]] + Delete(r[1..], k))[1..] == Delete(r[1..], k);
      }
    }
  }
}
