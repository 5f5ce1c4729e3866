/** Small facts about sequences, stated once for every element type. */
module Seqs {

  /** A non-empty sequence is its prefix followed by its last element. */
  lemma InitLast<T>(s: seq<T>)
    requires s != []
    ensures s[..|s| - 1] + [s[|s| - 1]] == s
  {
  }

  /** The first `n + 1` elements are the first `n` followed by element `n`. */
  lemma TakeSnoc<T>(s: seq<T>, n: nat)
    requires n < |s|
    ensures s[..n + 1] == s[..n] + [s[n]]
  {
  }

  /**
   * `s.filter((_, i) => i !== index)`: the element at `index` removed, the
   * others kept in order; an index outside the sequence removes nothing.
   */
  function RemoveAt<T>(s: seq<T>, index: int): (r: seq<T>)
    ensures 0 <= index < |s| ==> |r| == |s| - 1
    ensures 0 <= index < |s| ==> forall i :: 0 <= i < |r| ==> r[i] == (if i < index then s[i] else s[i + 1])
    ensures !(0 <= index < |s|) ==> r == s
  {
    if 0 <= index < |s| then s[..index] + s[index + 1..] else s
  }

  /** Removing an element and putting it back restores the sequence. */
  lemma RemoveAtInsert<T>(s: seq<T>, index: nat)
    requires index < |s|
    ensures RemoveAt(s, index)[..index] + [s[index]] + RemoveAt(s, index)[index..] == s
  {
    assert RemoveAt(s, index)[..index] == s[..index];
    assert RemoveAt(s, index)[index..] == s[index + 1..];
  }

  /** Re-associates a concatenation reached through two named middles. */
  lemma ConcatChain<T>(whole: seq<T>, rest: seq<T>, before: seq<T>, head: seq<T>, ws: seq<T>, tail: seq<T>)
    requires whole == head + rest && rest == ws + tail && before == head + ws
    ensures whole == before + tail
  {
  }

  /** Two rearrangements of each other have the same members. */
  lemma SameMembers<T>(a: seq<T>, b: seq<T>)
    requires multiset(a) == multiset(b)
    ensures forall e :: e in a <==> e in b
  {
    forall e ensures e in a <==> e in b {
      assert e in a <==> e in multiset(a);
      assert e in b <==> e in multiset(b);
    }
  }
}
