/** Generic facts about sequences used by the grouping code. */
module Seqs {

  /** No element occurs twice. */
  predicate NoDuplicates<T(==)>(s: seq<T>)
  {
    forall i, j :: 0 <= i < j < |s| ==> s[i] != s[j]
  }

  /** Reading one more element of `s` after `a` appends that element. */
  lemma TakeSnoc<T>(a: seq<T>, s: seq<T>, j: nat)
    requires j < |s|
    ensures a + s[..j + 1] == (a + s[..j]) + [s[j]]
  {
    assert s[..j + 1] == s[..j] + [s[j]];
  }

  /** Position of the first occurrence of `x` in `s`. */
  function FirstIndex<T(==)>(s: seq<T>, x: T): (k: nat)
    requires x in s
    ensures k < |s| && s[k] == x && x !in s[..k]
  {
    if s[0] == x then 0
    else
      assert s == [s[0]] + s[1..];
      var k := FirstIndex(s[1..], x);
      assert s[..k + 1] == [s[0]] + s[1..][..k];
      k + 1
  }

  /** A position holding `x` with no earlier `x` is THE first index. */
  lemma FirstIndexUnique<T>(s: seq<T>, x: T, k: nat)
    requires k < |s| && s[k] == x && x !in s[..k]
    ensures FirstIndex(s, x) == k
  {
  }

  /**
   * The elements of `s` with repeats removed, each kept at its first
   * appearance (pandas `unique()`, or the key order of a Python dict
   * filled in the order of `s`).
   */
  function Distinct<T(==)>(s: seq<T>): (d: seq<T>)
    ensures forall i :: 0 <= i < |d| ==> d[i] in s
    ensures forall i :: 0 <= i < |s| ==> s[i] in d
    ensures NoDuplicates(d)
    ensures |d| <= |s|
  {
    if s == [] then []
    else
      var d := Distinct(s[..|s| - 1]);
      var x := s[|s| - 1];
      assert s == s[..|s| - 1] + [x];
      if x in d then d else d + [x]
  }

  /** Every element of `s` is kept by Distinct. */
  lemma InDistinct<T>(s: seq<T>, x: T)
    requires x in s
    ensures x in Distinct(s)
  {
    var i :| 0 <= i < |s| && s[i] == x;
  }

  /** Appending one element extends the distinct list only when the element is new. */
  lemma DistinctSnoc<T>(s: seq<T>, x: T)
    ensures Distinct(s + [x]) == if x in Distinct(s) then Distinct(s) else Distinct(s) + [x]
  {
    assert (s + [x])[..|s|] == s;
  }

  /** The distinct list is ordered by first appearance in `s`. */
  lemma {:induction false} DistinctFirstAppearance<T>(s: seq<T>, i: nat, j: nat)
    requires i < j < |Distinct(s)|
    ensures FirstIndex(s, Distinct(s)[i]) < FirstIndex(s, Distinct(s)[j])
  {
    var init := s[..|s| - 1];
    var x := s[|s| - 1];
    assert s == init + [x];
    var d := Distinct(init);
    var a, b := Distinct(s)[i], Distinct(s)[j];
    assert a in d;
    var fa := FirstIndex(init, a);
    assert s[..fa] == init[..fa];
    FirstIndexUnique(s, a, fa);
    if j < |d| {
      DistinctFirstAppearance(init, i, j);
      var fb := FirstIndex(init, b);
      assert s[..fb] == init[..fb];
      FirstIndexUnique(s, b, fb);
    } else {
      assert b == x && x !in init;
      FirstIndexUnique(s, b, |s| - 1);
    }
  }

  /** Maps with the same keys and the same value under each key are equal. */
  lemma MapsEqual<K, V>(a: map<K, V>, b: map<K, V>)
    requires forall k :: k in a <==> k in b
    requires forall k :: k in a ==> a[k] == b[k]
    ensures a == b
  {
  }
}
