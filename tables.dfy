/**
 * Rows of a repository table held in insertion order, and the two queries
 * the services issue against them: `findOne({ where })`, which yields the
 * first matching row, and `remove(row)`, which deletes that one row.
 */
module Tables {
  import opened Wrappers

  /** Position of the first element of `s` that satisfies `p`, if any. */
  function IndexWhere<T>(s: seq<T>, p: T -> bool): (r: Option<nat>)
    ensures r.Some? ==> r.value < |s| && p(s[r.value])
    ensures r.Some? ==> forall j :: 0 <= j < r.value ==> !p(s[j])
    ensures r.None? <==> forall j :: 0 <= j < |s| ==> !p(s[j])
  {
    if s == [] then None
    else if p(s[0]) then Some(0)
    else match IndexWhere(s[1..], p)
      case None => None
      case Some(k) => Some(k + 1)
  }

  /** `s` without its element at position `i`. */
  function RemoveAt<T>(s: seq<T>, i: nat): (r: seq<T>)
    requires i < |s|
    ensures |r| == |s| - 1
    ensures forall j :: 0 <= j < i ==> r[j] == s[j]
    ensures forall j :: i <= j < |r| ==> r[j] == s[j + 1]
  {
    s[..i] + s[i + 1..]
  }

  /** Number of elements of `s` that satisfy `p`. */
  function Count<T>(s: seq<T>, p: T -> bool): nat
  {
    if s == [] then 0 else (if p(s[0]) then 1 else 0) + Count(s[1..], p)
  }

  lemma {:induction false} CountRemoveAt<T>(s: seq<T>, p: T -> bool, i: nat)
    requires i < |s| && p(s[i])
    ensures Count(RemoveAt(s, i), p) == Count(s, p) - 1
  {
    if i > 0 {
      CountRemoveAt(s[1..], p, i - 1);
      assert RemoveAt(s, i) == [s[0]] + RemoveAt(s[1..], i - 1);
      assert RemoveAt(s, i)[1..] == RemoveAt(s[1..], i - 1);
    } else {
      assert RemoveAt(s, 0) == s[1..];
    }
  }

  lemma {:induction false} CountAppend<T>(s: seq<T>, x: T, p: T -> bool)
    ensures Count(s + [x], p) == Count(s, p) + (if p(x) then 1 else 0)
  {
    if s != [] {
      assert (s + [x])[1..] == s[1..] + [x];
      CountAppend(s[1..], x, p);
    } else {
      assert [x][1..] == [];
    }
  }

  lemma {:induction false} CountNone<T>(s: seq<T>, p: T -> bool)
    ensures Count(s, p) == 0 <==> forall j :: 0 <= j < |s| ==> !p(s[j])
  {
    if s != [] {
      CountNone(s[1..], p);
      assert forall j :: 1 <= j < |s| ==> s[j] == s[1..][j - 1];
    }
  }

  lemma {:induction false} IndexWhereAppendFirst<T>(s: seq<T>, x: T, p: T -> bool)
    requires forall j :: 0 <= j < |s| ==> !p(s[j])
    requires p(x)
    ensures IndexWhere(s + [x], p) == Some(|s|)
  {
    var r := IndexWhere(s + [x], p);
    assert (s + [x])[|s|] == x;
    assert forall j :: 0 <= j < |s| ==> (s + [x])[j] == s[j];
  }
}
