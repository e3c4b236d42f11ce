/**
 * The two removals of Kotlin's `MutableList` the engine uses:
 * `remove(element)` (first occurrence, by identity for elements) and
 * `removeAll(set)` (every element contained in the set).
 */
module Lists {

  /** The index of the first occurrence of x. */
  function FirstIndex<T(==)>(s: seq<T>, x: T): (i: nat)
    requires x in s
    ensures i < |s| && s[i] == x && x !in s[..i]
  {
    if s[0] == x then 0
    else
      var j := FirstIndex(s[1..], x);
      assert s[..j + 1] == [s[0]] + s[1..][..j];
      j + 1
  }

  /** `remove(x)`: drops the first occurrence of x; a list without x is unchanged. */
  function RemoveFirst<T(==)>(s: seq<T>, x: T): (r: seq<T>)
    ensures x !in s ==> r == s
    ensures x in s ==> exists i :: 0 <= i < |s| && s[i] == x && x !in s[..i] && r == s[..i] + s[i + 1..]
    ensures multiset(r) == multiset(s) - multiset{x}
    ensures |r| == if x in s then |s| - 1 else |s|
  {
    if x in s then
      var i := FirstIndex(s, x);
      assert s == s[..i] + [x] + s[i + 1..];
      s[..i] + s[i + 1..]
    else
      s
  }

  /** `removeAll(xs)`: keeps, in order, exactly the entries not in xs. */
  function RemoveAll<T(==)>(s: seq<T>, xs: set<T>): (r: seq<T>)
    ensures forall i :: 0 <= i < |r| ==> r[i] in s && r[i] !in xs
    // every value not in xs keeps all its occurrences
    ensures forall x :: x in s && x !in xs ==> multiset(r)[x] == multiset(s)[x]
    ensures |r| <= |s|
  {
    if s == [] then []
    else
      var rest := RemoveAll(s[1..], xs);
      assert s == [s[0]] + s[1..];
      assert multiset(s) == multiset{s[0]} + multiset(s[1..]);
      if s[0] in xs then rest
      else
        assert multiset([s[0]] + rest) == multiset{s[0]} + multiset(rest);
        [s[0]] + rest
  }

  /** `removeAll` keeps the survivors in their order: it distributes over concatenation. */
  lemma {:induction false} RemoveAllAppend<T>(a: seq<T>, b: seq<T>, xs: set<T>)
    ensures RemoveAll(a + b, xs) == RemoveAll(a, xs) + RemoveAll(b, xs)
    decreases |a|
  {
    if a == [] {
      assert a + b == b;
    } else {
      assert (a + b)[0] == a[0] && (a + b)[1..] == a[1..] + b;
      RemoveAllAppend(a[1..], b, xs);
    }
  }
}
