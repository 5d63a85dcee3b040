/** Python list operations the program relies on, over Dafny sequences. */
module Seqs {

  /** No element occurs twice. */
  predicate Distinct<T(==)>(s: seq<T>) {
    forall i, j | 0 <= i < j < |s| :: s[i] != s[j]
  }

  /** Position of the first occurrence of `x` (Python's `list.index`). */
  function IndexOf<T(==)>(s: seq<T>, x: T): (i: nat)
    requires x in s
    ensures i < |s| && s[i] == x
    ensures forall j | 0 <= j < i :: s[j] != x
  {
    if s[0] == x then 0 else 1 + IndexOf(s[1..], x)
  }

  /** The first occurrence is the only index with `x` and nothing equal to `x` before it. */
  lemma IndexOfUnique<T>(s: seq<T>, x: T, i: nat)
    requires i < |s| && s[i] == x
    requires forall j | 0 <= j < i :: s[j] != x
    ensures IndexOf(s, x) == i
  {
  }

  /** Python's `list.remove(x)` for an `x` that is present: drop its first occurrence.
      An absent `x` leaves the list as it is (the caller checks membership first). */
  function RemoveFirst<T(==)>(s: seq<T>, x: T): (r: seq<T>)
    ensures x !in s ==> r == s
    ensures x in s ==> r == s[..IndexOf(s, x)] + s[IndexOf(s, x) + 1..]
  {
    if s == [] then []
    else if s[0] == x then s[1..]
    else
      var rest := RemoveFirst(s[1..], x);
      if x in s then
        var j := IndexOf(s[1..], x);
        assert IndexOf(s, x) == 1 + j;
        ConsDrop(s, j);
        [s[0]] + rest
      else
        [s[0]] + rest
  }

  /** Dropping the element after position `j` of the tail and putting the head back is
      dropping the element at `j + 1`. */
  lemma ConsDrop<T>(s: seq<T>, j: nat)
    requires j + 1 < |s|
    ensures [s[0]] + (s[1..][..j] + s[1..][j + 1..]) == s[..j + 1] + s[j + 2..]
  {
    assert s[..j + 1] == [s[0]] + s[1..][..j];
    assert s[j + 2..] == s[1..][j + 1..];
  }

  /** On a list without repetitions, removing `x` keeps every other element and loses `x`. */
  lemma RemoveFirstMembers<T>(s: seq<T>, x: T, y: T)
    requires Distinct(s)
    ensures y in RemoveFirst(s, x) <==> y in s && y != x
  {
    if x in s {
      var i := IndexOf(s, x);
      var r := RemoveFirst(s, x);
      DropAt(s, i);
      if y in r {
        var k :| 0 <= k < |r| && r[k] == y;
        if k < i {
          assert s[k] == y;
        } else {
          assert s[k + 1] == r[k];
        }
      }
      if y in s && y != x {
        var k :| 0 <= k < |s| && s[k] == y;
        if k < i {
          assert r[k] == y;
        } else {
          assert r[k - 1] == y;
        }
      }
    }
  }

  /** The elements of a list with position `i` cut out, by position. */
  lemma DropAt<T>(s: seq<T>, i: nat)
    requires i < |s|
    ensures |s[..i] + s[i + 1..]| == |s| - 1
    ensures forall k | 0 <= k < i :: (s[..i] + s[i + 1..])[k] == s[k]
    ensures forall k | i < k < |s| :: (s[..i] + s[i + 1..])[k - 1] == s[k]
  {
  }

  /** Dropping the head of a prefix is taking a prefix of the tail. */
  lemma SliceShift<T>(s: seq<T>, k: nat)
    requires 1 <= k <= |s|
    ensures s[..k][1..] == s[1..][..k - 1]
    ensures s[..k][0] == s[0]
  {
  }

  /** The `j`th element of the tail is the `j + 1`st of the whole. */
  lemma TailAt<T>(s: seq<T>, j: nat)
    requires j + 1 < |s|
    ensures s[1..][j] == s[j + 1]
  {
  }

  /** A longer prefix is a shorter one followed by the slice between them. */
  lemma PrefixJoin<T>(s: seq<T>, i: nat, j: nat)
    requires i <= j <= |s|
    ensures s[..j] == s[..i] + s[i..j]
  {
  }

  /** Reversal (Python's `reversed`). */
  function Reverse<T>(s: seq<T>): (r: seq<T>)
    ensures |r| == |s|
    ensures forall i | 0 <= i < |s| :: r[i] == s[|s| - 1 - i]
  {
    if s == [] then [] else [s[|s| - 1]] + Reverse(s[..|s| - 1])
  }

  /** Python's slice `s[:n]`, which tolerates an `n` beyond the end. */
  function Take<T>(s: seq<T>, n: nat): (r: seq<T>)
    ensures |r| == if |s| < n then |s| else n
    ensures r <= s
  {
    if |s| <= n then s else s[..n]
  }
}
