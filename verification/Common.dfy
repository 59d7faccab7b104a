/** Small datatypes shared by every component. */
module Common {

  datatype Option<+T> = None | Some(value: T)

  /** An address family with its subsequent family. Only the ones that the code singles out
      are named; the rest are told apart by their number. */
  datatype Family = IPv4Unicast | IPv6Unicast | RouteTarget | OtherFamily(code: nat)

  /** `s` without its element at index `i`. */
  function RemoveAt<T>(s: seq<T>, i: nat): (r: seq<T>)
    requires i < |s|
    ensures multiset(r) == multiset(s) - multiset{s[i]}
  {
    assert s == s[..i] + [s[i]] + s[i + 1..];
    s[..i] + s[i + 1..]
  }

  lemma ConcatAssociates<T>(a: seq<T>, b: seq<T>, c: seq<T>)
    ensures a + b + c == a + (b + c)
  {
  }

  /** `s` with the elements at `j - 1` and `j` exchanged. */
  function Exchanged<T>(s: seq<T>, j: nat): (r: seq<T>)
    requires 0 < j < |s|
    ensures |r| == |s| && multiset(r) == multiset(s)
    ensures r[j - 1] == s[j] && r[j] == s[j - 1]
    ensures forall k :: 0 <= k < |s| && k != j - 1 && k != j ==> r[k] == s[k]
  {
    s[j := s[j - 1]][j - 1 := s[j]]
  }

  lemma SameMembers<T>(a: seq<T>, b: seq<T>)
    requires multiset(a) == multiset(b)
    ensures forall x :: x in a <==> x in b
  {
    assert forall x :: x in a <==> x in multiset(a);
    assert forall x :: x in b <==> x in multiset(b);
  }

  predicate NoDuplicates<T(==)>(s: seq<T>) {
    forall i, j :: 0 <= i < j < |s| ==> s[i] != s[j]
  }

  lemma NoDuplicatesIn<T>(s: seq<T>, r: seq<T>)
    requires NoDuplicates(s) && multiset(r) == multiset(s)
    ensures NoDuplicates(r)
  {
    if i, j :| 0 <= i < j < |r| && r[i] == r[j] {
      TwiceIn(r, i, j);
      OnceIn(s, r[i]);
    }
  }

  lemma TwiceIn<T>(s: seq<T>, i: nat, j: nat)
    requires i < j < |s| && s[i] == s[j]
    ensures multiset(s)[s[i]] > 1
  {
    assert s == s[..j] + [s[j]] + s[j + 1..];
    assert s[i] in s[..j];
  }

  lemma {:induction false} OnceIn<T>(s: seq<T>, x: T)
    requires NoDuplicates(s)
    ensures multiset(s)[x] <= 1
  {
    if s != [] {
      var n := |s| - 1;
      OnceIn(s[..n], x);
      assert s == s[..n] + [s[n]];
      assert s[n] !in s[..n];
    }
  }

  /** What a sort by `less` can promise of neighbours when `less` may be strict or true on ties. */
  ghost predicate InOrder<T>(less: (T, T) -> bool, a: T, b: T) {
    less(a, b) || !less(b, a)
  }

  /** The library's sort of a slice by a caller's `less`. */
  method SortSlice<T>(s: seq<T>, less: (T, T) -> bool) returns (r: seq<T>)
    ensures multiset(r) == multiset(s)
    ensures forall k {:trigger r[k]} :: 0 < k < |r| ==> InOrder(less, r[k - 1], r[k])
  {
    r := s;
    for i := 0 to |r|
      invariant |r| == |s| && multiset(r) == multiset(s)
      invariant forall k {:trigger r[k]} :: 0 < k < i ==> InOrder(less, r[k - 1], r[k])
    {
      var j := i;
      while j > 0 && less(r[j], r[j - 1])
        invariant 0 <= j <= i < |r| == |s| && multiset(r) == multiset(s)
        invariant forall k {:trigger r[k]} :: 0 < k <= i && k != j ==> InOrder(less, r[k - 1], r[k])
        invariant 0 < j < i ==> InOrder(less, r[j - 1], r[j + 1])
      {
        r := Exchanged(r, j);
        j := j - 1;
      }
    }
  }
}
