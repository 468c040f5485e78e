/** Orders and sorting as Python's `sorted` provides them: stable, by a total preorder. */
module Order {

  /** Python compares strings code point by code point; a proper prefix comes first. */
  predicate StrLe(a: string, b: string) {
    |a| == 0 || (|b| > 0 && (a[0] < b[0] || (a[0] == b[0] && StrLe(a[1..], b[1..]))))
  }

  predicate IntLe(a: int, b: int) { a <= b }

  function Max(a: int, b: int): int { if a < b then b else a }

  ghost predicate Total<T(!new)>(le: (T, T) -> bool) {
    forall x, y :: le(x, y) || le(y, x)
  }

  ghost predicate Transitive<T(!new)>(le: (T, T) -> bool) {
    forall x, y, z :: le(x, y) && le(y, z) ==> le(x, z)
  }

  ghost predicate Preorder<T(!new)>(le: (T, T) -> bool) {
    Total(le) && Transitive(le)
  }

  /** Within `s`, the order tells different elements apart. */
  ghost predicate Separates<T>(le: (T, T) -> bool, s: seq<T>) {
    forall x, y | x in s && y in s :: le(x, y) && le(y, x) ==> x == y
  }

  ghost predicate Antisymmetric<T(!new)>(le: (T, T) -> bool) {
    forall x, y :: le(x, y) && le(y, x) ==> x == y
  }

  ghost predicate LinearOrder<T(!new)>(le: (T, T) -> bool) {
    Preorder(le) && Antisymmetric(le)
  }

  lemma StrLeTotal(a: string, b: string)
    ensures StrLe(a, b) || StrLe(b, a)
  {
    if |a| > 0 && |b| > 0 && a[0] == b[0] {
      StrLeTotal(a[1..], b[1..]);
    }
  }

  lemma StrLeTransitive(a: string, b: string, c: string)
    requires StrLe(a, b) && StrLe(b, c)
    ensures StrLe(a, c)
  {
    if |a| > 0 && a[0] == b[0] && b[0] == c[0] {
      StrLeTransitive(a[1..], b[1..], c[1..]);
    }
  }

  lemma StrLeAntisymmetric(a: string, b: string)
    requires StrLe(a, b) && StrLe(b, a)
    ensures a == b
  {
    if |a| > 0 && |b| > 0 {
      StrLeAntisymmetric(a[1..], b[1..]);
      assert a == [a[0]] + a[1..] && b == [b[0]] + b[1..];
    }
  }

  lemma StrLeOrder()
    ensures LinearOrder(StrLe)
  {
    forall a, b ensures StrLe(a, b) || StrLe(b, a) { StrLeTotal(a, b); }
    forall a, b, c | StrLe(a, b) && StrLe(b, c) ensures StrLe(a, c) { StrLeTransitive(a, b, c); }
    forall a, b | StrLe(a, b) && StrLe(b, a) ensures a == b { StrLeAntisymmetric(a, b); }
  }

  predicate Sorted<T>(s: seq<T>, le: (T, T) -> bool) {
    forall i, j | 0 <= i < j < |s| :: le(s[i], s[j])
  }

  function Insert<T>(x: T, s: seq<T>, le: (T, T) -> bool): (r: seq<T>)
    ensures multiset(r) == multiset(s) + multiset{x}
  {
    if s == [] then [x]
    else if le(x, s[0]) then [x] + s
    else
      assert s == [s[0]] + s[1..];
      [s[0]] + Insert(x, s[1..], le)
  }

  function Sort<T>(s: seq<T>, le: (T, T) -> bool): (r: seq<T>)
    ensures multiset(r) == multiset(s)
    ensures |r| == |s|
  {
    if s == [] then []
    else
      assert s == [s[0]] + s[1..];
      var r := Insert(s[0], Sort(s[1..], le), le);
      SameMultisetSameLength(r, s);
      r
  }

  lemma SameMultisetSameLength<T>(s: seq<T>, t: seq<T>)
    requires multiset(s) == multiset(t)
    ensures |s| == |t|
  {
    assert |multiset(s)| == |s| && |multiset(t)| == |t|;
  }

  lemma SameElements<T>(s: seq<T>, t: seq<T>)
    requires multiset(s) == multiset(t)
    ensures forall x :: x in s <==> x in t
  {
    forall x ensures x in s <==> x in t {
      assert x in s <==> x in multiset(s);
      assert x in t <==> x in multiset(t);
    }
  }

  lemma {:induction false} InsertSorted<T(!new)>(x: T, s: seq<T>, le: (T, T) -> bool)
    requires Preorder(le) && Sorted(s, le)
    ensures Sorted(Insert(x, s, le), le)
  {
    if s == [] || le(x, s[0]) {
    } else {
      var rest := Insert(x, s[1..], le);
      InsertSorted(x, s[1..], le);
      forall y | y in rest ensures le(s[0], y) {
        assert y in multiset(rest);
      }
    }
  }

  lemma {:induction false} SortSorted<T(!new)>(s: seq<T>, le: (T, T) -> bool)
    requires Preorder(le)
    ensures Sorted(Sort(s, le), le)
  {
    if s != [] {
      SortSorted(s[1..], le);
      InsertSorted(s[0], Sort(s[1..], le), le);
    }
  }

  lemma SortedHeads<T(!new)>(s: seq<T>, t: seq<T>, le: (T, T) -> bool)
    requires Sorted(s, le) && Sorted(t, le) && multiset(s) == multiset(t)
    requires Preorder(le) && Separates(le, s)
    requires s != [] && t != []
    ensures s[0] == t[0]
  {
    SameElements(s, t);
    assert s[0] in t && t[0] in s;
    var i :| 0 <= i < |t| && t[i] == s[0];
    var j :| 0 <= j < |s| && s[j] == t[0];
    assert le(s[0], s[0]);
    assert le(s[0], s[j]) && le(t[0], t[i]);
  }

  lemma TailMultiset<T>(s: seq<T>)
    requires s != []
    ensures multiset(s[1..]) == multiset(s) - multiset{s[0]}
  {
    assert s == [s[0]] + s[1..];
  }

  /** A sorted arrangement is unique as soon as the order separates the elements. */
  lemma {:induction false} SortedUnique<T(!new)>(s: seq<T>, t: seq<T>, le: (T, T) -> bool)
    requires Sorted(s, le) && Sorted(t, le) && multiset(s) == multiset(t)
    requires Preorder(le) && Separates(le, s)
    ensures s == t
  {
    SameMultisetSameLength(s, t);
    if s != [] {
      SortedHeads(s, t, le);
      TailMultiset(s);
      TailMultiset(t);
      SortedUnique(s[1..], t[1..], le);
      assert s == [s[0]] + s[1..] && t == [t[0]] + t[1..];
    }
  }

  lemma SortOfPermutation<T(!new)>(s: seq<T>, t: seq<T>, le: (T, T) -> bool)
    requires multiset(s) == multiset(t)
    requires Preorder(le) && Separates(le, s)
    ensures Sort(s, le) == Sort(t, le)
  {
    SortSorted(s, le);
    SortSorted(t, le);
    SameElements(s, Sort(s, le));
    SortedUnique(Sort(s, le), Sort(t, le), le);
  }

  lemma SortOfSorted<T(!new)>(s: seq<T>, le: (T, T) -> bool)
    requires Sorted(s, le) && Preorder(le) && Separates(le, s)
    ensures Sort(s, le) == s
  {
    SortSorted(s, le);
    SameElements(s, Sort(s, le));
    SortedUnique(Sort(s, le), s, le);
  }

  ghost predicate NoRepeats<T>(s: seq<T>) {
    forall i, j | 0 <= i < j < |s| :: s[i] != s[j]
  }

  ghost predicate IsLeast<T>(m: T, s: set<T>, le: (T, T) -> bool) {
    m in s && forall x | x in s :: le(m, x)
  }

  function Least<T(!new, ==)>(s: set<T>, le: (T, T) -> bool): (m: T)
    requires LinearOrder(le) && s != {}
    ensures IsLeast(m, s, le)
  {
    HasLeast(s, le);
    LeastUnique(s, le);
    var m :| m in s && forall x | x in s :: le(m, x);
    m
  }

  /** `sorted(set)`: the increasing listing of a finite set. */
  function SortedSet<T(!new, ==)>(s: set<T>, le: (T, T) -> bool): (r: seq<T>)
    requires LinearOrder(le)
    ensures forall x :: x in r <==> x in s
    ensures |r| == |s|
  {
    if s == {} then []
    else
      var m := Least(s, le);
      [m] + SortedSet(s - {m}, le)
  }

  lemma {:induction false} SortedSetSorted<T(!new)>(s: set<T>, le: (T, T) -> bool)
    requires LinearOrder(le)
    ensures Sorted(SortedSet(s, le), le)
    ensures NoRepeats(SortedSet(s, le))
  {
    if s != {} {
      var m := Least(s, le);
      SortedSetSorted(s - {m}, le);
      PrependLeast(m, SortedSet(s - {m}, le), le);
    }
  }

  lemma PrependLeast<T(!new)>(m: T, rest: seq<T>, le: (T, T) -> bool)
    requires Sorted(rest, le) && NoRepeats(rest)
    requires forall x | x in rest :: le(m, x) && x != m
    ensures Sorted([m] + rest, le) && NoRepeats([m] + rest)
  {
    assert forall i | 0 <= i < |rest| :: rest[i] in rest;
  }

  lemma HasLeast<T(!new)>(s: set<T>, le: (T, T) -> bool)
    requires Preorder(le) && s != {}
    ensures exists m :: m in s && forall x | x in s :: le(m, x)
  {
    var m := FindLeast(s, le);
    assert m in s && forall x | x in s :: le(m, x);
  }

  lemma {:induction false} FindLeast<T(!new)>(s: set<T>, le: (T, T) -> bool) returns (m: T)
    requires Preorder(le) && s != {}
    ensures IsLeast(m, s, le)
  {
    var y :| y in s;
    var rest := s - {y};
    assert le(y, y);
    if rest == {} {
      assert s == {y};
      m := y;
    } else {
      var n := FindLeast(rest, le);
      hide Preorder;
      if le(n, y) {
        m := n;
      } else {
        m := y;
        forall x | x in s ensures le(y, x) {
          Compare(le, y, n, x);
        }
      }
    }
  }

  lemma Compare<T(!new)>(le: (T, T) -> bool, y: T, n: T, x: T)
    requires Preorder(le) && !le(n, y) && (x == y || le(n, x))
    ensures le(y, x)
  {
    assert le(y, n) && le(y, y);
  }

  lemma LeastUnique<T(!new)>(s: set<T>, le: (T, T) -> bool)
    requires Antisymmetric(le)
    ensures forall m, n | IsLeast(m, s, le) && IsLeast(n, s, le) :: m == n
  {
  }

  lemma SortedSetUnique<T(!new)>(s: set<T>, r: seq<T>, le: (T, T) -> bool)
    requires LinearOrder(le)
    requires Sorted(r, le) && (forall x :: x in r <==> x in s) && NoRepeats(r)
    ensures r == SortedSet(s, le)
  {
    SortedSetSorted(s, le);
    var q := SortedSet(s, le);
    DistinctMultiset(r, q);
    SortedUnique(r, q, le);
  }

  lemma DistinctMultiset<T>(r: seq<T>, q: seq<T>)
    requires forall x :: x in r <==> x in q
    requires NoRepeats(r) && NoRepeats(q)
    ensures multiset(r) == multiset(q)
  {
    forall x ensures multiset(r)[x] == multiset(q)[x] {
      CountDistinct(r, x);
      CountDistinct(q, x);
    }
  }

  lemma {:induction false} CountDistinct<T>(r: seq<T>, x: T)
    requires NoRepeats(r)
    ensures multiset(r)[x] == if x in r then 1 else 0
  {
    if r != [] {
      assert r == [r[0]] + r[1..];
      CountDistinct(r[1..], x);
    }
  }
}
