/** Byte-wise string order and sorting by a linear order. */
module Ordering {

  /** `std::string` order: byte by byte, a proper prefix comes first. */
  predicate Below(a: string, b: string) {
    if b == [] then false
    else if a == [] then true
    else if a[0] != b[0] then a[0] < b[0]
    else Below(a[1..], b[1..])
  }

  lemma {:induction false} BelowTrichotomy(a: string, b: string)
    ensures !(Below(a, b) && Below(b, a))
    ensures Below(a, b) || Below(b, a) || a == b
    ensures !(a == b && Below(a, b))
  {
    if a != [] && b != [] {
      BelowTrichotomy(a[1..], b[1..]);
      if a[0] == b[0] && a[1..] == b[1..] {
        assert a == [a[0]] + a[1..] == [b[0]] + b[1..] == b;
      }
    }
  }

  lemma {:induction false} BelowTransitive(a: string, b: string, c: string)
    requires Below(a, b) && Below(b, c)
    ensures Below(a, c)
  {
    if a != [] && a[0] == b[0] && b[0] == c[0] {
      BelowTransitive(a[1..], b[1..], c[1..]);
    }
  }

  /** They first differ at k, where a is lower or at its end. */
  ghost predicate DifferAt(a: string, b: string, k: nat) {
    && k <= |a| && k < |b| && a[..k] == b[..k]
    && (k < |a| ==> a[k] < b[k])
  }

  lemma {:induction false} BelowExactly(a: string, b: string)
    ensures Below(a, b) <==> exists k: nat :: DifferAt(a, b, k)
  {
    if b == [] {
    } else if a == [] {
      assert DifferAt(a, b, 0);
    } else if a[0] != b[0] {
      assert DifferAt(a, b, 0) <==> a[0] < b[0];
      forall k: nat | 0 < k <= |a| && k <= |b| ensures !DifferAt(a, b, k) { FirstsAgree(a, b, k); }
    } else {
      BelowExactly(a[1..], b[1..]);
      forall k: nat ensures DifferAt(a[1..], b[1..], k) <==> DifferAt(a, b, k + 1) { DifferLater(a, b, k); }
      assert !DifferAt(a, b, 0);
      if k: nat :| DifferAt(a, b, k) { assert DifferAt(a[1..], b[1..], k - 1); }
    }
  }

  lemma FirstsAgree(a: string, b: string, k: nat)
    requires 0 < k <= |a| && k <= |b|
    ensures a[..k] == b[..k] ==> a[0] == b[0]
  {
    assert a[..k][0] == a[0] && b[..k][0] == b[0];
  }

  lemma DifferLater(a: string, b: string, k: nat)
    requires a != [] && b != [] && a[0] == b[0]
    ensures DifferAt(a[1..], b[1..], k) <==> DifferAt(a, b, k + 1)
  {
    if k < |a| && k < |b| {
      assert a[..k + 1] == [a[0]] + a[1..][..k] && b[..k + 1] == [b[0]] + b[1..][..k];
      assert a[..k + 1][1..] == a[1..][..k] && b[..k + 1][1..] == b[1..][..k];
    }
  }

  /** `before` is a strict linear order on the elements of `dom`. */
  ghost predicate Linear<T(!new)>(before: (T, T) -> bool, dom: set<T>) {
    && (forall x, y :: x in dom && y in dom && before(x, y) ==> !before(y, x))
    && (forall x, y :: x in dom && y in dom && x != y ==> before(x, y) || before(y, x))
    && (forall x, y, z :: x in dom && y in dom && z in dom && before(x, y) && before(y, z) ==> before(x, z))
  }

  ghost predicate Ascending<T>(before: (T, T) -> bool, s: seq<T>) {
    forall i, j :: 0 <= i < j < |s| ==> before(s[i], s[j])
  }

  ghost predicate Distinct<T>(s: seq<T>) {
    forall i, j :: 0 <= i < j < |s| ==> s[i] != s[j]
  }

  function Insert<T>(before: (T, T) -> bool, x: T, s: seq<T>): seq<T> {
    if s == [] || !before(s[0], x) then [x] + s
    else [s[0]] + Insert(before, x, s[1..])
  }

  function Sort<T>(before: (T, T) -> bool, s: seq<T>): seq<T> {
    if s == [] then [] else Insert(before, s[0], Sort(before, s[1..]))
  }

  lemma {:induction false} InsertKeeps<T>(before: (T, T) -> bool, x: T, s: seq<T>)
    ensures multiset(Insert(before, x, s)) == multiset{x} + multiset(s)
  {
    if s == [] || !before(s[0], x) {
    } else {
      InsertKeeps(before, x, s[1..]);
      assert s == [s[0]] + s[1..];
    }
  }

  lemma {:induction false} InsertMembers<T>(before: (T, T) -> bool, x: T, s: seq<T>)
    ensures forall y :: y in Insert(before, x, s) <==> y == x || y in s
  {
    if s != [] && before(s[0], x) {
      InsertMembers(before, x, s[1..]);
    }
  }

  lemma {:induction false} SortKeeps<T>(before: (T, T) -> bool, s: seq<T>)
    ensures multiset(Sort(before, s)) == multiset(s)
    ensures |Sort(before, s)| == |s|
  {
    if s != [] {
      SortKeeps(before, s[1..]);
      InsertKeeps(before, s[0], Sort(before, s[1..]));
      assert s == [s[0]] + s[1..];
    }
    assert |multiset(Sort(before, s))| == |multiset(s)|;
  }

  lemma {:induction false} InsertAscends<T(!new)>(before: (T, T) -> bool, x: T, s: seq<T>, dom: set<T>)
    requires Linear(before, dom) && x in dom && x !in s
    requires Ascending(before, s) && forall y :: y in s ==> y in dom
    ensures Ascending(before, Insert(before, x, s))
  {
    if s == [] {
    } else if !before(s[0], x) {
      assert before(x, s[0]);
      forall i | 0 <= i < |s| ensures before(x, s[i]) {
        assert s[i] in s;
      }
    } else {
      var t := Insert(before, x, s[1..]);
      InsertAscends(before, x, s[1..], dom);
      InsertKeeps(before, x, s[1..]);
      forall i | 0 <= i < |t| ensures before(s[0], t[i]) {
        assert t[i] in multiset(t);
        if t[i] != x {
          assert t[i] in s[1..];
        }
      }
    }
  }

  lemma {:induction false} SortAscends<T(!new)>(before: (T, T) -> bool, s: seq<T>, dom: set<T>)
    requires Linear(before, dom) && Distinct(s)
    requires forall y :: y in s ==> y in dom
    ensures Ascending(before, Sort(before, s))
  {
    if s != [] {
      SortAscends(before, s[1..], dom);
      SortKeeps(before, s[1..]);
      var t := Sort(before, s[1..]);
      forall y | y in t ensures y in s[1..] {
        assert y in multiset(t);
      }
      InsertAscends(before, s[0], t, dom);
    }
  }

  lemma LeastFirst<T(!new)>(before: (T, T) -> bool, s: seq<T>, t: seq<T>, dom: set<T>)
    requires Linear(before, dom) && forall y :: y in s ==> y in dom
    requires Ascending(before, s) && Ascending(before, t)
    requires s != [] && multiset(s) == multiset(t)
    ensures t != [] && s[0] == t[0]
  {
    assert s[0] in multiset(t);
    var i :| 0 <= i < |t| && t[i] == s[0];
    assert t[0] in multiset(s);
    var j :| 0 <= j < |s| && s[j] == t[0];
    assert s[0] in s && t[0] in s;
    assert i == 0 || j == 0;
  }

  lemma MultisetTail<T>(s: seq<T>)
    requires s != []
    ensures multiset(s[1..]) == multiset(s) - multiset{s[0]}
  {
    assert s == [s[0]] + s[1..];
  }

  lemma AscendingTail<T>(before: (T, T) -> bool, s: seq<T>)
    requires s != [] && Ascending(before, s)
    ensures Ascending(before, s[1..]) && forall y :: y in s[1..] ==> y in s
  {
  }

  /** A strictly ascending arrangement of given elements is unique. */
  lemma {:induction false} AscendingUnique<T(!new)>(before: (T, T) -> bool, s: seq<T>, t: seq<T>, dom: set<T>)
    requires Linear(before, dom) && forall y :: y in s ==> y in dom
    requires Ascending(before, s) && Ascending(before, t)
    requires multiset(s) == multiset(t)
    ensures s == t
  {
    if s == [] {
      assert |multiset(s)| == |multiset(t)|;
    } else {
      LeastFirst(before, s, t, dom);
      MultisetTail(s);
      MultisetTail(t);
      AscendingTail(before, s);
      AscendingTail(before, t);
      AscendingUnique(before, s[1..], t[1..], dom);
      assert s == [s[0]] + s[1..] && t == [t[0]] + t[1..];
    }
  }

  lemma {:induction false} DistinctOnce<T>(s: seq<T>, x: T)
    requires Distinct(s)
    ensures multiset(s)[x] == if x in s then 1 else 0
  {
    if s != [] {
      var n := |s| - 1;
      assert s == s[..n] + [s[n]];
      DistinctOnce(s[..n], x);
    }
  }

  /** Two strictly ascending arrangements with the same members are the same. */
  lemma SameMembersSameOrder<T(!new)>(before: (T, T) -> bool, s: seq<T>, t: seq<T>, dom: set<T>)
    requires Linear(before, dom) && forall y :: y in s ==> y in dom
    requires Ascending(before, s) && Ascending(before, t) && forall y :: y in s <==> y in t
    ensures s == t
  {
    AscendingDistinct(before, s, dom);
    AscendingDistinct(before, t, dom);
    forall y ensures multiset(s)[y] == multiset(t)[y] {
      DistinctOnce(s, y);
      DistinctOnce(t, y);
    }
    AscendingUnique(before, s, t, dom);
  }

  lemma AscendingDistinct<T(!new)>(before: (T, T) -> bool, s: seq<T>, dom: set<T>)
    requires Linear(before, dom) && Ascending(before, s) && forall y :: y in s ==> y in dom
    ensures Distinct(s)
  {
    forall i, j | 0 <= i < j < |s| ensures s[i] != s[j] {
      assert before(s[i], s[j]) && s[i] in s && s[j] in s;
    }
  }

  /** Any two arrangements of the same distinct elements sort to one sequence. */
  lemma {:induction false} SortCanonical<T(!new)>(before: (T, T) -> bool, s: seq<T>, t: seq<T>, dom: set<T>)
    requires Linear(before, dom) && forall y :: y in s ==> y in dom
    requires Distinct(s) && Distinct(t) && multiset(s) == multiset(t)
    ensures Sort(before, s) == Sort(before, t)
  {
    forall y | y in t ensures y in dom { assert y in multiset(s); }
    SortAscends(before, s, dom);
    SortAscends(before, t, dom);
    SortKeeps(before, s);
    SortKeeps(before, t);
    forall y | y in Sort(before, s) ensures y in dom { assert y in multiset(s); }
    AscendingUnique(before, Sort(before, s), Sort(before, t), dom);
  }
}
