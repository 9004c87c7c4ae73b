/** The library sort: stable, and on distinct keys a function of the multiset alone. */
module Sorting {

  ghost predicate TotalPreorder<T(!new)>(le: (T, T) -> bool)
  {
    && (forall x, y :: le(x, y) || le(y, x))
    && (forall x, y, z :: le(x, y) && le(y, z) ==> le(x, z))
  }

  ghost predicate Sorted<T>(le: (T, T) -> bool, s: seq<T>)
  {
    forall i, j :: 0 <= i < j < |s| ==> le(s[i], s[j])
  }

  /** No two different elements share a key. */
  ghost predicate KeysIdentify<T>(le: (T, T) -> bool, s: seq<T>)
  {
    forall x, y :: x in s && y in s && le(x, y) && le(y, x) ==> x == y
  }

  function Insert<T(!new)>(le: (T, T) -> bool, x: T, s: seq<T>): (r: seq<T>)
    requires TotalPreorder(le)
    ensures multiset(r) == multiset{x} + multiset(s)
    ensures Sorted(le, s) ==> Sorted(le, r)
  {
    if s == [] then [x]
    else if le(x, s[0]) then
      assert [x] + s == [x] + s[..];
      [x] + s
    else
      var rest := Insert(le, x, s[1..]);
      assert s == [s[0]] + s[1..];
      assert Sorted(le, s) ==> Sorted(le, rest) && forall y :: y in rest ==> le(s[0], y) by {
        if Sorted(le, s) {
          assert Sorted(le, s[1..]);
          forall y | y in rest ensures le(s[0], y) {
            assert y in multiset(rest);
            assert y == x || y in multiset(s[1..]);
          }
        }
      }
      [s[0]] + rest
  }

  function Sort<T(!new)>(le: (T, T) -> bool, s: seq<T>): (r: seq<T>)
    requires TotalPreorder(le)
    ensures multiset(r) == multiset(s) && |r| == |s|
    ensures Sorted(le, r)
  {
    if s == [] then []
    else
      assert s == [s[0]] + s[1..];
      var r := Insert(le, s[0], Sort(le, s[1..]));
      assert |multiset(r)| == |multiset(s)|;
      r
  }

  /** Two sorted arrangements of the same elements are the same sequence. */
  lemma {:induction false} SortedUnique<T(!new)>(le: (T, T) -> bool, a: seq<T>, b: seq<T>)
    requires TotalPreorder(le) && Sorted(le, a) && Sorted(le, b)
    requires multiset(a) == multiset(b) && KeysIdentify(le, a)
    ensures a == b
  {
    assert |multiset(a)| == |multiset(b)|;
    if a != [] {
      SameHead(le, a, b);
      DropHead(a);
      DropHead(b);
      SortedUnique(le, a[1..], b[1..]);
    }
  }

  lemma SameHead<T(!new)>(le: (T, T) -> bool, a: seq<T>, b: seq<T>)
    requires TotalPreorder(le) && Sorted(le, a) && Sorted(le, b)
    requires multiset(a) == multiset(b) && KeysIdentify(le, a)
    requires a != [] && b != []
    ensures a[0] == b[0]
  {
    assert a[0] in multiset(b) && b[0] in multiset(a);
    var i :| 0 <= i < |b| && b[i] == a[0];
    var j :| 0 <= j < |a| && a[j] == b[0];
    assert le(b[0], a[0]) && le(a[0], b[0]);
  }

  lemma DropHead<T>(s: seq<T>)
    requires s != []
    ensures multiset(s[1..]) == multiset(s) - multiset{s[0]}
    ensures forall x :: x in s[1..] ==> x in s
  {
    assert s == [s[0]] + s[1..];
  }

  lemma DropAt<T>(s: seq<T>, i: nat)
    requires i < |s|
    ensures multiset(s[..i] + s[i + 1..]) == multiset(s) - multiset{s[i]}
  {
    assert s == s[..i] + [s[i]] + s[i + 1..];
  }

  lemma RepeatIsCountedTwice<T>(s: seq<T>, i: nat, j: nat)
    requires i < j < |s| && s[i] == s[j]
    ensures multiset(s)[s[i]] >= 2
  {
    DropAt(s, i);
    assert (s[..i] + s[i + 1..])[j - 1] == s[j];
    assert s[j] in multiset(s[..i] + s[i + 1..]);
  }

  lemma SameElements<T>(a: seq<T>, b: seq<T>)
    requires multiset(a) == multiset(b)
    ensures forall x :: x in a <==> x in b
  {
    forall x ensures x in a <==> x in b {
      assert (x in a <==> x in multiset(a)) && (x in b <==> x in multiset(b));
    }
  }

  /** Sorting forgets the arrival order. */
  lemma SortIgnoresOrder<T(!new)>(le: (T, T) -> bool, a: seq<T>, b: seq<T>)
    requires TotalPreorder(le) && multiset(a) == multiset(b) && KeysIdentify(le, a)
    ensures Sort(le, a) == Sort(le, b)
  {
    var s := Sort(le, a);
    forall x | x in s ensures x in a { assert x in multiset(s); }
    SortedUnique(le, s, Sort(le, b));
  }

  /** Sorting keeps exactly the elements it was given. */
  lemma SortKeepsElements<T(!new)>(le: (T, T) -> bool, s: seq<T>)
    requires TotalPreorder(le)
    ensures forall x :: x in Sort(le, s) <==> x in s
  {
    forall x ensures x in Sort(le, s) <==> x in s {
      assert x in multiset(Sort(le, s)) <==> x in multiset(s);
    }
  }

  // ---------- picking out ----------

  /** The elements that pass, in order. */
  function Where<T>(p: T -> bool, s: seq<T>): seq<T>
  {
    if s == [] then []
    else
      var last := s[|s| - 1];
      Where(p, s[..|s| - 1]) + if p(last) then [last] else []
  }

  lemma {:induction false} WhereCounts<T>(p: T -> bool, s: seq<T>, x: T)
    ensures multiset(Where(p, s))[x] == if p(x) then multiset(s)[x] else 0
  {
    if s != [] {
      var n := |s| - 1;
      WhereCounts(p, s[..n], x);
      assert s == s[..n] + [s[n]];
    }
  }

  lemma WhereHas<T>(p: T -> bool, s: seq<T>, x: T)
    ensures x in Where(p, s) <==> p(x) && x in s
  {
    WhereCounts(p, s, x);
    assert x in Where(p, s) <==> x in multiset(Where(p, s));
    assert x in s <==> x in multiset(s);
  }

  lemma {:induction false} WhereStaysSorted<T>(le: (T, T) -> bool, p: T -> bool, s: seq<T>)
    requires Sorted(le, s)
    ensures Sorted(le, Where(p, s))
  {
    if s != [] {
      var n := |s| - 1;
      var picked := Where(p, s[..n]);
      WhereStaysSorted(le, p, s[..n]);
      forall i | 0 <= i < |picked| ensures le(picked[i], s[n]) {
        WhereHas(p, s[..n], picked[i]);
      }
    }
  }

  lemma WhereOne<T>(p: T -> bool, s: seq<T>, x: T)
    ensures Where(p, s + [x]) == Where(p, s) + if p(x) then [x] else []
  {
    assert (s + [x])[..|s|] == s;
  }

  lemma {:induction false} WhereNothingPasses<T>(p: T -> bool, s: seq<T>, more: seq<T>)
    requires forall i :: 0 <= i < |more| ==> !p(more[i])
    ensures Where(p, s + more) == Where(p, s)
  {
    if more == [] {
      assert s + more == s;
    } else {
      var n := |more| - 1;
      WhereNothingPasses(p, s, more[..n]);
      assert (s + more)[..|s| + n] == s + more[..n];
    }
  }

  /** However a sequence was sorted, what is picked out of it is the one sorted arrangement of what passes. */
  lemma PickedIsSorted<T(!new)>(le: (T, T) -> bool, p: T -> bool, s: seq<T>, sorted: seq<T>, picked: seq<T>)
    requires TotalPreorder(le) && KeysIdentify(le, s)
    requires Sorted(le, sorted) && multiset(sorted) == multiset(s)
    requires Sorted(le, picked) && multiset(picked) == multiset(Where(p, s))
    ensures Where(p, sorted) == picked
  {
    WhereStaysSorted(le, p, sorted);
    forall x ensures multiset(Where(p, sorted))[x] == multiset(picked)[x] {
      WhereCounts(p, sorted, x);
      WhereCounts(p, s, x);
    }
    forall x | x in Where(p, sorted) ensures x in s {
      WhereHas(p, sorted, x);
      SameElements(sorted, s);
    }
    SortedUnique(le, Where(p, sorted), picked);
  }

  function Least(s: set<nat>): (least: nat)
    requires s != {}
    ensures least in s && forall x :: x in s ==> least <= x
  {
    assert exists least :: least in s && forall x :: x in s ==> least <= x by {
      var any :| any in s;
      HasLeast(s, any);
    }
    var least: nat :| least in s && forall x :: x in s ==> least <= x;
    least
  }

  lemma {:induction false} HasLeast(s: set<nat>, any: nat)
    requires any in s
    ensures exists least :: least in s && forall x :: x in s ==> least <= x
    decreases any
  {
    if lower :| lower in s && lower < any {
      HasLeast(s, lower);
    }
  }

  /** The elements of a finite set of identifiers, ascending: how a `BTreeMap` is walked. */
  function Ascending(s: set<nat>): (r: seq<nat>)
    ensures forall x :: x in r <==> x in s
    ensures forall i, j :: 0 <= i < j < |r| ==> r[i] < r[j]
  {
    if s == {} then []
    else
      var least := Least(s);
      var rest := Ascending(s - {least});
      assert forall i :: 0 <= i < |rest| ==> rest[i] in s - {least};
      [least] + rest
  }

  /** A total over the elements. */
  function SumBy<T>(f: T -> nat, s: seq<T>): nat
  {
    if s == [] then 0 else f(s[0]) + SumBy(f, s[1..])
  }

  lemma {:induction false} SumByAppend<T>(f: T -> nat, a: seq<T>, b: seq<T>)
    ensures SumBy(f, a + b) == SumBy(f, a) + SumBy(f, b)
  {
    if a == [] {
      assert a + b == b;
    } else {
      SumByAppend(f, a[1..], b);
      assert (a + b)[1..] == a[1..] + b;
    }
  }

  lemma SumByOne<T>(f: T -> nat, s: seq<T>, x: T)
    ensures SumBy(f, s + [x]) == SumBy(f, s) + f(x)
  {
    SumByAppend(f, s, [x]);
    assert [x][1..] == [];
  }

  /** A total forgets the order. */
  lemma {:induction false} SumByIgnoresOrder<T>(f: T -> nat, a: seq<T>, b: seq<T>)
    requires multiset(a) == multiset(b)
    ensures SumBy(f, a) == SumBy(f, b)
  {
    assert |multiset(a)| == |multiset(b)|;
    if a != [] {
      assert a[0] in multiset(b);
      var i :| 0 <= i < |b| && b[i] == a[0];
      DropHead(a);
      DropAt(b, i);
      SumByIgnoresOrder(f, a[1..], b[..i] + b[i + 1..]);
      SumByAppend(f, b[..i], b[i + 1..]);
      SumByOne(f, b[..i], b[i]);
      SumByAppend(f, b[..i] + [b[i]], b[i + 1..]);
      assert b == (b[..i] + [b[i]]) + b[i + 1..];
    }
  }
}
