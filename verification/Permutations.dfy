/** permutations from rad_util.py: insert the first item everywhere into each
    permutation of the rest. */
module Permutations {
  import opened Sequences

  // ----- The result as a function ---------------------------------------------------------

  function Insert<T>(s: seq<T>, i: nat, x: T): seq<T>
    requires i <= |s|
  {
    s[..i] + [x] + s[i..]
  }

  /** x at each of the first n positions of s. */
  function Insertions<T>(s: seq<T>, x: T, n: nat): seq<seq<T>>
    requires n <= |s| + 1
  {
    if n == 0 then [] else Insertions(s, x, n - 1) + [Insert(s, n - 1, x)]
  }

  predicate AllLong<T>(lists: seq<seq<T>>, n: nat) {
    forall k :: 0 <= k < |lists| ==> |lists[k]| == n
  }

  function Spread<T>(lists: seq<seq<T>>, x: T, n: nat): seq<seq<T>>
    requires AllLong(lists, n)
  {
    if lists == [] then []
    else
      assert AllLong(lists[..|lists| - 1], n);
      Spread(lists[..|lists| - 1], x, n) + Insertions(lists[|lists| - 1], x, n + 1)
  }

  lemma {:induction false} InsertionsAt<T>(s: seq<T>, x: T, n: nat)
    requires n <= |s| + 1
    ensures |Insertions(s, x, n)| == n && forall i :: 0 <= i < n ==> Insertions(s, x, n)[i] == Insert(s, i, x)
  {
    if n > 0 {
      InsertionsAt(s, x, n - 1);
    }
  }

  lemma {:induction false} SpreadLong<T>(lists: seq<seq<T>>, x: T, n: nat)
    requires AllLong(lists, n)
    ensures AllLong(Spread(lists, x, n), n + 1) && |Spread(lists, x, n)| == |lists| * (n + 1)
  {
    if lists != [] {
      var last := |lists| - 1;
      assert AllLong(lists[..last], n);
      SpreadLong(lists[..last], x, n);
      InsertionsAt(lists[last], x, n + 1);
      assert last * (n + 1) + (n + 1) == |lists| * (n + 1);
    }
  }

  function Factorial(n: nat): nat {
    if n == 0 then 1 else n * Factorial(n - 1)
  }

  function Perms<T>(s: seq<T>): (ps: seq<seq<T>>)
    ensures AllLong(ps, |s|) && |ps| == Factorial(|s|)
  {
    if |s| > 1 then
      SpreadLong(Perms(s[1..]), s[0], |s| - 1);
      Spread(Perms(s[1..]), s[0], |s| - 1)
    else
      assert Factorial(0) == 1 && Factorial(1) == 1;
      [s]
  }

  // ----- Each list is a rearrangement -------------------------------------------------------

  lemma InsertMultiset<T>(s: seq<T>, i: nat, x: T)
    requires i <= |s|
    ensures multiset(Insert(s, i, x)) == multiset(s) + multiset{x}
  {
    assert s == s[..i] + s[i..];
  }

  /** t is one of the lists with x inserted somewhere. */
  ghost predicate InsertedInto<T>(lists: seq<seq<T>>, x: T, t: seq<T>) {
    exists u, i :: u in lists && 0 <= i <= |u| && t == Insert(u, i, x)
  }

  lemma InsertionsMembers<T>(s: seq<T>, x: T, t: seq<T>)
    ensures t in Insertions(s, x, |s| + 1) <==> exists i :: 0 <= i <= |s| && t == Insert(s, i, x)
  {
    var all := Insertions(s, x, |s| + 1);
    InsertionsAt(s, x, |s| + 1);
    if i :| 0 <= i <= |s| && t == Insert(s, i, x) {
      assert all[i] == t;
    }
    if t in all {
      var i :| 0 <= i < |all| && all[i] == t;
      assert t == Insert(s, i, x);
    }
  }

  lemma InsertedIntoMore<T>(init: seq<seq<T>>, last: seq<T>, x: T, t: seq<T>)
    ensures InsertedInto(init + [last], x, t) <==>
            InsertedInto(init, x, t) || exists i :: 0 <= i <= |last| && t == Insert(last, i, x)
  {
    var lists := init + [last];
    if u, i :| u in init && 0 <= i <= |u| && t == Insert(u, i, x) {
      assert u in lists;
    }
    if i :| 0 <= i <= |last| && t == Insert(last, i, x) {
      assert last in lists;
    }
  }

  /** A list is spread out exactly when it is one of the lists with x inserted somewhere. */
  lemma {:induction false} SpreadMembers<T>(lists: seq<seq<T>>, x: T, n: nat, t: seq<T>)
    requires AllLong(lists, n)
    ensures t in Spread(lists, x, n) <==> InsertedInto(lists, x, t)
    decreases |lists|
  {
    if lists != [] {
      var init, last := lists[..|lists| - 1], lists[|lists| - 1];
      assert lists == init + [last];
      assert AllLong(init, n);
      SpreadMembers(init, x, n, t);
      InsertionsMembers(last, x, t);
      InsertedIntoMore(init, last, x, t);
    }
  }

  lemma {:induction false} PermsAreRearrangements<T>(s: seq<T>, t: seq<T>)
    requires t in Perms(s)
    ensures multiset(t) == multiset(s)
    decreases |s|
  {
    if |s| > 1 {
      SpreadMembers(Perms(s[1..]), s[0], |s| - 1, t);
      var u, i :| u in Perms(s[1..]) && 0 <= i <= |u| && t == Insert(u, i, s[0]);
      PermsAreRearrangements(s[1..], u);
      InsertMultiset(u, i, s[0]);
      HeadMultiset(s);
    }
  }

  // ----- Every rearrangement is there ---------------------------------------------------------

  /** Taking one occurrence of s[0] out of a rearrangement of s leaves one of the rest. */
  lemma Removal<T>(s: seq<T>, t: seq<T>) returns (u: seq<T>, i: nat)
    requires s != [] && multiset(t) == multiset(s)
    ensures i <= |u| && t == Insert(u, i, s[0]) && multiset(u) == multiset(s[1..])
  {
    i := Located(s, t);
    u := t[..i] + t[i + 1..];
    CutOut(t, i);
    InsertMultiset(u, i, s[0]);
    HeadMultiset(s);
    Cancel(multiset(u), multiset(s[1..]), s[0]);
  }

  lemma Located<T>(s: seq<T>, t: seq<T>) returns (i: nat)
    requires s != [] && multiset(t) == multiset(s)
    ensures i < |t| && t[i] == s[0]
  {
    assert s[0] in multiset(s);
    assert s[0] in multiset(t);
    i :| i < |t| && t[i] == s[0];
  }

  lemma Cancel<T>(a: multiset<T>, b: multiset<T>, x: T)
    requires a + multiset{x} == b + multiset{x}
    ensures a == b
  {
    assert a == a + multiset{x} - multiset{x};
    assert b == b + multiset{x} - multiset{x};
  }

  lemma CutOut<T>(t: seq<T>, i: nat)
    requires i < |t|
    ensures t == Insert(t[..i] + t[i + 1..], i, t[i])
  {
    var u := t[..i] + t[i + 1..];
    assert u[..i] == t[..i] && u[i..] == t[i + 1..];
  }

  lemma HeadMultiset<T>(s: seq<T>)
    requires s != []
    ensures multiset(s) == multiset(s[1..]) + multiset{s[0]}
  {
    assert s == [s[0]] + s[1..];
  }

  lemma {:induction false} RearrangementsAreListed<T>(s: seq<T>, t: seq<T>)
    requires multiset(t) == multiset(s)
    ensures t in Perms(s)
    decreases |s|
  {
    if |s| > 1 {
      var u, i := Removal(s, t);
      RearrangementsAreListed(s[1..], u);
      SpreadMembers(Perms(s[1..]), s[0], |s| - 1, t);
    } else {
      SmallRearrangement(s, t);
    }
  }

  lemma SmallRearrangement<T>(s: seq<T>, t: seq<T>)
    requires multiset(t) == multiset(s) && |s| <= 1
    ensures t == s
  {
    assert |multiset(t)| == |t| && |multiset(s)| == |s|;
    if |s| == 1 {
      assert t[0] in multiset(t);
    }
  }

  lemma ListedIffRearrangement<T>(s: seq<T>, t: seq<T>)
    ensures t in Perms(s) <==> multiset(t) == multiset(s)
  {
    if t in Perms(s) {
      PermsAreRearrangements(s, t);
    } else if multiset(t) == multiset(s) {
      RearrangementsAreListed(s, t);
    }
  }

  // ----- And for distinct items, once ---------------------------------------------------------

  lemma FoundOnlyWhereInserted<T>(s: seq<T>, i: nat, x: T, k: nat)
    requires i <= |s| && k <= |s| && x !in s && Insert(s, i, x)[k] == x
    ensures k == i
  {
  }

  lemma InsertInjective<T>(u: seq<T>, i: nat, v: seq<T>, j: nat, x: T)
    requires i <= |u| && j <= |v| && x !in u && x !in v
    requires Insert(u, i, x) == Insert(v, j, x)
    ensures u == v && i == j
  {
    var t := Insert(u, i, x);
    assert t[j] == x && |t| == |u| + 1 == |v| + 1;
    FoundOnlyWhereInserted(u, i, x, j);
    assert u == t[..i] + t[i + 1..];
    assert v == t[..i] + t[i + 1..];
  }

  lemma InsertionsDistinct<T>(s: seq<T>, x: T, n: nat)
    requires n <= |s| + 1 && x !in s
    ensures Distinct(Insertions(s, x, n))
  {
    InsertionsAt(s, x, n);
    forall i, j | 0 <= i < j < n
      ensures Insert(s, i, x) != Insert(s, j, x)
    {
      if Insert(s, i, x) == Insert(s, j, x) {
        InsertInjective(s, i, s, j, x);
      }
    }
  }

  predicate Apart<T(==)>(a: seq<T>, b: seq<T>) {
    forall t :: t in a ==> t !in b
  }

  lemma DistinctConcat<T>(a: seq<T>, b: seq<T>)
    requires Distinct(a) && Distinct(b) && Apart(a, b)
    ensures Distinct(a + b)
  {
    forall i, j | 0 <= i < j < |a + b|
      ensures (a + b)[i] != (a + b)[j]
    {
      if i < |a| <= j {
        assert a[i] in a && b[j - |a|] in b;
      }
    }
  }

  lemma {:induction false} SpreadDistinct<T>(lists: seq<seq<T>>, x: T, n: nat)
    requires AllLong(lists, n) && Distinct(lists)
    requires forall u :: u in lists ==> x !in u
    ensures Distinct(Spread(lists, x, n))
  {
    if lists != [] {
      var init, last := lists[..|lists| - 1], lists[|lists| - 1];
      assert AllLong(init, n);
      SpreadDistinct(init, x, n);
      InsertionsDistinct(last, x, n + 1);
      var a, b := Spread(init, x, n), Insertions(last, x, n + 1);
      forall t | t in a
        ensures t !in b
      {
        SpreadMembers(init, x, n, t);
        var u, i :| u in init && 0 <= i <= |u| && t == Insert(u, i, x);
        if t in b {
          InsertionsAt(last, x, n + 1);
          var j :| 0 <= j < n + 1 && Insert(last, j, x) == t;
          InsertInjective(u, i, last, j, x);
        }
      }
      DistinctConcat(a, b);
    }
  }

  /** For distinct items no rearrangement is listed twice. */
  lemma {:induction false} PermsDistinct<T>(s: seq<T>)
    requires Distinct(s)
    ensures Distinct(Perms(s))
    decreases |s|
  {
    if |s| > 1 {
      var rest := s[1..];
      PermsDistinct(rest);
      forall u | u in Perms(rest)
        ensures s[0] !in u
      {
        PermsAreRearrangements(rest, u);
        assert s[0] !in multiset(rest);
      }
      SpreadDistinct(Perms(rest), s[0], |s| - 1);
    }
  }

  // ----- The algorithm ------------------------------------------------------------------------

  method Permute<T>(inputList: seq<T>) returns (outLists: seq<seq<T>>)
    ensures outLists == Perms(inputList)
    decreases |inputList|
  {
    outLists := [];
    if |inputList| > 1 {
      var item := inputList[0];
      var subLists := Permute(inputList[1..]);
      var n := |inputList| - 1;
      for k := 0 to |subLists|
        invariant AllLong(subLists[..k], n) && outLists == Spread(subLists[..k], item, n)
      {
        ghost var before := outLists;
        for i := 0 to |inputList|
          invariant outLists == before + Insertions(subLists[k], item, i)
        {
          var newList := subLists[k][..i] + [item] + subLists[k][i..];
          outLists := outLists + [newList];
        }
        assert subLists[..k + 1][..k] == subLists[..k];
      }
      assert subLists[..|subLists|] == subLists;
    } else {
      outLists := [inputList];
    }
  }
}
