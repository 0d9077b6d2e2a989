/** Lists of lists joined up, and lists without repeats. */
module Sequences {

  function Flat<T>(parts: seq<seq<T>>): seq<T> {
    if parts == [] then [] else Flat(parts[..|parts| - 1]) + parts[|parts| - 1]
  }

  lemma FlatMore<T>(parts: seq<seq<T>>, part: seq<T>)
    ensures Flat(parts + [part]) == Flat(parts) + part
  {
    assert (parts + [part])[..|parts|] == parts;
  }

  lemma {:induction false} FlatJoins<T>(a: seq<seq<T>>, b: seq<seq<T>>)
    ensures Flat(a + b) == Flat(a) + Flat(b)
  {
    if b == [] {
      assert a + b == a;
    } else {
      var front, last := b[..|b| - 1], b[|b| - 1];
      assert b == front + [last] && a + b == (a + front) + [last];
      FlatJoins(a, front);
      FlatMore(a + front, last);
      FlatMore(front, last);
      Regroup(Flat(a), Flat(front), last);
    }
  }

  lemma Regroup<T>(a: seq<T>, b: seq<T>, c: seq<T>)
    ensures a + b + c == a + (b + c)
  {
  }

  ghost predicate NoRepeats<T>(s: seq<T>) {
    forall i, j :: 0 <= i < j < |s| ==> s[i] != s[j]
  }

  lemma {:induction false} RepeatsCount<T>(a: seq<T>)
    ensures NoRepeats(a) <==> forall x :: multiset(a)[x] <= 1
  {
    if a == [] {
    } else {
      var n := |a| - 1;
      RepeatsCount(a[..n]);
      assert a == a[..n] + [a[n]];
      if a[n] in a[..n] {
        assert multiset(a[..n])[a[n]] >= 1;
        assert multiset(a)[a[n]] >= 2;
        var i :| 0 <= i < n && a[i] == a[n];
      } else {
        assert multiset(a[..n])[a[n]] == 0;
        if NoRepeats(a[..n]) {
          forall x ensures multiset(a)[x] <= 1 {
            assert multiset(a)[x] == multiset(a[..n])[x] + if x == a[n] then 1 else 0;
          }
        } else {
          var x :| multiset(a[..n])[x] > 1;
          assert multiset(a)[x] > 1;
        }
      }
    }
  }

  lemma PermutedNoRepeats<T>(a: seq<T>, b: seq<T>)
    requires NoRepeats(a) && multiset(a) == multiset(b)
    ensures NoRepeats(b) && forall x :: x in b <==> x in a
  {
    RepeatsCount(a);
    RepeatsCount(b);
    forall x ensures x in b <==> x in a {
      assert x in multiset(a) <==> x in multiset(b);
    }
  }
}
