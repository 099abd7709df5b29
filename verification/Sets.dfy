/** Finite-set facts used by every part of the model. */
module Sets {

  function Elems<T>(s: seq<T>): set<T> {
    set x | x in s
  }

  ghost predicate Distinct<T>(s: seq<T>) {
    forall i, j :: 0 <= i < j < |s| ==> s[i] != s[j]
  }

  ghost predicate Increasing(s: seq<int>) {
    forall i, j :: 0 <= i < j < |s| ==> s[i] < s[j]
  }

  lemma SubsetCard<T>(a: set<T>, b: set<T>)
    requires a <= b
    ensures |a| <= |b|
    ensures |a| == |b| ==> a == b
  {
    var rest := b - a;
    assert b == a + rest && a !! rest;
  }

  lemma ElemsAppend<T>(s: seq<T>, t: seq<T>)
    ensures Elems(s + t) == Elems(s) + Elems(t)
  {}

  lemma DistinctRotate<T>(s: seq<T>, x: T)
    requires s != [] && Distinct(s) && x !in s[1..]
    ensures Distinct(s[1..] + [x])
  {}

  lemma {:induction false} ElemsCard<T>(s: seq<T>)
    ensures |Elems(s)| <= |s|
    ensures Distinct(s) <==> |Elems(s)| == |s|
  {
    if s != [] {
      var n := |s| - 1;
      var init := s[..n];
      ElemsCard(init);
      assert s == init + [s[n]];
      ElemsAppend(init, [s[n]]);
      assert Elems([s[n]]) == {s[n]};
      if s[n] in init {
        assert Elems(s) == Elems(init);
        var i :| 0 <= i < n && init[i] == s[n];
        assert s[i] == s[n];
      } else {
        assert |Elems(s)| == |Elems(init)| + 1;
        assert Distinct(s) ==> Distinct(init);
        assert Distinct(init) ==> Distinct(s) by {
          if Distinct(init) {
            forall i, j | 0 <= i < j < |s| ensures s[i] != s[j] {
              assert s[i] == init[i];
              if j < n { assert s[j] == init[j]; } else { assert init[i] in init; }
            }
          }
        }
      }
    }
  }

  /** Distinct members of `a` and one more make a larger set. */
  lemma NoRoom<T>(s: seq<T>, x: T, a: set<T>)
    requires Distinct(s) && x !in s && Elems(s) <= a
    ensures |a + {x}| > |s|
  {
    ElemsCard(s);
    var b := Elems(s) + {x};
    assert |b| == |s| + 1;
    SubsetCard(b, a + {x});
  }

  function Below(n: nat): set<int> {
    if n == 0 then {} else Below(n - 1) + {n - 1}
  }

  lemma {:induction false} BelowCard(n: nat)
    ensures |Below(n)| == n
    ensures forall i :: i in Below(n) <==> 0 <= i < n
  {
    if n > 0 {
      BelowCard(n - 1);
    }
  }

  /** n distinct numbers below n are all of them. */
  lemma Pigeonhole(s: seq<int>, n: nat, i: nat)
    requires |s| == n && Distinct(s) && i < n
    requires forall a :: 0 <= a < n ==> 0 <= s[a] < n
    ensures i in s
  {
    ElemsCard(s);
    BelowCard(n);
    SubsetCard(Elems(s), Below(n));
    assert i in Elems(s);
  }

  lemma DistinctConcat(a: seq<int>, b: seq<int>)
    requires Distinct(a) && Distinct(b) && forall x :: x in b ==> x !in a
    ensures Distinct(a + b)
  {
    var c := a + b;
    forall i, j | 0 <= i < j < |c| ensures c[i] != c[j] {
      if i < |a| <= j {
        assert a[i] in a && b[j - |a|] in b;
      }
    }
  }

  lemma IndexRange(l: seq<int>, n: int)
    requires forall x :: x in l ==> 0 <= x < n
    ensures forall a :: 0 <= a < |l| ==> 0 <= l[a] < n
  {
    forall a | 0 <= a < |l| ensures 0 <= l[a] < n {
      assert l[a] in l;
    }
  }
}
