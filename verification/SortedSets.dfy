/** Finite sets of natural numbers read in ascending order, the way the iterators of
    `std::set<nat>` and `std::map<int, ...>` visit them. */
module SortedSets {

  ghost predicate Ascending(xs: seq<nat>) {
    forall i, j :: 0 <= i < j < |xs| ==> xs[i] < xs[j]
  }

  lemma Pick<T>(s: set<T>) returns (m: T)
    requires s != {}
    ensures m in s
  {
    m :| m in s;
  }

  lemma {:induction false} FindLeast(s: set<nat>) returns (least: nat)
    requires s != {}
    ensures least in s && forall x :: x in s ==> least <= x
  {
    least := Pick(s);
    if s != {least} {
      var k := FindLeast(s - {least});
      forall x | x in s ensures (if k < least then k else least) <= x {
        assert x == least || x in s - {least};
      }
      least := if k < least then k else least;
    }
  }

  lemma HasLeast(s: set<nat>)
    requires s != {}
    ensures exists m :: m in s && forall x :: x in s ==> m <= x
  {
    var m := FindLeast(s);
  }

  function Least(s: set<nat>): (m: nat)
    requires s != {}
    ensures m in s && forall x :: x in s ==> m <= x
  {
    HasLeast(s);
    var m :| m in s && forall x :: x in s ==> m <= x;
    m
  }

  /** The elements of `s`, smallest first. */
  function Sorted(s: set<nat>): (xs: seq<nat>)
    ensures |xs| == |s|
    ensures forall x :: x in s <==> x in xs
    ensures Ascending(xs)
  {
    if s == {} then [] else
    var m := Least(s);
    [m] + Sorted(s - {m})
  }

  /** There is only one ascending listing of a set. */
  lemma {:induction false} AscendingIsUnique(xs: seq<nat>, ys: seq<nat>)
    requires Ascending(xs) && Ascending(ys)
    requires forall x :: x in xs <==> x in ys
    ensures xs == ys
  {
    assert |ys| > 0 ==> ys[0] in ys;
    assert |xs| > 0 ==> xs[0] in xs;
    if xs != [] {
      assert xs[0] in ys && ys[0] in xs;
      assert xs[0] == ys[0];
      forall x ensures x in xs[1..] <==> x in ys[1..] {
        assert x in xs <==> x == xs[0] || x in xs[1..];
        assert x in ys <==> x == ys[0] || x in ys[1..];
        if x in xs[1..] { var i :| 1 <= i < |xs| && xs[i] == x; }
        if x in ys[1..] { var i :| 1 <= i < |ys| && ys[i] == x; }
      }
      AscendingIsUnique(xs[1..], ys[1..]);
    }
  }
}
