// Facts about finite sets and duplicate-free sequences that several modules count with.
module Collections {

  // The numbers 0 .. n - 1.
  ghost function Below(n: nat): (s: set<nat>)
    ensures forall x: nat :: x in s <==> x < n
    ensures |s| == n
  {
    if n == 0 then {} else Below(n - 1) + {n - 1}
  }

  lemma {:induction false} SubsetSize<A>(a: set<A>, b: set<A>)
    requires a <= b
    ensures |a| <= |b|
  {
    if a == {} {
    } else {
      var x :| x in a;
      SubsetSize(a - {x}, b - {x});
    }
  }

  lemma SubsetEqual<A>(a: set<A>, b: set<A>)
    requires a <= b && |a| == |b|
    ensures a == b
  {
    if b - a != {} {
      var x :| x in b - a;
      SubsetSize(a + {x}, b);
    } else {
      assert b == a + (b - a);
    }
  }

  ghost predicate NoDup<A>(s: seq<A>) {
    forall i, j :: 0 <= i < j < |s| ==> s[i] != s[j]
  }

  ghost function Elems<A>(s: seq<A>): set<A> {
    set x | x in s
  }

  lemma {:induction false} NoDupSize<A>(s: seq<A>)
    requires NoDup(s)
    ensures |Elems(s)| == |s|
  {
    if s == [] {
    } else {
      NoDupSize(s[1..]);
      assert s == [s[0]] + s[1..];
      assert Elems(s) == Elems(s[1..]) + {s[0]};
    }
  }

  lemma NoDupConcat<A>(a: seq<A>, b: seq<A>)
    requires NoDup(a) && NoDup(b) && forall x :: x in a ==> x !in b
    ensures NoDup(a + b)
  {
    var c := a + b;
    forall i, j | 0 <= i < j < |c| ensures c[i] != c[j] {
      if i < |a| <= j { assert c[i] in a && c[j] in b; }
    }
  }

  // list_del_init: drop the only occurrence of an element.
  function Remove<A(==)>(s: seq<A>, x: A): seq<A> {
    if s == [] then [] else if s[0] == x then s[1..] else [s[0]] + Remove(s[1..], x)
  }

  lemma {:induction false} RemoveElems<A>(s: seq<A>, x: A)
    requires NoDup(s)
    ensures NoDup(Remove(s, x))
    ensures forall y :: y in Remove(s, x) <==> y in s && y != x
    ensures |Remove(s, x)| == if x in s then |s| - 1 else |s|
  {
    if s == [] {
    } else {
      assert s == [s[0]] + s[1..];
      assert s[0] !in s[1..];
      RemoveElems(s[1..], x);
    }
  }
}
