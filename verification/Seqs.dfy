/** Lists without duplicates, the sets of their elements, and an optional number. */
module Seqs {
  datatype Opt = None | Some(t: nat)

  ghost predicate NoDup<T>(s: seq<T>) { forall i, j :: 0 <= i < j < |s| ==> s[i] != s[j] }

  /** list_del: the list without its first x. */
  function Without<T(==,!new)>(s: seq<T>, x: T): (r: seq<T>)
    ensures NoDup(s) ==> NoDup(r)
    ensures NoDup(s) ==> forall y :: y in r <==> y in s && y != x
  {
    if s == [] then [] else
    assert NoDup(s) ==> NoDup(s[1..]) && s[0] !in s[1..];
    if s[0] == x then s[1..] else [s[0]] + Without(s[1..], x)
  }

  ghost function Elems<T>(s: seq<T>): set<T> { set y | y in s }

  lemma ElemsSnoc<T>(s: seq<T>)
    requires s != []
    ensures Elems(s) == Elems(s[..|s| - 1]) + {s[|s| - 1]}
  {
    assert s == s[..|s| - 1] + [s[|s| - 1]];
  }

  /** A list is as long as the set of its elements, or longer when it has duplicates. */
  lemma {:induction false} ElemsCard<T>(s: seq<T>)
    ensures |Elems(s)| <= |s| && (NoDup(s) ==> |Elems(s)| == |s|)
  {
    if s != [] {
      var rest := s[..|s| - 1];
      ElemsCard(rest);
      ElemsSnoc(s);
      assert NoDup(s) ==> NoDup(rest) && s[|s| - 1] !in rest;
    }
  }

  lemma {:induction false} SubsetCard<T>(a: set<T>, b: set<T>)
    requires a <= b
    ensures |a| <= |b|
  {
    if a != {} {
      var x :| x in a;
      SubsetCard(a - {x}, b - {x});
    }
  }
}
