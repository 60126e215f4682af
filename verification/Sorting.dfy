/** The standard library's stable sort, as far as its callers rely on it. */
module Sorting {

  /** Where `x` goes: after the last element whose key is not greater. */
  function Slot<T>(ys: seq<T>, x: T, key: T -> real): (p: nat)
    ensures p <= |ys| && (p > 0 ==> key(ys[p - 1]) <= key(x))
    ensures forall i :: p <= i < |ys| ==> key(x) < key(ys[i])
  {
    if ys == [] || key(ys[|ys| - 1]) <= key(x) then |ys| else Slot(ys[..|ys| - 1], x, key)
  }

  function Insert<T>(ys: seq<T>, x: T, key: T -> real): (r: seq<T>)
    ensures |r| == |ys| + 1
  {
    var p := Slot(ys, x, key);
    ys[..p] + [x] + ys[p..]
  }

  function Sort<T>(xs: seq<T>, key: T -> real): (r: seq<T>)
    ensures |r| == |xs|
  {
    if xs == [] then [] else Insert(Sort(xs[..|xs| - 1], key), xs[|xs| - 1], key)
  }

  ghost predicate Ascending<T>(ys: seq<T>, key: T -> real) {
    forall i, j :: 0 <= i < j < |ys| ==> key(ys[i]) <= key(ys[j])
  }

  /** Ascending by key, ties broken by `tag`. */
  ghost predicate Lexicographic<T>(ys: seq<T>, key: T -> real, tag: T -> int) {
    forall i, j :: 0 <= i < j < |ys| ==>
      key(ys[i]) < key(ys[j]) || (key(ys[i]) == key(ys[j]) && tag(ys[i]) < tag(ys[j]))
  }

  ghost predicate Tagged<T>(xs: seq<T>, tag: T -> int) {
    forall i, j :: 0 <= i < j < |xs| ==> tag(xs[i]) < tag(xs[j])
  }

  lemma InsertKeeps<T>(ys: seq<T>, x: T, key: T -> real)
    ensures multiset(Insert(ys, x, key)) == multiset(ys) + multiset{x}
  {
    hide Slot;
    var p := Slot(ys, x, key);
    assert ys == ys[..p] + ys[p..];
  }

  lemma {:induction false} SortKeeps<T>(xs: seq<T>, key: T -> real)
    ensures multiset(Sort(xs, key)) == multiset(xs)
  {
    if xs != [] {
      assert xs == xs[..|xs| - 1] + [xs[|xs| - 1]];
      SortKeeps(xs[..|xs| - 1], key);
      InsertKeeps(Sort(xs[..|xs| - 1], key), xs[|xs| - 1], key);
    }
  }

  lemma InMultiset<T>(xs: seq<T>, ys: seq<T>)
    requires multiset(xs) == multiset(ys)
    ensures forall x :: x in xs <==> x in ys
  {
    assert forall x :: x in xs <==> x in multiset(xs);
    assert forall x :: x in ys <==> x in multiset(ys);
  }

  lemma InsertAscends<T>(ys: seq<T>, x: T, key: T -> real)
    requires Ascending(ys, key)
    ensures Ascending(Insert(ys, x, key), key)
  {
    var p := Slot(ys, x, key);
    assert forall i :: 0 <= i < p ==> key(ys[i]) <= key(ys[p - 1]);
  }

  lemma {:induction false} SortAscends<T>(xs: seq<T>, key: T -> real)
    ensures Ascending(Sort(xs, key), key)
  {
    if xs != [] {
      SortAscends(xs[..|xs| - 1], key);
      InsertAscends(Sort(xs[..|xs| - 1], key), xs[|xs| - 1], key);
    }
  }

  lemma InsertLexicographic<T>(ys: seq<T>, x: T, key: T -> real, tag: T -> int)
    requires Lexicographic(ys, key, tag) && forall i :: 0 <= i < |ys| ==> tag(ys[i]) < tag(x)
    ensures Lexicographic(Insert(ys, x, key), key, tag)
  {
    hide Slot;
    var p := Slot(ys, x, key);
    forall i | 0 <= i < p ensures key(ys[i]) <= key(x) && tag(ys[i]) < tag(x) {
      if i != p - 1 {
        assert key(ys[i]) < key(ys[p - 1]) || key(ys[i]) == key(ys[p - 1]);
      }
    }
  }

  /** Equal keys keep their order: elements tagged by position come out ordered by key, then tag. */
  lemma {:induction false} SortIsStable<T>(xs: seq<T>, key: T -> real, tag: T -> int)
    requires Tagged(xs, tag)
    ensures Lexicographic(Sort(xs, key), key, tag)
  {
    if xs != [] {
      var init, last := xs[..|xs| - 1], xs[|xs| - 1];
      var ys := Sort(init, key);
      SortIsStable(init, key, tag);
      SortKeeps(init, key);
      TagsBelow(ys, init, last, tag);
      InsertLexicographic(ys, last, key, tag);
    }
  }

  lemma TagsBelow<T>(ys: seq<T>, init: seq<T>, last: T, tag: T -> int)
    requires multiset(ys) == multiset(init) && forall i :: 0 <= i < |init| ==> tag(init[i]) < tag(last)
    ensures forall i :: 0 <= i < |ys| ==> tag(ys[i]) < tag(last)
  {
    InMultiset(ys, init);
    forall i | 0 <= i < |ys| ensures tag(ys[i]) < tag(last) {
      assert ys[i] in ys;
    }
  }

  lemma {:induction false} SortOfSorted<T>(xs: seq<T>, key: T -> real)
    requires Ascending(xs, key)
    ensures Sort(xs, key) == xs
  {
    if xs != [] {
      SortOfSorted(xs[..|xs| - 1], key);
      assert xs == xs[..|xs| - 1] + [xs[|xs| - 1]];
    }
  }

  lemma TailMultiset<T>(xs: seq<T>)
    requires xs != []
    ensures multiset(xs[1..]) == multiset(xs) - multiset{xs[0]}
  {
    assert xs == [xs[0]] + xs[1..];
  }

  lemma HeadsAgree<T>(xs: seq<T>, ys: seq<T>, key: T -> real)
    requires xs != [] && ys != [] && multiset(xs) == multiset(ys)
    requires forall i, j :: 0 <= i < j < |xs| ==> key(xs[i]) < key(xs[j])
    requires Ascending(ys, key)
    ensures xs[0] == ys[0]
  {
    InMultiset(xs, ys);
    assert ys[0] in xs && xs[0] in ys;
    var p :| 0 <= p < |xs| && xs[p] == ys[0];
    var r :| 0 <= r < |ys| && ys[r] == xs[0];
    assert key(ys[0]) <= key(ys[r]);
  }

  /** A strictly ordered arrangement of given elements is unique. */
  lemma {:induction false} SortedIsUnique<T>(xs: seq<T>, ys: seq<T>, key: T -> real)
    requires multiset(xs) == multiset(ys)
    requires forall i, j :: 0 <= i < j < |xs| ==> key(xs[i]) < key(xs[j])
    requires Ascending(ys, key)
    ensures xs == ys
  {
    assert |xs| == |multiset(xs)| == |multiset(ys)| == |ys|;
    if xs != [] {
      HeadsAgree(xs, ys, key);
      TailMultiset(xs);
      TailMultiset(ys);
      SortedIsUnique(xs[1..], ys[1..], key);
    }
  }
}
