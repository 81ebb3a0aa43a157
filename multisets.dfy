/** Facts about sequences that are reorderings of each other. */
module Reorderings {

  /**
   * When two sequences hold the same elements, the first element of one
   * stands somewhere in the other, and dropping it from both leaves two
   * sequences that again hold the same elements.
   */
  lemma PickMatch<T>(e1: seq<T>, e2: seq<T>) returns (i: nat)
    requires multiset(e1) == multiset(e2) && e1 != []
    ensures i < |e2| && e2[i] == e1[0]
    ensures multiset(e1[1..]) == multiset(e2[..i] + e2[i + 1..])
  {
    var x := e1[0];
    assert e1 == [x] + e1[1..];
    assert x in multiset(e2);
    i :| 0 <= i < |e2| && e2[i] == x;
    var pre, post := e2[..i], e2[i + 1..];
    assert e2 == pre + [x] + post;
    assert multiset(e2) == multiset(pre + post) + multiset{x};
    assert multiset(pre + post) == multiset(e2) - multiset{x};
    assert multiset(e1[1..]) == multiset(e1) - multiset{x};
  }

  /** Only the empty sequence holds the same elements as the empty sequence. */
  lemma EmptyMatch<T>(e: seq<T>)
    requires multiset(e) == multiset{}
    ensures e == []
  {
    assert |multiset(e)| == 0;
  }
}
