/** Small facts about finite sets used by the loops that visit a set element by element. */
module Sets {

  /** The elements of a sequence of nodes. */
  function Elems(s: seq<int>): set<int>
  {
    set x | x in s
  }

  /** A non-empty set of nodes has a node to pick. */
  lemma NonEmptyHasNode(s: set<int>)
    requires s != {}
    ensures exists x :: x in s
  {
    if forall x :: x !in s {
      assert false;
    }
  }

  /** A non-empty set of node pairs has a pair to pick. */
  lemma NonEmptyHasPair(s: set<(int, int)>)
    requires s != {}
    ensures exists x :: x in s
  {
    if forall x :: x !in s {
      assert false;
    }
  }

  /** Moving one element from the to-do part to the done part of a set. */
  lemma SetStep(all: set<(int, int)>, done: set<(int, int)>, x: (int, int))
    ensures all - (done + {x}) == (all - done) - {x}
  {
  }

  /** The map q overlaid with the entries of o on the keys done. */
  function Overlay(q: map<int, int>, o: map<int, int>, done: set<int>): (r: map<int, int>)
    requires done <= o.Keys
    ensures r.Keys == q.Keys + done
    ensures forall k :: k in r ==> r[k] == if k in done then o[k] else q[k]
  {
    q + (map k | k in done :: o[k])
  }

  /** Overlaying one more key is a single update; a key not yet overlaid still has its old entry. */
  lemma OverlayStep(q: map<int, int>, o: map<int, int>, done: set<int>, x: int)
    requires done <= o.Keys && x in o && x !in done
    ensures Overlay(q, o, done + {x}) == Overlay(q, o, done)[x := o[x]]
    ensures x in Overlay(q, o, done) <==> x in q
    ensures x in q ==> Overlay(q, o, done)[x] == q[x]
  {
    assert Overlay(q, o, done + {x}).Keys == Overlay(q, o, done)[x := o[x]].Keys;
  }

  /** Overlaying every key of o gives q + o. */
  lemma OverlayAll(q: map<int, int>, o: map<int, int>)
    ensures Overlay(q, o, o.Keys) == q + o
  {
  }

  /** Moving one node from the to-do part to the done part of a set. */
  lemma SetStepNodes(all: set<int>, done: set<int>, x: int)
    ensures all - (done + {x}) == (all - done) - {x}
  {
  }
}
