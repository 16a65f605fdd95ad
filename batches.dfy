/** The shape shared by the four load operations: the items of a batch are
    handled one at a time, in order, each by the same step, and the keys of the
    items the step rejects are collected in a set that the operation returns. */
module Batches {

  /** Runs `step` over `items` from state `s`; the second component of a step's
      result says whether it rejected the item. Returns the final state and the
      keys of the rejected items. */
  function Run<S, I, K(==)>(s: S, items: seq<I>, step: (S, I) -> (S, bool), key: I -> K): (r: (S, set<K>))
    ensures forall k | k in r.1 :: exists i | 0 <= i < |items| :: key(items[i]) == k
  {
    if |items| == 0 then (s, {})
    else
      var p := Run(s, items[..|items| - 1], step, key);
      var it := items[|items| - 1];
      var q := step(p.0, it);
      (q.0, if q.1 then p.1 + {key(it)} else p.1)
  }

  /** Item `i` of `items` finds its identity already taken: in `taken`, or by
      an earlier item of the batch. */
  ghost predicate TakenAt<I, P>(taken: set<P>, items: seq<I>, id: I -> P, i: int)
    requires 0 <= i < |items|
  {
    id(items[i]) in taken || exists j | 0 <= j < i :: id(items[j]) == id(items[i])
  }

  /** One more item: the batch up to and including item `i` is the batch up to
      item `i`, followed by one step. */
  lemma RunAppend<S, I, K>(s: S, items: seq<I>, i: int, step: (S, I) -> (S, bool), key: I -> K)
    requires 0 <= i < |items|
    ensures var p := Run(s, items[..i], step, key);
      var q := step(p.0, items[i]);
      Run(s, items[..i + 1], step, key) == (q.0, if q.1 then p.1 + {key(items[i])} else p.1)
  {
    assert items[..i + 1][..i] == items[..i];
  }

  /** The keys of the items of `items` that find their identity already taken. */
  ghost function Rejected<I, P, K>(taken: set<P>, items: seq<I>, key: I -> K, id: I -> P): set<K> {
    set i | 0 <= i < |items| && TakenAt(taken, items, id, i) :: key(items[i])
  }

  /** For a step that inserts an item's identity into the state's set of taken
      identities, a batch takes the identities of all its items and no other. */
  lemma {:induction false} RunTakes<S, I, P, K>(s: S, items: seq<I>, step: (S, I) -> (S, bool),
                                                key: I -> K, id: I -> P, taken: S -> set<P>)
    requires forall t, it :: taken(step(t, it).0) == taken(t) + {id(it)}
    ensures taken(Run(s, items, step, key).0) == taken(s) + (set i | 0 <= i < |items| :: id(items[i]))
  {
    if |items| > 0 {
      var init := items[..|items| - 1];
      var n := |init|;
      RunTakes(s, init, step, key, id, taken);
      var p := Run(s, init, step, key);
      StepTakes(p.0, items[n], step, id, taken);
      assert (set i | 0 <= i < |items| :: id(items[i])) == (set i | 0 <= i < n :: id(init[i])) + {id(items[n])} by {
        assert forall i | 0 <= i < n :: items[i] == init[i];
      }
    }
  }

  /** If, besides, the step rejects an item exactly when its identity was
      taken already, a batch rejects exactly the items whose identity an
      earlier item or the state before the batch took. */
  lemma {:induction false} RunOutcome<S, I, P, K>(s: S, items: seq<I>, step: (S, I) -> (S, bool),
                                                  key: I -> K, id: I -> P, taken: S -> set<P>)
    requires forall t, it :: step(t, it).1 == (id(it) in taken(t))
    requires forall t, it :: taken(step(t, it).0) == taken(t) + {id(it)}
    ensures taken(Run(s, items, step, key).0) == taken(s) + (set i | 0 <= i < |items| :: id(items[i]))
    ensures Run(s, items, step, key).1 == Rejected(taken(s), items, key, id)
  {
    RunTakes(s, items, step, key, id, taken);
    if |items| > 0 {
      var init := items[..|items| - 1];
      var n := |init|;
      var it := items[n];
      RunOutcome(s, init, step, key, id, taken);
      var p := Run(s, init, step, key);
      var q := step(p.0, it);
      StepRejects(p.0, it, step, id, taken);
      assert items == init + [it];
      TakenAtLast(taken(s), init, it, id);
      RejectedAppend(taken(s), init, it, key, id);
    }
  }

  /** The last item finds its identity taken exactly when the state before
      the batch or an earlier item took it. */
  lemma TakenAtLast<I, P>(taken: set<P>, init: seq<I>, it: I, id: I -> P)
    ensures TakenAt(taken, init + [it], id, |init|)
        <==> id(it) in taken + (set i | 0 <= i < |init| :: id(init[i]))
  {
    var items := init + [it];
    if id(it) in (set i | 0 <= i < |init| :: id(init[i])) {
      var i :| 0 <= i < |init| && id(init[i]) == id(it);
      assert items[i] == init[i];
    }
    if TakenAt(taken, items, id, |init|) && id(it) !in taken {
      var j :| 0 <= j < |init| && id(items[j]) == id(it);
      assert items[j] == init[j];
    }
  }

  lemma StepRejects<S, I, P>(t: S, it: I, step: (S, I) -> (S, bool), id: I -> P, taken: S -> set<P>)
    requires forall t, it :: step(t, it).1 == (id(it) in taken(t))
    ensures step(t, it).1 == (id(it) in taken(t))
  {
  }

  /** Appending an item adds its key to the rejected set exactly when its
      identity is taken. */
  lemma RejectedAppend<I, P, K>(taken: set<P>, init: seq<I>, it: I, key: I -> K, id: I -> P)
    ensures var items := init + [it];
      Rejected(taken, items, key, id)
        == Rejected(taken, init, key, id) + (if TakenAt(taken, items, id, |init|) then {key(it)} else {})
  {
    var items := init + [it];
    var n := |init|;
    forall i | 0 <= i < n
      ensures key(items[i]) == key(init[i]) && (TakenAt(taken, items, id, i) <==> TakenAt(taken, init, id, i))
    {
      assert forall j | 0 <= j < i :: items[j] == init[j];
    }
    var before := Rejected(taken, init, key, id);
    var after := Rejected(taken, items, key, id);
    forall x | x in after ensures x in before || (TakenAt(taken, items, id, n) && x == key(it)) {
      var i :| 0 <= i < |items| && TakenAt(taken, items, id, i) && key(items[i]) == x;
    }
    forall x | x in before ensures x in after {
      var i :| 0 <= i < n && TakenAt(taken, init, id, i) && key(init[i]) == x;
    }
  }

  /** A property that every step preserves holds after the whole batch. */
  lemma {:induction false} RunPreserves<S, I, K>(s: S, items: seq<I>, step: (S, I) -> (S, bool),
                                                     key: I -> K, inv: S -> bool)
    requires forall t, it :: inv(t) ==> inv(step(t, it).0)
    requires inv(s)
    ensures inv(Run(s, items, step, key).0)
  {
    if |items| > 0 {
      RunPreserves(s, items[..|items| - 1], step, key, inv);
      var p := Run(s, items[..|items| - 1], step, key);
      StepPreserves(p.0, items[|items| - 1], step, inv);
    }
  }

  lemma StepTakes<S, I, P>(t: S, it: I, step: (S, I) -> (S, bool), id: I -> P, taken: S -> set<P>)
    requires forall t, it :: taken(step(t, it).0) == taken(t) + {id(it)}
    ensures taken(step(t, it).0) == taken(t) + {id(it)}
  {
  }

  lemma StepPreserves<S, I>(t: S, it: I, step: (S, I) -> (S, bool), inv: S -> bool)
    requires forall t, it :: inv(t) ==> inv(step(t, it).0)
    requires inv(t)
    ensures inv(step(t, it).0)
  {
  }
}
