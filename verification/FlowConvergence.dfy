/** Out-of-order delivery: what the registry holds depends on which messages arrived, not on their order. */
module FlowConvergence {
  import opened FlowRegistry
  import opened FlowTracker

  /** The registry after delivering messages one by one. */
  function Deliver(ms: seq<Message>): Registry {
    if ms == [] then EMPTY else Apply(Deliver(ms[..|ms| - 1]), ms[|ms| - 1])
  }

  ghost predicate HasSet(ms: seq<Message>, key: Key) {
    exists m :: m in ms && m.Set? && m.key == key
  }

  ghost predicate HasRemove(ms: seq<Message>, key: Key) {
    exists m :: m in ms && m.Remove? && m.key == key
  }

  /** The messages about `key` belong to one life: removals come after all sets, and no two sets share a sequence. */
  ghost predicate OneLife(ms: seq<Message>, key: Key) {
    && (forall m, n :: m in ms && n in ms && m.Set? && n.Remove? && m.key == key && n.key == key ==>
          m.sequence < n.sequence)
    && (forall m, n :: m in ms && n in ms && m.Set? && n.Set? && m.key == key && n.key == key
          && m.sequence == n.sequence
          ==> m == n)
  }

  /** `stored` is the set of `key` with the greatest sequence among `ms`. */
  ghost predicate Greatest(ms: seq<Message>, key: Key, stored: Stored) {
    && Set(key, stored.sequence, stored.state) in ms
    && forall m :: m in ms && m.Set? && m.key == key ==> m.sequence <= stored.sequence
  }

  ghost predicate Settled(r: Registry, ms: seq<Message>, key: Key) {
    && (key in r.index <==> key in r.active)
    && (key in r.active <==> HasSet(ms, key) && !HasRemove(ms, key))
    && (key in r.active ==> Greatest(ms, key, r.active[key]))
    && (key in r.completed <==> HasRemove(ms, key))
    && (key in r.completed ==> Remove(key, r.completed[key]) in ms)
  }

  lemma LastIn(ms: seq<Message>)
    requires ms != []
    ensures forall m :: m in ms <==> m in ms[..|ms| - 1] || m == ms[|ms| - 1]
  {
    assert ms == ms[..|ms| - 1] + [ms[|ms| - 1]];
  }

  lemma OneLifePrefix(ms: seq<Message>, key: Key)
    requires ms != [] && OneLife(ms, key)
    ensures OneLife(ms[..|ms| - 1], key)
  {
    LastIn(ms);
  }

  lemma PresencePrefix(ms: seq<Message>, key: Key)
    requires ms != []
    ensures var last := ms[|ms| - 1];
            && (HasSet(ms, key) <==> HasSet(ms[..|ms| - 1], key) || (last.Set? && last.key == key))
            && (HasRemove(ms, key) <==> HasRemove(ms[..|ms| - 1], key) || (last.Remove? && last.key == key))
  {
    LastIn(ms);
    var last := ms[|ms| - 1];
    if m :| m in ms[..|ms| - 1] && m.Set? && m.key == key {
      assert m in ms;
    }
    if m :| m in ms[..|ms| - 1] && m.Remove? && m.key == key {
      assert m in ms;
    }
  }

  lemma SetSettles(r: Registry, ms: seq<Message>, key: Key)
    requires ms != [] && ms[|ms| - 1].Set? && ms[|ms| - 1].key == key
    requires OneLife(ms, key) && Settled(r, ms[..|ms| - 1], key)
    ensures Settled(Apply(r, ms[|ms| - 1]), ms, key)
  {
    var last := ms[|ms| - 1];
    PresencePrefix(ms, key);
    LastIn(ms);
    if key in r.completed {
      assert Remove(key, r.completed[key]) in ms;
      assert last.sequence < r.completed[key];
    } else if key in r.active {
      assert Set(key, r.active[key].sequence, r.active[key].state) in ms;
    } else {
      assert !HasSet(ms[..|ms| - 1], key);
      assert forall m :: m in ms && m.Set? && m.key == key ==> m == last;
    }
    hide HasSet, HasRemove;
  }

  lemma RemoveSettles(r: Registry, ms: seq<Message>, key: Key)
    requires ms != [] && ms[|ms| - 1].Remove? && ms[|ms| - 1].key == key
    requires OneLife(ms, key) && Settled(r, ms[..|ms| - 1], key)
    ensures Settled(Apply(r, ms[|ms| - 1]), ms, key)
  {
    var last := ms[|ms| - 1];
    PresencePrefix(ms, key);
    LastIn(ms);
    if key in r.active {
      assert Set(key, r.active[key].sequence, r.active[key].state) in ms;
    }
    hide HasSet, HasRemove;
  }

  lemma OtherSettles(r: Registry, ms: seq<Message>, key: Key)
    requires ms != [] && ms[|ms| - 1].key != key
    requires Settled(r, ms[..|ms| - 1], key)
    ensures Settled(Apply(r, ms[|ms| - 1]), ms, key)
  {
    PresencePrefix(ms, key);
    LastIn(ms);
    hide HasSet, HasRemove;
  }

  /**
   * Under every delivery order, with repetitions, of messages of one life: the stored value is the
   * set with the greatest delivered sequence while no removal has been delivered, and there is none
   * once one has been, whatever arrives later.
   */
  lemma {:induction false} DeliverySettles(ms: seq<Message>, key: Key)
    requires OneLife(ms, key)
    ensures Settled(Deliver(ms), ms, key)
    decreases |ms|
  {
    if ms != [] {
      var init, last := ms[..|ms| - 1], ms[|ms| - 1];
      OneLifePrefix(ms, key);
      DeliverySettles(init, key);
      hide Settled, OneLife, Apply;
      if last.key != key {
        OtherSettles(Deliver(init), ms, key);
      } else if last.Set? {
        SetSettles(Deliver(init), ms, key);
      } else {
        RemoveSettles(Deliver(init), ms, key);
      }
    }
  }

  /** Two deliveries of the same messages, in any orders, agree on the key. */
  lemma DeliveryOrderIsIrrelevant(ms: seq<Message>, ns: seq<Message>, key: Key)
    requires OneLife(ms, key) && forall m :: m in ms <==> m in ns
    ensures Lookup(Deliver(ms).active, key) == Lookup(Deliver(ns).active, key)
    ensures key in Deliver(ms).index <==> key in Deliver(ns).index
  {
    DeliverySettles(ms, key);
    DeliverySettles(ns, key);
    var a, b := Deliver(ms), Deliver(ns);
    assert HasSet(ms, key) <==> HasSet(ns, key);
    assert HasRemove(ms, key) <==> HasRemove(ns, key);
    if key in a.active {
      assert Set(key, a.active[key].sequence, a.active[key].state) in ns;
      assert Set(key, b.active[key].sequence, b.active[key].state) in ms;
    }
    hide Deliver, HasSet, HasRemove;
  }

  // ---- When a removal is final ----

  /** Once any removal of `key` has arrived, no delivery of messages from `bag` leaves the key active. */
  ghost predicate RemovalsAreFinal(bag: set<Message>, key: Key) {
    forall ms :: From(ms, bag) && HasRemove(ms, key) ==> key !in Deliver(ms).active
  }

  /** A delivery of messages from `bag`, in any order, with any of them missing or repeated. */
  ghost predicate From(ms: seq<Message>, bag: set<Message>) {
    forall m :: m in ms ==> m in bag
  }

  /** No removal of `key` has a lower sequence than a set of it. */
  ghost predicate RemovalsAreLast(bag: set<Message>, key: Key) {
    forall s, r :: s in bag && r in bag && s.Set? && r.Remove? && s.key == key && r.key == key ==>
      s.sequence <= r.sequence
  }

  /** After a removal: no entry, and a tombstone left by some removal. Before it: an entry left by some set. */
  ghost predicate RemovedForGood(r: Registry, ms: seq<Message>, key: Key) {
    && (HasRemove(ms, key) ==>
          key !in r.active && key in r.completed && Remove(key, r.completed[key]) in ms)
    && (key in r.active ==> Set(key, r.active[key].sequence, r.active[key].state) in ms)
  }

  lemma OneMoreFromBag(r: Registry, ms: seq<Message>, bag: set<Message>, key: Key)
    requires ms != [] && From(ms, bag) && RemovalsAreLast(bag, key)
    requires RemovedForGood(r, ms[..|ms| - 1], key)
    ensures RemovedForGood(Apply(r, ms[|ms| - 1]), ms, key)
  {
    PresencePrefix(ms, key);
    LastIn(ms);
    hide HasRemove, HasSet;
    var last := ms[|ms| - 1];
    if last.key == key && last.Set? && key in r.completed && HasRemove(ms[..|ms| - 1], key) {
      assert Remove(key, r.completed[key]) in bag && last in bag;
    }
    if last.key == key && last.Remove? && key in r.active {
      assert Set(key, r.active[key].sequence, r.active[key].state) in bag && last in bag;
    }
  }

  lemma {:induction false} DeliveredFromBag(ms: seq<Message>, bag: set<Message>, key: Key)
    requires From(ms, bag) && RemovalsAreLast(bag, key)
    ensures RemovedForGood(Deliver(ms), ms, key)
    decreases |ms|
  {
    if ms != [] {
      DeliveredFromBag(ms[..|ms| - 1], bag, key);
      hide Apply, RemovalsAreLast, RemovedForGood;
      OneMoreFromBag(Deliver(ms[..|ms| - 1]), ms, bag, key);
    }
  }

  lemma DeliverTwo(m: Message, n: Message)
    ensures Deliver([m, n]) == Apply(Apply(EMPTY, m), n)
  {
    assert [m, n][..1] == [m] && [m][..0] == [];
    assert Deliver([m]) == Apply(Deliver([]), m);
  }

  /**
   * When a removal is final, for any bag of messages, from however many lives of the key: whatever is
   * delivered, in whatever order, an entry removed never comes back if and only if no removal in the
   * bag has a lower sequence than a set in it.
   */
  lemma RemovalsAreFinalIff(bag: set<Message>, key: Key)
    ensures RemovalsAreFinal(bag, key) <==> RemovalsAreLast(bag, key)
  {
    if RemovalsAreLast(bag, key) {
      forall ms | From(ms, bag) && HasRemove(ms, key)
        ensures key !in Deliver(ms).active
      {
        DeliveredFromBag(ms, bag, key);
      }
    } else {
      var s, r :| s in bag && r in bag && s.Set? && r.Remove? &&
               s.key == key && r.key == key && s.sequence > r.sequence;
      DeliverTwo(r, s);
      assert r in [r, s];
      assert HasRemove([r, s], key) && From([r, s], bag);
      hide Deliver;
    }
  }

  /** What a tracker sends about one request under a sequence of marks. */
  function MessagesOfMarks(inner: map<string, ActiveRequest>, key: Key, marks: seq<Mark>): seq<Message>
    decreases |marks|
  {
    if marks == [] then []
    else
      MessagesOf(inner, key, marks[0]) + MessagesOfMarks(EntriesAfter(inner, key.request, marks[0], 0), key, marks[1..])
  }

  /**
   * A tracker produces a bag that fails the condition when a request id is used twice: both lives are
   * completed, the first removal arrives after the second and lowers its tombstone, and the second
   * life's set, arriving last, leaves a completed request active.
   */
  lemma ReusedKeyResurrects(key: Key)
    ensures var sent := MessagesOfMarks(map[], key, [MarkAccepted(3), MarkCompleted, MarkAccepted(5), MarkCompleted]);
            var ms := [Remove(key, 6), Remove(key, 4), Set(key, 5, Accepted)];
            && (forall m :: m in ms ==> m in sent)
            && (forall m :: m in sent ==> m in ms || m == Set(key, 3, Accepted))
            && key in Deliver(ms).active
  {
    TwoLivesSend(key);
    var ms := [Remove(key, 6), Remove(key, 4), Set(key, 5, Accepted)];
    assert ms[..2] == [Remove(key, 6), Remove(key, 4)];
    DeliverTwo(Remove(key, 6), Remove(key, 4));
    assert Deliver(ms) == Apply(Deliver(ms[..2]), ms[2]);
  }

  lemma TwoLivesSend(key: Key)
    ensures MessagesOfMarks(map[], key, [MarkAccepted(3), MarkCompleted, MarkAccepted(5), MarkCompleted]) ==
            [Set(key, 3, Accepted), Remove(key, 4), Set(key, 5, Accepted), Remove(key, 6)]
  {
    var id := key.request;
    var marks := [MarkAccepted(3), MarkCompleted, MarkAccepted(5), MarkCompleted];
    var three, five := map[id := NewRequest(3, 0)], map[id := NewRequest(5, 0)];
    assert map[][id := NewRequest(3, 0)] == three && map[][id := NewRequest(5, 0)] == five;
    assert three - {id} == map[] && five - {id} == map[];
    assert marks[1..] == [MarkCompleted, MarkAccepted(5), MarkCompleted];
    assert marks[1..][1..] == [MarkAccepted(5), MarkCompleted];
    assert [MarkAccepted(5), MarkCompleted][1..] == [MarkCompleted];
    assert [MarkCompleted][1..] == [];
    assert MessagesOfMarks(five, key, [MarkCompleted]) == [Remove(key, 6)];
    assert MessagesOfMarks(map[], key, marks[1..][1..]) == [Set(key, 5, Accepted), Remove(key, 6)];
    assert MessagesOfMarks(three, key, marks[1..]) == [Remove(key, 4)] + [Set(key, 5, Accepted), Remove(key, 6)];
  }
}
