/** The shared registry of active requests: atomic scripts, and the snapshot of three commands. */
module FlowRegistry {
  import opened Wrappers

  datatype FlowState = Accepted | Generating | Outputting | Unknown(text: string)

  /** The key of one request of one gateway instance. */
  datatype Key = Key(instance: string, request: string)

  datatype Stored = Stored(sequence: nat, state: FlowState)

  datatype Registry = Registry(active: map<Key, Stored>, completed: map<Key, nat>, index: set<Key>)

  const EMPTY := Registry(map[], map[], {})

  predicate SetIsStale(r: Registry, key: Key, sequence: nat) {
    || (key in r.completed && r.completed[key] >= sequence)
    || (key in r.active && r.active[key].sequence >= sequence)
  }

  function SetResult(r: Registry, key: Key, state: FlowState, sequence: nat): Registry {
    if SetIsStale(r, key, sequence) then r
    else r.(active := r.active[key := Stored(sequence, state)], index := r.index + {key})
  }

  /** The tombstone takes the sequence of the last removal that was carried out, even a lower one. */
  function RemoveResult(r: Registry, key: Key, sequence: nat): Registry {
    if key in r.active && r.active[key].sequence > sequence then r
    else Registry(r.active - {key}, r.completed[key := sequence], r.index - {key})
  }

  // ---- Snapshots ----

  datatype Counts = Counts(inFlight: nat, generating: nat, outputting: nat)

  function CountOne(c: Counts, state: Option<Stored>): Counts {
    if state.None? then c
    else
      match state.value.state
      case Accepted => c.(inFlight := c.inFlight + 1)
      case Generating => c.(inFlight := c.inFlight + 1, generating := c.generating + 1)
      case Outputting => c.(inFlight := c.inFlight + 1, outputting := c.outputting + 1)
      case Unknown(_) => c
  }

  function Tally(states: seq<Option<Stored>>): Counts {
    if states == [] then Counts(0, 0, 0) else CountOne(Tally(states[..|states| - 1]), states[|states| - 1])
  }

  predicate Expired(state: Option<Stored>) {
    state.None? || state.value.state.Unknown?
  }

  function Lookup(active: map<Key, Stored>, key: Key): Option<Stored> {
    if key in active then Some(active[key]) else None
  }

  function LookupAll(active: map<Key, Stored>, keys: seq<Key>): (r: seq<Option<Stored>>)
    ensures |r| == |keys|
  {
    seq(|keys|, i requires 0 <= i < |keys| => Lookup(active, keys[i]))
  }

  /** The keys whose value a snapshot found missing or unreadable. */
  function ExpiredKeys(active: map<Key, Stored>, keys: set<Key>): set<Key> {
    set key | key in keys && Expired(Lookup(active, key))
  }

  function ExpiredAmong(keys: seq<Key>, states: seq<Option<Stored>>): set<Key>
    requires |keys| == |states|
  {
    set k | 0 <= k < |keys| && Expired(states[k]) :: keys[k]
  }

  lemma NothingListed()
    ensures Tally([]) == Counts(0, 0, 0) && ExpiredAmong([], []) == {}
  {
  }

  lemma OneMoreListed(keys: seq<Key>, states: seq<Option<Stored>>, i: nat)
    requires i < |keys| == |states|
    ensures Tally(states[..i + 1]) == CountOne(Tally(states[..i]), states[i])
    ensures ExpiredAmong(keys[..i + 1], states[..i + 1]) ==
            ExpiredAmong(keys[..i], states[..i]) + if Expired(states[i]) then {keys[i]} else {}
  {
    assert states[..i + 1][..i] == states[..i];
    hide Tally, CountOne, Expired;
    forall key
      ensures key in ExpiredAmong(keys[..i + 1], states[..i + 1]) <==>
              key in ExpiredAmong(keys[..i], states[..i]) || (Expired(states[i]) && key == keys[i])
    {
      assert Expired(states[i]) ==> keys[..i + 1][i] == keys[i] && states[..i + 1][i] == states[i];
      if key in ExpiredAmong(keys[..i], states[..i]) {
        var k :| 0 <= k < i && Expired(states[..i][k]) && keys[..i][k] == key;
        assert Expired(states[..i + 1][k]) && keys[..i + 1][k] == key;
      }
    }
  }

  lemma ExpiredAmongIs(active: map<Key, Stored>, keys: seq<Key>, members: set<Key>)
    requires Lists(keys, members)
    ensures ExpiredAmong(keys, LookupAll(active, keys)) == ExpiredKeys(active, members)
  {
    hide Expired, Lookup;
    forall key
      ensures key in ExpiredAmong(keys, LookupAll(active, keys)) <==> key in ExpiredKeys(active, members)
    {
      if key in members {
        assert key in keys;
      }
    }
  }

  /** What the clean-up of the index leaves: the keys with a readable value. */
  lemma CleanedIndex(active: map<Key, Stored>, keys: set<Key>)
    ensures keys - ExpiredKeys(active, keys) == set key | key in keys && key in active && !active[key].state.Unknown?
  {
  }

  ghost predicate Lists(keys: seq<Key>, members: set<Key>) {
    && (forall key :: key in keys <==> key in members)
    && (forall i, j :: 0 <= i < j < |keys| ==> keys[i] != keys[j])
  }

  function InState(active: map<Key, Stored>, keys: set<Key>, state: FlowState): set<Key> {
    set key | key in keys && key in active && active[key].state == state
  }

  /** What a snapshot of `keys` counts, as set sizes. */
  function CountsOf(active: map<Key, Stored>, keys: set<Key>): Counts {
    var a, g, o := InState(active, keys, Accepted),
                   InState(active, keys, Generating), InState(active, keys, Outputting);
    Counts(|a| + |g| + |o|, |g|, |o|)
  }

  lemma OneMoreKey(active: map<Key, Stored>, keys: set<Key>, key: Key, state: FlowState)
    requires key !in keys
    ensures |InState(active, keys + {key}, state)| ==
            |InState(active, keys, state)| + if key in active && active[key].state == state then 1 else 0
  {
    var before, after := InState(active, keys, state), InState(active, keys + {key}, state);
    if key in active && active[key].state == state {
      assert after == before + {key};
    } else {
      assert after == before;
    }
  }

  /** The tally of any listing of the keys is the size of the sets it counts. */
  lemma {:induction false} TallyIsCounts(active: map<Key, Stored>, keys: seq<Key>, members: set<Key>)
    requires Lists(keys, members)
    ensures Tally(LookupAll(active, keys)) == CountsOf(active, members)
    decreases |keys|
  {
    if keys == [] {
      assert members == {};
    } else {
      var n := |keys| - 1;
      var init, last := keys[..n], keys[n];
      var rest := members - {last};
      assert forall key :: key in keys <==> key in init || key == last;
      assert Lists(init, rest);
      TallyIsCounts(active, init, rest);
      assert members == rest + {last};
      OneMoreKey(active, rest, last, Accepted);
      OneMoreKey(active, rest, last, Generating);
      OneMoreKey(active, rest, last, Outputting);
      assert LookupAll(active, keys)[..n] == LookupAll(active, init);
      hide Lists, InState;
    }
  }

  /** In every snapshot the requests in flight are at least those generating or outputting. */
  lemma {:induction false} InFlightCoversPhases(states: seq<Option<Stored>>)
    ensures Tally(states).inFlight >= Tally(states).generating + Tally(states).outputting
    decreases |states|
  {
    if states != [] {
      InFlightCoversPhases(states[..|states| - 1]);
    }
  }

  class RedisFlow {
    var active: map<Key, Stored>
    var completed: map<Key, nat>
    var index: set<Key>

    ghost function View(): Registry
      reads this
    {
      Registry(active, completed, index)
    }

    constructor ()
      ensures View() == EMPTY
    {
      active, completed, index := map[], map[], {};
    }

    method FlowSet(key: Key, state: FlowState, sequence: nat)
      modifies this
      ensures View() == SetResult(old(View()), key, state, sequence)
    {
      if key in completed && completed[key] >= sequence {
        return;
      }
      if key in active && active[key].sequence >= sequence {
        return;
      }
      active := active[key := Stored(sequence, state)];
      index := index + {key};
    }

    method FlowRemove(key: Key, sequence: nat)
      modifies this
      ensures View() == RemoveResult(old(View()), key, sequence)
    {
      if key in active && active[key].sequence > sequence {
        return;
      }
      completed := completed[key := sequence];
      active := active - {key};
      index := index - {key};
    }

    /** The members of the index, in an order of the store's choosing. */
    method Members() returns (keys: seq<Key>)
      ensures Lists(keys, index)
    {
      keys := [];
      var rest := index;
      while rest != {}
        invariant rest <= index
        invariant forall key :: key in keys <==> key in index - rest
        invariant forall i, j :: 0 <= i < j < |keys| ==> keys[i] != keys[j]
        decreases |rest|
      {
        var key :| key in rest;
        assert key !in keys;
        keys := keys + [key];
        rest := rest - {key};
      }
    }

    /** A snapshot with nothing in between its three commands. */
    method FlowSnapshot() returns (counts: Counts)
      modifies this`index
      ensures counts == CountsOf(active, old(index))
      ensures index == set key | key in old(index) && key in active && !active[key].state.Unknown?
    {
      hide Tally, CountOne, CountsOf, ExpiredAmong, ExpiredKeys, Lists, Expired;
      var keys := Members();
      ghost var members := index;
      TallyIsCounts(active, keys, members);
      ExpiredAmongIs(active, keys, members);
      NothingListed();
      var states := LookupAll(active, keys);
      counts := Counts(0, 0, 0);
      var expired: set<Key> := {};
      for i := 0 to |keys|
        invariant index == members && counts == Tally(states[..i])
        invariant expired == ExpiredAmong(keys[..i], states[..i])
      {
        OneMoreListed(keys, states, i);
        counts := CountOne(counts, states[i]);
        if Expired(states[i]) {
          expired := expired + {keys[i]};
        }
      }
      assert states[..|keys|] == states && keys[..|keys|] == keys;
      assert members - {} == members;
      CleanedIndex(active, members);
      if expired != {} {
        index := index - expired;
      }
    }
  }
}
