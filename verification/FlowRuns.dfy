/**
 * The distributed flow tracker over whole runs: marks on any instance, messages delivered in any
 * order and any number of times, and snapshots whose three commands interleave with all of it.
 * Each key lives once, nothing expires, and sequences stay below 2^53.
 */
module FlowRuns {
  import opened Wrappers
  import opened BoundedInts
  import opened FlowRegistry
  import opened FlowTracker
  import opened FlowConvergence

  const SEQUENCE_LIMIT: nat := 0x20_0000_0000_0000

  /** A snapshot between its commands: keys listed, or values read. */
  datatype Snapshot = Listed(keys: set<Key>) | Counted(counts: Counts, expired: set<Key>)

  datatype System = System(
    local: map<Key, ActiveRequest>,
    marks: map<Key, seq<FlowState>>,
    used: set<Key>,
    sent: seq<Message>,
    delivered: seq<Message>,
    registry: Registry,
    snapshots: map<nat, Snapshot>)

  datatype Step =
    | Accept(key: Key, micros: nat, now: nat)
    | UpstreamStarted(key: Key, at: string, now: nat)
    | FirstByte(key: Key, at: string, now: nat)
    | Complete(key: Key)
    | Arrive(m: Message)
    | ListKeys(id: nat)
    | ReadValues(id: nat)
    | CleanIndex(id: nat)

  const START := System(map[], map[], {}, [], [], EMPTY, map[])

  /** A mark on a live request, and the message it sends. */
  function Marked(s: System, key: Key, req: ActiveRequest, state: FlowState): System
    requires key in s.marks
  {
    s.(local := s.local[key := req], marks := s.marks[key := s.marks[key] + [state]],
       sent := s.sent + [Set(key, req.sequence, state)])
  }

  predicate CanMark(s: System, key: Key) {
    key in s.local && key in s.marks && s.local[key].sequence + 1 < SEQUENCE_LIMIT
  }

  /** One step; a step that is not enabled changes nothing. */
  function Next(s: System, step: Step): System {
    match step
    case Accept(key, micros, now) =>
      if key in s.used || micros >= SEQUENCE_LIMIT then s
      else s.(local := s.local[key := NewRequest(micros, now)], marks := s.marks[key := []],
              used := s.used + {key}, sent := s.sent + [Set(key, micros, Accepted)])
    case UpstreamStarted(key, at, now) =>
      if CanMark(s, key) then Marked(s, key, s.local[key].UpstreamStarted(at, now), Generating) else s
    case FirstByte(key, at, now) =>
      if CanMark(s, key) then Marked(s, key, s.local[key].FirstByte(at, now), Outputting) else s
    case Complete(key) =>
      if key !in s.used then s
      else
        var sequence := if key in s.local then SaturatingAdd(s.local[key].sequence, 1) else U64_MAX;
        s.(local := s.local - {key}, sent := s.sent + [Remove(key, sequence)])
    case Arrive(m) =>
      if m !in s.sent then s else s.(delivered := s.delivered + [m], registry := Apply(s.registry, m))
    case ListKeys(id) =>
      if id in s.snapshots then s else s.(snapshots := s.snapshots[id := Listed(s.registry.index)])
    case ReadValues(id) =>
      if id !in s.snapshots || !s.snapshots[id].Listed? then s
      else
        var keys, active := s.snapshots[id].keys, s.registry.active;
        s.(snapshots := s.snapshots[id := Counted(CountsOf(active, keys), ExpiredKeys(active, keys))])
    case CleanIndex(id) =>
      if id !in s.snapshots || !s.snapshots[id].Counted? then s
      else s.(registry := s.registry.(index := s.registry.index - s.snapshots[id].expired),
              snapshots := s.snapshots - {id})
  }

  function Run(steps: seq<Step>): System {
    if steps == [] then START else Next(Run(steps[..|steps| - 1]), steps[|steps| - 1])
  }

  // ---- The invariant ----

  function LastMark(marks: seq<FlowState>): FlowState {
    if marks == [] then Accepted else marks[|marks| - 1]
  }

  /** What has been sent about one key, against what its instance knows. */
  ghost predicate KeySent(s: System, key: Key) {
    && OneLife(s.sent, key)
    && (key in s.used <==> HasSet(s.sent, key))
    && (HasRemove(s.sent, key) ==> key in s.used)
    && (key in s.local <==> key in s.used && !HasRemove(s.sent, key))
    && (key in s.local ==>
          && key in s.marks
          && s.local[key].sequence < SEQUENCE_LIMIT
          && Greatest(s.sent, key, Stored(s.local[key].sequence, LastMark(s.marks[key])))
          && (s.local[key].upstreamStartedAt.Some? <==> Generating in s.marks[key])
          && (s.local[key].firstByteAt.Some? <==> Outputting in s.marks[key])
          && (forall i :: 0 <= i < |s.marks[key]| ==> s.marks[key][i] in {Generating, Outputting}))
  }

  ghost predicate SentInvariant(s: System) {
    && (forall key :: KeySent(s, key))
    && (forall m :: m in s.sent && m.Set? ==> !m.state.Unknown? && m.sequence < SEQUENCE_LIMIT)
  }

  ghost predicate RegistryInvariant(s: System) {
    && (forall m :: m in s.delivered ==> m in s.sent)
    && s.registry.active == Deliver(s.delivered).active
    && s.registry.completed == Deliver(s.delivered).completed
    && s.registry.index == s.registry.active.Keys
  }

  /** Listed keys have been set; expired ones have been removed, so they never come back. */
  ghost predicate SnapshotInvariant(s: System) {
    forall id :: id in s.snapshots ==>
      match s.snapshots[id]
      case Listed(keys) => forall key :: key in keys ==> HasSet(s.delivered, key)
      case Counted(_, expired) => forall key :: key in expired ==> HasRemove(s.delivered, key)
  }

  ghost predicate Invariant(s: System) {
    SentInvariant(s) && RegistryInvariant(s) && SnapshotInvariant(s)
  }

  // ---- Sending ----

  lemma SendPresence(ms: seq<Message>, m: Message, key: Key)
    ensures HasSet(ms + [m], key) <==> HasSet(ms, key) || (m.Set? && m.key == key)
    ensures HasRemove(ms + [m], key) <==> HasRemove(ms, key) || (m.Remove? && m.key == key)
  {
    PresencePrefix(ms + [m], key);
    assert (ms + [m])[..|ms|] == ms;
  }

  lemma OtherKeySent(s: System, t: System, m: Message, key: Key)
    requires KeySent(s, key) && m.key != key && t.sent == s.sent + [m]
    requires key in s.used <==> key in t.used
    requires key in s.local <==> key in t.local
    requires key in s.local && key in s.marks ==>
               key in t.marks && t.local[key] == s.local[key] && t.marks[key] == s.marks[key]
    ensures KeySent(t, key)
  {
    SendPresence(s.sent, m, key);
    assert forall n :: n in t.sent <==> n in s.sent || n == m;
    hide HasSet, HasRemove;
  }

  /** A set with a new greatest sequence extends the life of its key. */
  lemma NextSetSent(ms: seq<Message>, m: Message)
    requires m.Set? && OneLife(ms, m.key) && !HasRemove(ms, m.key)
    requires forall n :: n in ms && n.Set? && n.key == m.key ==> n.sequence < m.sequence
    ensures OneLife(ms + [m], m.key) && Greatest(ms + [m], m.key, Stored(m.sequence, m.state))
  {
    assert forall n :: n in ms + [m] <==> n in ms || n == m;
    assert m in ms + [m];
  }

  lemma RemoveSent(ms: seq<Message>, m: Message)
    requires m.Remove? && OneLife(ms, m.key)
    requires forall n :: n in ms && n.Set? && n.key == m.key ==> n.sequence < m.sequence
    ensures OneLife(ms + [m], m.key)
  {
    assert forall n :: n in ms + [m] <==> n in ms || n == m;
  }

  lemma AcceptSent(s: System, key: Key, micros: nat, now: nat)
    requires SentInvariant(s) && key !in s.used && micros < SEQUENCE_LIMIT
    ensures SentInvariant(Next(s, Accept(key, micros, now)))
  {
    var t, m := Next(s, Accept(key, micros, now)), Set(key, micros, Accepted);
    assert KeySent(s, key);
    forall other
      ensures KeySent(t, other)
    {
      assert KeySent(s, other);
      if other != key {
        OtherKeySent(s, t, m, other);
      } else {
        SendPresence(s.sent, m, key);
        assert forall n :: n in s.sent && n.key == key ==> !n.Set?;
        hide HasSet, HasRemove;
        NextSetSent(s.sent, m);
      }
    }
    hide KeySent;
  }

  lemma MarkSent(s: System, key: Key, req: ActiveRequest, state: FlowState)
    requires SentInvariant(s) && CanMark(s, key) && state in {Generating, Outputting}
    requires req.sequence == s.local[key].sequence + 1
    requires req.upstreamStartedAt.Some? <==> s.local[key].upstreamStartedAt.Some? || state == Generating
    requires req.firstByteAt.Some? <==> s.local[key].firstByteAt.Some? || state == Outputting
    ensures SentInvariant(Marked(s, key, req, state))
  {
    var t, m := Marked(s, key, req, state), Set(key, req.sequence, state);
    forall other
      ensures KeySent(t, other)
    {
      assert KeySent(s, other);
      if other != key {
        OtherKeySent(s, t, m, other);
      } else {
        SendPresence(s.sent, m, key);
        NextSetSent(s.sent, m);
        hide HasSet, HasRemove, OneLife;
        var marks := s.marks[key];
        assert t.marks[key] == marks + [state];
      }
    }
    hide KeySent;
  }

  lemma CompleteSent(s: System, key: Key)
    requires SentInvariant(s) && key in s.used
    ensures SentInvariant(Next(s, Complete(key)))
  {
    var t := Next(s, Complete(key));
    var m := t.sent[|s.sent|];
    assert t.sent == s.sent + [m];
    forall other
      ensures KeySent(t, other)
    {
      assert KeySent(s, other);
      if other != key {
        OtherKeySent(s, t, m, other);
      } else {
        SendPresence(s.sent, m, key);
        RemoveSent(s.sent, m);
        hide HasSet, HasRemove, OneLife;
      }
    }
    hide KeySent;
  }

  // ---- Delivering and reading ----

  lemma SubsetOneLife(ms: seq<Message>, ns: seq<Message>, key: Key)
    requires OneLife(ms, key) && forall m :: m in ns ==> m in ms
    ensures OneLife(ns, key)
  {
  }

  lemma DeliveredSettles(s: System, key: Key)
    requires SentInvariant(s) && RegistryInvariant(s)
    ensures key in s.registry.active <==> HasSet(s.delivered, key) && !HasRemove(s.delivered, key)
    ensures key in s.registry.active ==>
              Greatest(s.delivered, key, s.registry.active[key]) && !s.registry.active[key].state.Unknown?
  {
    assert KeySent(s, key);
    SubsetOneLife(s.sent, s.delivered, key);
    DeliverySettles(s.delivered, key);
    hide HasSet, HasRemove, OneLife, KeySent;
  }

  lemma ApplyIgnoresIndex(r: Registry, q: Registry, m: Message)
    requires r.active == q.active && r.completed == q.completed
    ensures Apply(r, m).active == Apply(q, m).active && Apply(r, m).completed == Apply(q, m).completed
    ensures r.index == r.active.Keys ==> Apply(r, m).index == Apply(r, m).active.Keys
  {
  }

  lemma DeliverKeeps(s: System, m: Message)
    requires Invariant(s) && m in s.sent
    ensures Invariant(Next(s, Arrive(m)))
  {
    var t := Next(s, Arrive(m));
    ApplyIgnoresIndex(s.registry, Deliver(s.delivered), m);
    assert t.delivered[..|s.delivered|] == s.delivered;
    forall key
      ensures HasSet(s.delivered, key) ==> HasSet(t.delivered, key)
      ensures HasRemove(s.delivered, key) ==> HasRemove(t.delivered, key)
    {
      SendPresence(s.delivered, m, key);
    }
    SameSent(s, t);
    hide HasSet, HasRemove, Apply, SentInvariant;
    assert SnapshotInvariant(t);
  }

  lemma SameSent(s: System, t: System)
    requires SentInvariant(s)
    requires t.sent == s.sent && t.local == s.local && t.marks == s.marks && t.used == s.used
    ensures SentInvariant(t)
  {
    forall key
      ensures KeySent(t, key)
    {
      assert KeySent(s, key);
    }
  }

  lemma ListKeeps(s: System, id: nat)
    requires Invariant(s)
    ensures Invariant(Next(s, ListKeys(id)))
  {
    var t := Next(s, ListKeys(id));
    SameSent(s, t);
    forall key | key in s.registry.index
      ensures HasSet(s.delivered, key)
    {
      DeliveredSettles(s, key);
    }
    hide SentInvariant, HasSet, HasRemove;
  }

  lemma ReadKeeps(s: System, id: nat)
    requires Invariant(s)
    ensures Invariant(Next(s, ReadValues(id)))
  {
    var t := Next(s, ReadValues(id));
    SameSent(s, t);
    if id in s.snapshots && s.snapshots[id].Listed? {
      forall key | key in ExpiredKeys(s.registry.active, s.snapshots[id].keys)
        ensures HasRemove(s.delivered, key)
      {
        DeliveredSettles(s, key);
      }
    }
    hide SentInvariant, HasSet, HasRemove, CountsOf, ExpiredKeys;
  }

  lemma CleanKeeps(s: System, id: nat)
    requires Invariant(s)
    ensures Invariant(Next(s, CleanIndex(id)))
  {
    var t := Next(s, CleanIndex(id));
    SameSent(s, t);
    if id in s.snapshots && s.snapshots[id].Counted? {
      forall key | key in s.snapshots[id].expired
        ensures key !in s.registry.active
      {
        DeliveredSettles(s, key);
      }
      assert t.registry.index == s.registry.index;
    }
    hide SentInvariant, HasSet, HasRemove;
  }

  lemma SendingKeepsRegistry(s: System, t: System)
    requires RegistryInvariant(s) && SnapshotInvariant(s)
    requires t.registry == s.registry && t.delivered == s.delivered && t.snapshots == s.snapshots
    requires forall m :: m in s.sent ==> m in t.sent
    ensures RegistryInvariant(t) && SnapshotInvariant(t)
  {
    hide HasSet, HasRemove;
  }

  lemma StepKeeps(s: System, step: Step)
    requires Invariant(s)
    ensures Invariant(Next(s, step))
  {
    match step {
      case Accept(key, micros, now) =>
        if key !in s.used && micros < SEQUENCE_LIMIT {
          AcceptSent(s, key, micros, now);
        }
        SendingKeepsRegistry(s, Next(s, step));
      case UpstreamStarted(key, at, now) =>
        if CanMark(s, key) {
          MarkSent(s, key, s.local[key].UpstreamStarted(at, now), Generating);
        }
        SendingKeepsRegistry(s, Next(s, step));
      case FirstByte(key, at, now) =>
        if CanMark(s, key) {
          MarkSent(s, key, s.local[key].FirstByte(at, now), Outputting);
        }
        SendingKeepsRegistry(s, Next(s, step));
      case Complete(key) =>
        if key in s.used {
          CompleteSent(s, key);
        }
        SendingKeepsRegistry(s, Next(s, step));
      case Arrive(m) =>
        if m in s.sent {
          DeliverKeeps(s, m);
        }
      case ListKeys(id) => ListKeeps(s, id);
      case ReadValues(id) => ReadKeeps(s, id);
      case CleanIndex(id) => CleanKeeps(s, id);
    }
    hide SentInvariant, RegistryInvariant, SnapshotInvariant;
  }

  lemma StartKeeps()
    ensures Invariant(START)
  {
  }

  lemma {:induction false} RunKeeps(steps: seq<Step>)
    ensures Invariant(Run(steps))
    decreases |steps|
  {
    if steps == [] {
      StartKeeps();
    } else {
      RunKeeps(steps[..|steps| - 1]);
      StepKeeps(Run(steps[..|steps| - 1]), steps[|steps| - 1]);
      hide Invariant, Next;
    }
  }

  // ---- The theorems ----

  /**
   * In every reachable state the index is exactly the set of active keys, and a key is active exactly
   * when some set of it has been delivered and no removal, with the greatest set delivered as its value.
   */
  lemma IndexIsExact(steps: seq<Step>, key: Key)
    ensures var s := Run(steps);
            && s.registry.index == s.registry.active.Keys
            && (key in s.registry.active <==> HasSet(s.delivered, key) && !HasRemove(s.delivered, key))
            && (key in s.registry.active ==> Greatest(s.delivered, key, s.registry.active[key]))
  {
    RunKeeps(steps);
    DeliveredSettles(Run(steps), key);
    hide Run, HasSet, HasRemove;
  }

  /** With each key living once, what the trackers have sent can only make removals final. */
  lemma OneLifeRemovalsAreFinal(steps: seq<Step>, key: Key)
    ensures RemovalsAreFinal((set m | m in Run(steps).sent), key)
  {
    RunKeeps(steps);
    assert KeySent(Run(steps), key);
    hide Run, HasSet, HasRemove;
    RemovalsAreFinalIff((set m | m in Run(steps).sent), key);
  }

  // ---- What an interleaved snapshot counts ----

  lemma DeliveredGrows(s: System, step: Step)
    ensures s.delivered <= Next(s, step).delivered
  {
  }

  lemma {:induction false} DeliveredSince(steps: seq<Step>, c: nat, d: nat)
    requires c <= d <= |steps|
    ensures Run(steps[..c]).delivered <= Run(steps[..d]).delivered
    decreases d
  {
    hide Next;
    if c < d {
      DeliveredSince(steps, c, d - 1);
      RunAt(steps, d - 1);
      DeliveredGrows(Run(steps[..d - 1]), steps[d - 1]);
    }
  }

  lemma RunAt(steps: seq<Step>, n: nat)
    requires n < |steps|
    ensures Run(steps[..n + 1]) == Next(Run(steps[..n]), steps[n])
  {
    hide Next;
    assert steps[..n + 1][..n] == steps[..n];
  }

  /** The active entries after the first `n` steps. */
  function ActiveAt(steps: seq<Step>, n: nat): map<Key, Stored>
    requires n <= |steps|
  {
    Run(steps[..n]).registry.active
  }

  /** A snapshot that listed the keys after `a` steps, and read their values after `b`. */
  ghost predicate TakenAt(steps: seq<Step>, snapshot: Snapshot, a: nat, b: nat)
    requires a <= b <= |steps|
  {
    match snapshot
    case Listed(keys) => keys == ActiveAt(steps, a).Keys
    case Counted(counts, expired) =>
      && counts == CountsOf(ActiveAt(steps, b), ActiveAt(steps, a).Keys)
      && expired == ExpiredKeys(ActiveAt(steps, b), ActiveAt(steps, a).Keys)
  }

  lemma TakenBefore(steps: seq<Step>, snapshot: Snapshot, a: nat, b: nat)
    requires steps != [] && a <= b < |steps| && TakenAt(steps[..|steps| - 1], snapshot, a, b)
    ensures TakenAt(steps, snapshot, a, b)
  {
    var init := steps[..|steps| - 1];
    assert init[..a] == steps[..a] && init[..b] == steps[..b];
    hide Run, CountsOf, ExpiredKeys;
  }

  /** How one step changes the snapshots. */
  lemma SnapshotStep(s: System, step: Step, id: nat)
    requires id in Next(s, step).snapshots
    ensures var now := Next(s, step).snapshots[id];
            || (id in s.snapshots && now == s.snapshots[id])
            || (step == ListKeys(id) && now == Listed(s.registry.index) && Next(s, step).registry == s.registry)
            || (step == ReadValues(id) && id in s.snapshots && s.snapshots[id].Listed?
                && Next(s, step).registry == s.registry
                && now == Counted(CountsOf(s.registry.active, s.snapshots[id].keys),
                                  ExpiredKeys(s.registry.active, s.snapshots[id].keys)))
  {
    hide CountsOf, ExpiredKeys, Apply;
  }

  lemma {:induction false} SnapshotTaken(steps: seq<Step>, id: nat) returns (a: nat, b: nat)
    requires id in Run(steps).snapshots
    ensures a <= b <= |steps| && TakenAt(steps, Run(steps).snapshots[id], a, b)
    decreases |steps|
  {
    var n := |steps| - 1;
    assert steps != [];
    var init, step := steps[..n], steps[n];
    var s := Run(init);
    assert steps[..|steps|] == steps && init[..n] == init;
    RunKeeps(init);
    SnapshotStep(s, step, id);
    hide Next, CountsOf, ExpiredKeys, SentInvariant, SnapshotInvariant;
    if id in s.snapshots && Run(steps).snapshots[id] == s.snapshots[id] {
      a, b := SnapshotTaken(init, id);
      TakenBefore(steps, s.snapshots[id], a, b);
    } else if step == ListKeys(id) {
      a, b := n, n;
    } else {
      a, b := SnapshotTaken(init, id);
      TakenBefore(steps, s.snapshots[id], a, b);
      b := n;
    }
  }

  /** A key active at two moments is active at every moment in between. */
  lemma ActiveBetween(steps: seq<Step>, key: Key, a: nat, c: nat, b: nat)
    requires a <= c <= b <= |steps| && key in ActiveAt(steps, a) && key in ActiveAt(steps, b)
    ensures key in ActiveAt(steps, c)
  {
    IndexIsExact(steps[..a], key);
    IndexIsExact(steps[..b], key);
    IndexIsExact(steps[..c], key);
    DeliveredSince(steps, a, c);
    DeliveredSince(steps, c, b);
    hide Run;
    assert forall m :: m in Run(steps[..a]).delivered ==> m in Run(steps[..c]).delivered;
    assert forall m :: m in Run(steps[..c]).delivered ==> m in Run(steps[..b]).delivered;
  }

  ghost predicate ActiveThroughout(steps: seq<Step>, key: Key, a: nat, b: nat)
    requires a <= b <= |steps|
  {
    forall c: nat :: a <= c <= b ==> key in ActiveAt(steps, c)
  }

  lemma CountsOfActive(active: map<Key, Stored>, keys: set<Key>)
    ensures CountsOf(active, keys) == CountsOf(active, keys * active.Keys)
  {
    var both := keys * active.Keys;
    assert InState(active, keys, Accepted) == InState(active, both, Accepted);
    assert InState(active, keys, Generating) == InState(active, both, Generating);
    assert InState(active, keys, Outputting) == InState(active, both, Outputting);
    hide InState;
  }

  /** Readable entries are all in flight. */
  lemma AllInFlight(active: map<Key, Stored>, keys: set<Key>)
    requires keys <= active.Keys && forall key :: key in keys ==> !active[key].state.Unknown?
    ensures CountsOf(active, keys).inFlight == |keys|
  {
    var a, g := InState(active, keys, Accepted), InState(active, keys, Generating);
    var o := InState(active, keys, Outputting);
    assert a !! g && (a + g) !! o;
    assert keys == a + g + o;
    hide InState;
  }

  /**
   * What a snapshot counts, whatever happens between its commands: exactly the requests that are active
   * all the way from listing to reading, each once and in its state when read. So it never counts a
   * request removed by then.
   */
  lemma SnapshotCountsActive(steps: seq<Step>, id: nat) returns (a: nat, b: nat, counted: set<Key>)
    requires id in Run(steps).snapshots && Run(steps).snapshots[id].Counted?
    ensures a <= b <= |steps|
    ensures forall key :: key in counted <==> ActiveThroughout(steps, key, a, b)
    ensures var counts := Run(steps).snapshots[id].counts;
            counts == CountsOf(ActiveAt(steps, b), counted) && counts.inFlight == |counted|
    ensures forall key :: key in counted ==>
              HasSet(Run(steps[..b]).delivered, key) && !HasRemove(Run(steps[..b]).delivered, key)
  {
    a, b := SnapshotTaken(steps, id);
    var listed, active := ActiveAt(steps, a).Keys, ActiveAt(steps, b);
    counted := listed * active.Keys;
    forall key
      ensures key in counted <==> ActiveThroughout(steps, key, a, b)
      ensures key in active ==> !active[key].state.Unknown?
      ensures key in active ==>
                HasSet(Run(steps[..b]).delivered, key) && !HasRemove(Run(steps[..b]).delivered, key)
    {
      RunKeeps(steps[..b]);
      DeliveredSettles(Run(steps[..b]), key);
      hide Run, HasSet, HasRemove;
      if key in counted {
        forall c: nat | a <= c <= b
          ensures key in ActiveAt(steps, c)
        {
          ActiveBetween(steps, key, a, c, b);
        }
      }
    }
    CountsOfActive(active, listed);
    AllInFlight(active, counted);
    hide Run, CountsOf, HasSet, HasRemove;
  }

  predicate AllDelivered(s: System) {
    forall m :: m in s.sent ==> m in s.delivered
  }

  /** Once everything sent has arrived, the registry holds exactly the live requests, each with its last mark. */
  lemma QuiescentRegistry(steps: seq<Step>)
    requires AllDelivered(Run(steps))
    ensures var s := Run(steps);
            && s.registry.active.Keys == s.local.Keys
            && (forall key :: key in s.local ==>
                  key in s.marks && s.registry.active[key] == Stored(s.local[key].sequence, LastMark(s.marks[key])))
  {
    RunKeeps(steps);
    var s := Run(steps);
    forall key
      ensures key in s.registry.active <==> key in s.local
      ensures key in s.local ==>
                key in s.marks && s.registry.active[key] == Stored(s.local[key].sequence, LastMark(s.marks[key]))
    {
      DeliveredSettles(s, key);
      QuiescentKey(s, key);
    }
    hide Invariant, Run;
  }

  lemma QuiescentKey(s: System, key: Key)
    requires Invariant(s) && AllDelivered(s)
    requires key in s.registry.active <==> HasSet(s.delivered, key) && !HasRemove(s.delivered, key)
    requires key in s.registry.active ==> Greatest(s.delivered, key, s.registry.active[key])
    ensures key in s.registry.active <==> key in s.local
    ensures key in s.local ==>
              key in s.marks && s.registry.active[key] == Stored(s.local[key].sequence, LastMark(s.marks[key]))
  {
    assert KeySent(s, key);
    assert HasSet(s.delivered, key) <==> HasSet(s.sent, key);
    assert HasRemove(s.delivered, key) <==> HasRemove(s.sent, key);
    if key in s.local {
      var stored := s.registry.active[key];
      assert Set(key, stored.sequence, stored.state) in s.sent;
      assert Set(key, s.local[key].sequence, LastMark(s.marks[key])) in s.delivered;
    }
    hide HasSet, HasRemove;
  }

  /** The marks of a request came in an order in which the last one is also its classification. */
  predicate MarkedInOrder(marks: seq<FlowState>) {
    || marks == []
    || (LastMark(marks) == Generating && Outputting !in marks)
    || (LastMark(marks) == Outputting && Generating in marks)
  }

  /** The instance and the registry classify a request alike exactly when it was marked in order. */
  lemma ClassificationAgreesIff(steps: seq<Step>, key: Key)
    requires key in Run(steps).local
    ensures var s := Run(steps);
            && key in s.marks
            && (s.local[key].Classify() == LastMark(s.marks[key]) <==> MarkedInOrder(s.marks[key]))
  {
    RunKeeps(steps);
    assert KeySent(Run(steps), key);
    hide Run, HasSet, HasRemove, Greatest, OneLife;
    var marks := Run(steps).marks[key];
    assert marks != [] ==> LastMark(marks) in marks;
  }

  // ---- Counting over instances ----

  function OfInstance(keys: set<Key>, instance: string): set<Key> {
    set key | key in keys && key.instance == instance
  }

  /** The tracker state of one instance. */
  function InnerOf(local: map<Key, ActiveRequest>, instance: string): map<string, ActiveRequest> {
    map key | key in local && key.instance == instance :: key.request := local[key]
  }

  /** The local snapshot of one instance. */
  function InstanceCounts(local: map<Key, ActiveRequest>, instance: string): Counts {
    Tallied(InnerOf(local, instance), InnerOf(local, instance).Keys)
  }

  function Plus(a: Counts, b: Counts): Counts {
    Counts(a.inFlight + b.inFlight, a.generating + b.generating, a.outputting + b.outputting)
  }

  function SumOfInstances(local: map<Key, ActiveRequest>, instances: seq<string>): Counts {
    if instances == [] then Counts(0, 0, 0)
    else Plus(SumOfInstances(local, instances[..|instances| - 1]), InstanceCounts(local, instances[|instances| - 1]))
  }

  ghost predicate ListsInstances(local: map<Key, ActiveRequest>, instances: seq<string>) {
    && (forall key :: key in local ==> key.instance in instances)
    && (forall i, j :: 0 <= i < j < |instances| ==> instances[i] != instances[j])
  }

  function SumOfSizes(keys: set<Key>, instances: seq<string>): nat {
    if instances == [] then 0
    else SumOfSizes(keys, instances[..|instances| - 1]) + |OfInstance(keys, instances[|instances| - 1])|
  }

  lemma {:induction false} SizesWithin(keys: set<Key>, instances: seq<string>, rest: set<Key>)
    requires forall key :: key in keys && key.instance in instances ==> key in rest
    requires rest <= keys
    ensures SumOfSizes(keys, instances) == SumOfSizes(rest, instances)
    decreases |instances|
  {
    if instances != [] {
      var n := |instances| - 1;
      SizesWithin(keys, instances[..n], rest);
      assert OfInstance(keys, instances[n]) == OfInstance(rest, instances[n]);
    }
  }

  /** The keys split over the instances. */
  lemma {:induction false} InstancesPartition(keys: set<Key>, instances: seq<string>)
    requires forall key :: key in keys ==> key.instance in instances
    requires forall i, j :: 0 <= i < j < |instances| ==> instances[i] != instances[j]
    ensures SumOfSizes(keys, instances) == |keys|
    decreases |instances|
  {
    if instances == [] {
      assert keys == {};
    } else {
      var n := |instances| - 1;
      var init, last := instances[..n], instances[n];
      var part := OfInstance(keys, last);
      var rest := keys - part;
      assert instances == init + [last];
      InstancesPartition(rest, init);
      SizesWithin(keys, init, rest);
      assert keys == rest + part;
    }
  }

  function Requests(keys: set<Key>): set<string> {
    set key | key in keys :: key.request
  }

  lemma {:induction false} RequestsOfOneInstance(keys: set<Key>, instance: string)
    requires forall key :: key in keys ==> key.instance == instance
    ensures |Requests(keys)| == |keys|
    decreases |keys|
  {
    if keys == {} {
      assert Requests(keys) == {};
    } else {
      var key :| key in keys;
      RequestsOfOneInstance(keys - {key}, instance);
      assert Requests(keys) == Requests(keys - {key}) + {key.request};
      assert key.request !in Requests(keys - {key});
    }
  }

  function ClassKeys(local: map<Key, ActiveRequest>, state: FlowState): set<Key> {
    set key | key in local && local[key].Classify() == state
  }

  lemma InstanceSizes(local: map<Key, ActiveRequest>, instance: string)
    ensures InstanceCounts(local, instance) ==
            Counts(|OfInstance(local.Keys, instance)|, |OfInstance(ClassKeys(local, Generating), instance)|,
                   |OfInstance(ClassKeys(local, Outputting), instance)|)
  {
    var inner := InnerOf(local, instance);
    assert inner.Keys == Requests(OfInstance(local.Keys, instance));
    RequestsOfOneInstance(OfInstance(local.Keys, instance), instance);
    ClassifiedSize(local, instance, Generating);
    ClassifiedSize(local, instance, Outputting);
    hide OfInstance, Requests, ClassKeys, Classified, InnerOf;
  }

  lemma ClassifiedSize(local: map<Key, ActiveRequest>, instance: string, state: FlowState)
    ensures var inner := InnerOf(local, instance);
            |Classified(inner, inner.Keys, state)| == |OfInstance(ClassKeys(local, state), instance)|
  {
    var inner := InnerOf(local, instance);
    var keys := OfInstance(ClassKeys(local, state), instance);
    RequestsOfOneInstance(keys, instance);
    forall id
      ensures id in Classified(inner, inner.Keys, state) <==> id in Requests(keys)
    {
      if id in Classified(inner, inner.Keys, state) {
        assert Key(instance, id) in keys;
      }
    }
    assert Classified(inner, inner.Keys, state) == Requests(keys);
  }

  lemma {:induction false} SumOfInstancesIs(local: map<Key, ActiveRequest>, instances: seq<string>)
    ensures SumOfInstances(local, instances) ==
            Counts(SumOfSizes(local.Keys, instances), SumOfSizes(ClassKeys(local, Generating), instances),
                   SumOfSizes(ClassKeys(local, Outputting), instances))
    decreases |instances|
  {
    hide OfInstance, ClassKeys, InstanceCounts;
    if instances != [] {
      SumOfInstancesIs(local, instances[..|instances| - 1]);
      InstanceSizes(local, instances[|instances| - 1]);
    }
  }

  // ---- The steps are the methods of the instances' trackers ----

  /** The mark a step stands for, where the step is enabled. */
  function MarkOf(s: System, step: Step): Option<(Key, Mark, nat)> {
    match step
    case Accept(key, micros, now) =>
      if key in s.used || micros >= SEQUENCE_LIMIT then None else Some((key, MarkAccepted(micros), now))
    case UpstreamStarted(key, at, now) => if CanMark(s, key) then Some((key, MarkUpstreamStarted(at), now)) else None
    case FirstByte(key, at, now) => if CanMark(s, key) then Some((key, MarkFirstByte(at), now)) else None
    case Complete(key) => if key in s.used then Some((key, MarkCompleted, 0)) else None
    case _ => None
  }

  lemma InnerOfLookup(local: map<Key, ActiveRequest>, key: Key)
    ensures key in local <==> key.request in InnerOf(local, key.instance)
    ensures key in local ==> InnerOf(local, key.instance)[key.request] == local[key]
  {
    assert key == Key(key.instance, key.request);
  }

  lemma InnerOfUpdate(local: map<Key, ActiveRequest>, key: Key, req: ActiveRequest, instance: string)
    ensures InnerOf(local[key := req], instance) ==
            if instance == key.instance then InnerOf(local, instance)[key.request := req] else InnerOf(local, instance)
  {
    SameInner(local[key := req], instance,
              if instance == key.instance then InnerOf(local, instance)[key.request := req]
              else InnerOf(local, instance));
  }

  lemma InnerOfRemove(local: map<Key, ActiveRequest>, key: Key, instance: string)
    ensures InnerOf(local - {key}, instance) ==
            if instance == key.instance then InnerOf(local, instance) - {key.request} else InnerOf(local, instance)
  {
    SameInner(local - {key}, instance,
              if instance == key.instance then InnerOf(local, instance) - {key.request} else InnerOf(local, instance));
  }

  lemma SameInner(local: map<Key, ActiveRequest>, instance: string, inner: map<string, ActiveRequest>)
    requires forall id :: id in inner <==> Key(instance, id) in local
    requires forall id :: id in inner ==> inner[id] == local[Key(instance, id)]
    ensures InnerOf(local, instance) == inner
  {
  }

  /** What a mark does to the entries of all instances. */
  function LocalAfter(local: map<Key, ActiveRequest>, key: Key, mark: Mark, now: nat): map<Key, ActiveRequest> {
    match mark
    case MarkAccepted(micros) => local[key := NewRequest(if micros < U64_LIMIT then micros else U64_MAX, now)]
    case MarkUpstreamStarted(at) => if key in local then local[key := local[key].UpstreamStarted(at, now)] else local
    case MarkFirstByte(at) => if key in local then local[key := local[key].FirstByte(at, now)] else local
    case MarkCompleted => local - {key}
  }

  lemma LocalAfterMark(s: System, step: Step)
    requires MarkOf(s, step).Some?
    ensures var (key, mark, now) := MarkOf(s, step).value;
            Next(s, step).local == LocalAfter(s.local, key, mark, now)
  {
  }

  lemma InnerAfterMark(local: map<Key, ActiveRequest>, key: Key, mark: Mark, now: nat, instance: string)
    ensures InnerOf(LocalAfter(local, key, mark, now), instance) ==
            if instance == key.instance then EntriesAfter(InnerOf(local, instance), key.request, mark, now)
            else InnerOf(local, instance)
  {
    InnerOfLookup(local, key);
    hide InnerOf;
    if mark.MarkCompleted? {
      InnerOfRemove(local, key, instance);
    } else if key in LocalAfter(local, key, mark, now) {
      InnerOfUpdate(local, key, LocalAfter(local, key, mark, now)[key], instance);
    }
  }

  lemma SentAfterMark(s: System, step: Step)
    requires MarkOf(s, step).Some?
    ensures var (key, mark, _) := MarkOf(s, step).value;
            Next(s, step).sent == s.sent + MessagesOf(InnerOf(s.local, key.instance), key, mark)
  {
    InnerOfLookup(s.local, MarkOf(s, step).value.0);
    hide InnerOf;
  }

  /**
   * A mark in a run is the tracker's own: the entries of its instance change as that tracker's method
   * changes them, the other instances keep theirs, and exactly the method's messages are sent.
   */
  lemma MarksAreTrackerMarks(s: System, step: Step, instance: string)
    requires MarkOf(s, step).Some?
    ensures var (key, mark, now) := MarkOf(s, step).value;
            && InnerOf(Next(s, step).local, instance) ==
               (if instance == key.instance then EntriesAfter(InnerOf(s.local, instance), key.request, mark, now)
                else InnerOf(s.local, instance))
            && Next(s, step).sent == s.sent + MessagesOf(InnerOf(s.local, key.instance), key, mark)
  {
    var (key, mark, now) := MarkOf(s, step).value;
    LocalAfterMark(s, step);
    InnerAfterMark(s.local, key, mark, now, instance);
    SentAfterMark(s, step);
    hide InnerOf, Next, LocalAfter, EntriesAfter, MessagesOf, MarkOf;
  }

  /** What the registry counts, when it classifies every live request as its instance does. */
  lemma RegistryCounts(local: map<Key, ActiveRequest>, active: map<Key, Stored>)
    requires active.Keys == local.Keys
    requires forall key :: key in local ==> active[key].state == local[key].Classify()
    ensures CountsOf(active, local.Keys) ==
            Counts(|local.Keys|, |ClassKeys(local, Generating)|, |ClassKeys(local, Outputting)|)
  {
    var a, g, o := ClassKeys(local, Accepted), ClassKeys(local, Generating), ClassKeys(local, Outputting);
    assert InState(active, local.Keys, Accepted) == a;
    assert InState(active, local.Keys, Generating) == g;
    assert InState(active, local.Keys, Outputting) == o;
    assert a !! g && (a + g) !! o;
    assert local.Keys == a + g + o;
    hide ClassKeys, InState;
  }

  /**
   * Once all messages are delivered and every live request was marked in order, a snapshot of the
   * registry is the sum of the local snapshots of the instances.
   */
  lemma GlobalCountsAreTheSum(steps: seq<Step>, instances: seq<string>)
    requires AllDelivered(Run(steps))
    requires ListsInstances(Run(steps).local, instances)
    requires forall key :: key in Run(steps).local && key in Run(steps).marks ==> MarkedInOrder(Run(steps).marks[key])
    ensures var s := Run(steps);
            CountsOf(s.registry.active, s.registry.index) == SumOfInstances(s.local, instances)
  {
    var s := Run(steps);
    IndexIsExact(steps, Key("", ""));
    QuiescentRegistry(steps);
    forall key | key in s.local
      ensures s.registry.active[key].state == s.local[key].Classify()
    {
      ClassificationAgreesIff(steps, key);
    }
    hide Run, MarkedInOrder, HasSet, HasRemove, Greatest;
    RegistryCounts(s.local, s.registry.active);
    InstancesPartition(s.local.Keys, instances);
    InstancesPartition(ClassKeys(s.local, Generating), instances);
    InstancesPartition(ClassKeys(s.local, Outputting), instances);
    SumOfInstancesIs(s.local, instances);
  }

  /** An early first byte is output to the registry and accepted to the local snapshot. */
  lemma EarlyFirstByteDiffers(key: Key)
    ensures var s := Run([Accept(key, 0, 0), FirstByte(key, "t", 0)]);
            && key in s.local && key in s.marks
            && LastMark(s.marks[key]) == Outputting && s.local[key].Classify() == Accepted
  {
    var steps := [Accept(key, 0, 0), FirstByte(key, "t", 0)];
    var one := [Accept(key, 0, 0)];
    assert steps[..1] == one && one[..0] == [];
    assert Run([]) == START;
    assert Run(one) == Next(START, Accept(key, 0, 0));
    assert Run(one).local[key] == NewRequest(0, 0) && Run(one).marks[key] == [];
    assert CanMark(Run(one), key);
  }
}
