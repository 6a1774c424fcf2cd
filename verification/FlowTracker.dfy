/** The per-instance tracker: local lifecycle state, and the messages each mark sends on its way. */
module FlowTracker {
  import opened Wrappers
  import opened BoundedInts
  import opened FlowRegistry

  /** A message to the registry, delivered by a task of its own. */
  datatype Message =
    | Set(key: Key, sequence: nat, state: FlowState)
    | Remove(key: Key, sequence: nat)

  function Apply(r: Registry, m: Message): Registry {
    match m
    case Set(key, sequence, state) => SetResult(r, key, state, sequence)
    case Remove(key, sequence) => RemoveResult(r, key, sequence)
  }

  /** The lifecycle of one request; instants are nanoseconds of a monotonic clock. */
  datatype ActiveRequest = ActiveRequest(
    upstreamStartedAt: Option<string>, firstByteAt: Option<string>, lastSeen: nat, sequence: u64)
  {
    function UpstreamStarted(at: string, now: nat): ActiveRequest {
      ActiveRequest(Some(at), firstByteAt, now, SaturatingAdd(sequence, 1))
    }

    function FirstByte(at: string, now: nat): ActiveRequest {
      ActiveRequest(upstreamStartedAt, Some(at), now, SaturatingAdd(sequence, 1))
    }

    /** How the local snapshot classifies the request. */
    function Classify(): FlowState {
      if upstreamStartedAt.None? then Accepted
      else if firstByteAt.Some? then Outputting
      else Generating
    }

    predicate Fresh(now: nat) {
      now < lastSeen || now - lastSeen < STALE_AFTER
    }
  }

  const STALE_AFTER: nat := 3600 * 1_000_000_000

  function NewRequest(sequence: u64, now: nat): ActiveRequest {
    ActiveRequest(None, None, now, sequence)
  }

  /** What a caller reports about a request; `micros` is the wall clock in microseconds. */
  datatype Mark = MarkAccepted(micros: nat) | MarkUpstreamStarted(at: string)
    | MarkFirstByte(at: string) | MarkCompleted

  /** The entries of a tracker after a mark. Marks other than acceptance on an unknown request change nothing. */
  function EntriesAfter(inner: map<string, ActiveRequest>, id: string,
                        mark: Mark, now: nat): map<string, ActiveRequest> {
    match mark
    case MarkAccepted(micros) => inner[id := NewRequest(if micros < U64_LIMIT then micros else U64_MAX, now)]
    case MarkUpstreamStarted(at) => if id in inner then inner[id := inner[id].UpstreamStarted(at, now)] else inner
    case MarkFirstByte(at) => if id in inner then inner[id := inner[id].FirstByte(at, now)] else inner
    case MarkCompleted => inner - {id}
  }

  /** The messages a mark sends; completing an unknown request removes it with the largest sequence. */
  function MessagesOf(inner: map<string, ActiveRequest>, key: Key, mark: Mark): seq<Message> {
    var id := key.request;
    match mark
    case MarkAccepted(micros) => [Set(key, if micros < U64_LIMIT then micros else U64_MAX, Accepted)]
    case MarkUpstreamStarted(_) =>
      if id in inner then [Set(key, SaturatingAdd(inner[id].sequence, 1), Generating)] else []
    case MarkFirstByte(_) => if id in inner then [Set(key, SaturatingAdd(inner[id].sequence, 1), Outputting)] else []
    case MarkCompleted => [Remove(key, if id in inner then SaturatingAdd(inner[id].sequence, 1) else U64_MAX)]
  }

  function Retained(inner: map<string, ActiveRequest>, now: nat): map<string, ActiveRequest> {
    map id | id in inner && inner[id].Fresh(now) :: inner[id]
  }

  function Classified(inner: map<string, ActiveRequest>, ids: set<string>, state: FlowState): set<string>
    requires ids <= inner.Keys
  {
    set id | id in ids && inner[id].Classify() == state
  }

  lemma NoneClassified(inner: map<string, ActiveRequest>)
    ensures Tallied(inner, {}) == Counts(0, 0, 0)
  {
  }

  lemma OneMoreRequest(inner: map<string, ActiveRequest>, ids: set<string>, id: string, state: FlowState)
    requires ids <= inner.Keys && id in inner && id !in ids
    ensures |Classified(inner, ids + {id}, state)| ==
            |Classified(inner, ids, state)| + if inner[id].Classify() == state then 1 else 0
  {
    if inner[id].Classify() == state {
      assert Classified(inner, ids + {id}, state) == Classified(inner, ids, state) + {id};
    } else {
      assert Classified(inner, ids + {id}, state) == Classified(inner, ids, state);
    }
  }

  class Tracker {
    const instance: string
    var inner: map<string, ActiveRequest>
    /** The messages handed to delivery tasks. */
    var sent: seq<Message>

    constructor (instance: string)
      ensures this.instance == instance && inner == map[] && sent == []
    {
      this.instance := instance;
      inner := map[];
      sent := [];
    }

    method MarkAccepted(id: string, micros: nat, now: nat)
      modifies this
      ensures inner == EntriesAfter(old(inner), id, Mark.MarkAccepted(micros), now)
      ensures sent == old(sent) + MessagesOf(old(inner), Key(instance, id), Mark.MarkAccepted(micros))
    {
      var sequence: u64 := if micros < U64_LIMIT then micros else U64_MAX;
      inner := inner[id := ActiveRequest(None, None, now, sequence)];
      sent := sent + [Set(Key(instance, id), sequence, Accepted)];
    }

    method MarkUpstreamStarted(id: string, at: string, now: nat)
      modifies this
      ensures inner == EntriesAfter(old(inner), id, Mark.MarkUpstreamStarted(at), now)
      ensures sent == old(sent) + MessagesOf(old(inner), Key(instance, id), Mark.MarkUpstreamStarted(at))
    {
      if id in inner {
        var req := inner[id];
        req := req.(upstreamStartedAt := Some(at), lastSeen := now, sequence := SaturatingAdd(req.sequence, 1));
        inner := inner[id := req];
        sent := sent + [Set(Key(instance, id), req.sequence, Generating)];
      }
    }

    method MarkFirstByte(id: string, at: string, now: nat)
      modifies this
      ensures inner == EntriesAfter(old(inner), id, Mark.MarkFirstByte(at), now)
      ensures sent == old(sent) + MessagesOf(old(inner), Key(instance, id), Mark.MarkFirstByte(at))
    {
      if id in inner {
        var req := inner[id];
        req := req.(firstByteAt := Some(at), lastSeen := now, sequence := SaturatingAdd(req.sequence, 1));
        inner := inner[id := req];
        sent := sent + [Set(Key(instance, id), req.sequence, Outputting)];
      }
    }

    method MarkCompleted(id: string)
      modifies this
      ensures inner == EntriesAfter(old(inner), id, Mark.MarkCompleted, 0)
      ensures sent == old(sent) + MessagesOf(old(inner), Key(instance, id), Mark.MarkCompleted)
    {
      var sequence := if id in inner then SaturatingAdd(inner[id].sequence, 1) else U64_MAX;
      inner := inner - {id};
      sent := sent + [Remove(Key(instance, id), sequence)];
    }

    /** Drops stale requests and classifies the others. */
    method SnapshotLocal(now: nat) returns (counts: Counts)
      modifies this`inner
      ensures forall id :: id in inner <==> id in old(inner) && now < old(inner)[id].lastSeen + 3_600_000_000_000
      ensures forall id :: id in inner ==> inner[id] == old(inner)[id]
      ensures counts == Counts(|inner|,
                              |Classified(inner, inner.Keys, Generating)|, |Classified(inner, inner.Keys, Outputting)|)
    {
      inner := Retained(inner, now);
      counts := ClassifyAll(inner);
    }
  }

  function Tallied(kept: map<string, ActiveRequest>, ids: set<string>): Counts
    requires ids <= kept.Keys
  {
    Counts(|ids|, |Classified(kept, ids, Generating)|, |Classified(kept, ids, Outputting)|)
  }

  function CountRequest(c: Counts, req: ActiveRequest): Counts {
    if req.upstreamStartedAt.None? then c.(inFlight := c.inFlight + 1)
    else if req.firstByteAt.Some? then c.(inFlight := c.inFlight + 1, outputting := c.outputting + 1)
    else c.(inFlight := c.inFlight + 1, generating := c.generating + 1)
  }

  lemma TallyOneMore(kept: map<string, ActiveRequest>, ids: set<string>, id: string)
    requires ids <= kept.Keys && id in kept && id !in ids
    ensures Tallied(kept, ids + {id}) == CountRequest(Tallied(kept, ids), kept[id])
  {
    OneMoreRequest(kept, ids, id, Generating);
    OneMoreRequest(kept, ids, id, Outputting);
    assert |ids + {id}| == |ids| + 1;
    hide Classified;
  }

  method ClassifyAll(kept: map<string, ActiveRequest>) returns (counts: Counts)
    ensures counts == Tallied(kept, kept.Keys)
  {
    NoneClassified(kept);
    counts := Counts(0, 0, 0);
    var rest := kept.Keys;
    ghost var seen: set<string> := {};
    hide Tallied;
    while rest != {}
      invariant rest !! seen && rest + seen == kept.Keys
      invariant counts == Tallied(kept, seen)
      decreases |rest|
    {
      var id :| id in rest;
      TallyOneMore(kept, seen, id);
      counts := CountRequest(counts, kept[id]);
      rest := rest - {id};
      seen := seen + {id};
    }
    assert seen == kept.Keys;
  }
}
