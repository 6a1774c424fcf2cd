/**
 * The billing backlog over whole runs: hand-offs that time out, several drain workers, failed and
 * misreported commits, partial acknowledgements, and crashes at any point.
 */
module BacklogRuns {
  import opened Wrappers
  import opened Backlog

  /** A drain cycle under way: records still to bill, and records billed but not yet deleted. */
  datatype Worker = Worker(todo: seq<Entry>, done: seq<Entry>)

  datatype System = System(
    stream: seq<Entry>,
    nextId: nat,
    owned: set<string>,
    accepted: set<string>,
    charged: multiset<string>,
    workers: map<nat, Worker>)

  datatype Step =
    | Own(requestId: string)
    | Add(requestId: string, reported: bool)
    | LoseOwned(requestId: string)
    | AddUnparsable
    | ChargeDirectly(requestId: string)
    | BeginCycle(w: nat)
    | TryCommit(w: nat, outcome: Outcome)
    | AckNext(w: nat)
    | EndCycle(w: nat)

  const START := System([], 0, {}, {}, multiset{}, map[])

  function Append(s: System, requestId: Option<string>): System {
    s.(stream := s.stream + [Entry(s.nextId, requestId)], nextId := s.nextId + 1)
  }

  /**
   * One step; a step that is not enabled changes nothing. `Add` that is not reported leaves the record
   * with its owner, who will add it again. `EndCycle` stands for the end of a cycle, for a failed
   * deletion, and for a crash of the worker.
   */
  function Next(s: System, step: Step): System {
    match step
    case Own(rid) => s.(owned := s.owned + {rid})
    case Add(rid, reported) =>
      if rid !in s.owned then s
      else if reported then Append(s, Some(rid)).(owned := s.owned - {rid}, accepted := s.accepted + {rid})
      else Append(s, Some(rid))
    case LoseOwned(rid) => s.(owned := s.owned - {rid})
    case AddUnparsable => Append(s, None)
    case ChargeDirectly(rid) => s.(charged := Charge(s.charged, rid))
    case BeginCycle(w) =>
      if w in s.workers then s else s.(workers := s.workers[w := Worker(Read(s.stream, BATCH), [])])
    case TryCommit(w, outcome) =>
      if w !in s.workers || s.workers[w].todo == [] || s.workers[w].todo[0].requestId.None? then s
      else
        var worker := s.workers[w];
        var e := worker.todo[0];
        s.(charged := if outcome.Failed? then s.charged else Charge(s.charged, e.requestId.value),
           workers := s.workers[w := Worker(worker.todo[1..],
                                             if outcome.Committed? then worker.done + [e] else worker.done)])
    case AckNext(w) =>
      if w !in s.workers || s.workers[w].todo != [] || s.workers[w].done == [] then s
      else
        var worker := s.workers[w];
        s.(stream := Delete(s.stream, worker.done[0].id), workers := s.workers[w := Worker([], worker.done[1..])])
    case EndCycle(w) => s.(workers := s.workers - {w})
  }

  function Run(steps: seq<Step>): System {
    if steps == [] then START else Next(Run(steps[..|steps| - 1]), steps[|steps| - 1])
  }

  ghost predicate InStream(s: System, rid: string) {
    exists e :: e in s.stream && e.requestId == Some(rid)
  }

  /** An entry that a worker holds is still the one the stream has under its id, if it has one. */
  ghost predicate Current(s: System, e: Entry) {
    && e.requestId.Some?
    && e.id < s.nextId
    && forall x :: x in s.stream && x.id == e.id ==> x == e
  }

  ghost predicate IdsFresh(s: System) {
    && (forall e :: e in s.stream ==> e.id < s.nextId)
    && (forall e, x :: e in s.stream && x in s.stream && e.id == x.id ==> e == x)
  }

  ghost predicate WorkersCurrent(s: System) {
    forall w :: w in s.workers ==>
      && (forall e :: e in s.workers[w].todo ==> Current(s, e))
      && (forall e :: e in s.workers[w].done ==> Current(s, e) && e.requestId.value in s.charged)
  }

  ghost predicate Safe(s: System) {
    && IdsFresh(s)
    && WorkersCurrent(s)
    && (forall rid :: rid in s.accepted ==> rid in s.charged || InStream(s, rid))
    && (forall rid :: s.charged[rid] <= 1)
  }

  lemma {:induction false} DeleteMeans(stream: seq<Entry>, id: nat)
    ensures forall e :: e in Delete(stream, id) <==> e in stream && e.id != id
    decreases |stream|
  {
    if stream != [] {
      DeleteMeans(stream[1..], id);
      var rest := Delete(stream[1..], id);
      assert stream == [stream[0]] + stream[1..];
      assert forall e :: e in [stream[0]] + rest <==> e == stream[0] || e in rest;
    }
  }

  lemma ChargeMeans(charged: multiset<string>, rid: string)
    ensures rid in Charge(charged, rid)
    ensures forall x :: x in charged ==> x in Charge(charged, rid)
    ensures (forall x :: charged[x] <= 1) ==> forall x :: Charge(charged, rid)[x] <= 1
  {
  }

  lemma AppendKeepsSafe(s: System, requestId: Option<string>)
    requires Safe(s)
    ensures Safe(Append(s, requestId))
    ensures requestId.Some? ==> InStream(Append(s, requestId), requestId.value)
  {
    var t := Append(s, requestId);
    assert t.stream[|s.stream|] == Entry(s.nextId, requestId);
    forall rid | InStream(s, rid)
      ensures InStream(t, rid)
    {
      var e :| e in s.stream && e.requestId == Some(rid);
      assert e in t.stream;
    }
    hide InStream;
    assert WorkersCurrent(t);
  }

  lemma AckKeepsSafe(s: System, w: nat)
    requires Safe(s)
    ensures Safe(Next(s, AckNext(w)))
  {
    if w in s.workers && s.workers[w].todo == [] && s.workers[w].done != [] {
      var worker, t := s.workers[w], Next(s, AckNext(w));
      var gone := worker.done[0];
      DeleteMeans(s.stream, gone.id);
      hide Delete;
      assert gone in worker.done;
      forall rid | rid in t.accepted
        ensures rid in t.charged || InStream(t, rid)
      {
        if rid !in s.charged {
          var e :| e in s.stream && e.requestId == Some(rid);
          assert e.id == gone.id ==> e == gone;
          assert e in t.stream;
        }
      }
      assert forall e :: e in worker.done[1..] ==> e in worker.done;
    }
  }

  lemma CommitKeepsSafe(s: System, w: nat, outcome: Outcome)
    requires Safe(s)
    ensures Safe(Next(s, TryCommit(w, outcome)))
  {
    if w in s.workers && s.workers[w].todo != [] && s.workers[w].todo[0].requestId.Some? {
      var worker, t := s.workers[w], Next(s, TryCommit(w, outcome));
      var e := worker.todo[0];
      ChargeMeans(s.charged, e.requestId.value);
      hide Charge;
      assert worker.todo == [e] + worker.todo[1..];
      assert forall x :: Current(s, x) <==> Current(t, x);
      assert forall rid :: InStream(s, rid) <==> InStream(t, rid);
      hide Current, InStream;
    }
  }

  lemma BeginKeepsSafe(s: System, w: nat)
    requires Safe(s)
    ensures Safe(Next(s, BeginCycle(w)))
  {
    if w !in s.workers {
      var t := Next(s, BeginCycle(w));
      ParsableHasIds(Head(s.stream, BATCH));
      assert forall x :: Current(s, x) <==> Current(t, x);
      assert forall rid :: InStream(s, rid) <==> InStream(t, rid);
      forall e | e in t.workers[w].todo
        ensures Current(s, e)
      {
        assert e in Head(s.stream, BATCH);
        assert e in s.stream;
      }
      hide Current, InStream, Parsable;
    }
  }

  lemma StepKeepsSafe(s: System, step: Step)
    requires Safe(s)
    ensures Safe(Next(s, step))
  {
    match step {
      case Add(rid, _) => AppendKeepsSafe(s, Some(rid)); AcceptKeepsSafe(s, step);
      case AddUnparsable => AppendKeepsSafe(s, None);
      case ChargeDirectly(rid) => DirectKeepsSafe(s, rid);
      case BeginCycle(w) => BeginKeepsSafe(s, w);
      case TryCommit(w, outcome) => CommitKeepsSafe(s, w, outcome);
      case AckNext(w) => AckKeepsSafe(s, w);
      case _ => OwnersKeepSafe(s, step);
    }
  }

  lemma SameStream(s: System, t: System)
    requires s.stream == t.stream && s.nextId == t.nextId
    ensures forall x :: Current(s, x) <==> Current(t, x)
    ensures forall rid :: InStream(s, rid) <==> InStream(t, rid)
    ensures IdsFresh(s) <==> IdsFresh(t)
  {
  }

  lemma AcceptKeepsSafe(s: System, step: Step)
    requires Safe(s) && step.Add? && Safe(Append(s, Some(step.requestId)))
    requires InStream(Append(s, Some(step.requestId)), step.requestId)
    ensures Safe(Next(s, step))
  {
    if step.requestId in s.owned {
      SameStream(Append(s, Some(step.requestId)), Next(s, step));
      hide Current, InStream, IdsFresh;
    }
  }

  lemma DirectKeepsSafe(s: System, rid: string)
    requires Safe(s)
    ensures Safe(Next(s, ChargeDirectly(rid)))
  {
    ChargeMeans(s.charged, rid);
    SameStream(s, Next(s, ChargeDirectly(rid)));
    hide Current, InStream, IdsFresh, Charge;
  }

  lemma OwnersKeepSafe(s: System, step: Step)
    requires Safe(s) && (step.Own? || step.LoseOwned? || step.EndCycle?)
    ensures Safe(Next(s, step))
  {
    SameStream(s, Next(s, step));
    hide Current, InStream, IdsFresh;
  }

  /** Every reachable state is safe. */
  lemma {:induction false} RunIsSafe(steps: seq<Step>)
    ensures Safe(Run(steps))
    decreases |steps|
  {
    if steps != [] {
      RunIsSafe(steps[..|steps| - 1]);
      StepKeepsSafe(Run(steps[..|steps| - 1]), steps[|steps| - 1]);
      hide Next, Safe;
    } else {
      assert Safe(START);
    }
  }

  /**
   * No accepted request is lost, and none is charged twice: in every reachable state an accepted
   * request id has been charged exactly once, or has not been charged and still has an entry.
   */
  lemma AcceptedIsChargedOrPending(steps: seq<Step>, rid: string)
    requires rid in Run(steps).accepted
    ensures Run(steps).charged[rid] == 1 || (Run(steps).charged[rid] == 0 && InStream(Run(steps), rid))
  {
    RunIsSafe(steps);
    hide Run;
  }

  /** Once no parsable entry is left, every accepted request id has been charged exactly once. */
  lemma DrainedMeansCharged(steps: seq<Step>, rid: string)
    requires rid in Run(steps).accepted && !AnyParsable(Run(steps).stream)
    ensures Run(steps).charged[rid] == 1
  {
    AcceptedIsChargedOrPending(steps, rid);
    hide Run;
  }

  /** An entry leaves the stream only after its request id has been charged. */
  lemma DeletedOnlyAfterCharge(steps: seq<Step>, step: Step, e: Entry)
    requires e in Run(steps).stream && e !in Next(Run(steps), step).stream
    ensures step.AckNext? && e.requestId.Some? && e.requestId.value in Run(steps).charged
  {
    RunIsSafe(steps);
    var s := Run(steps);
    hide Run;
    if step.AckNext? {
      var done := s.workers[step.w].done;
      DeleteMeans(s.stream, done[0].id);
      assert done[0] in done;
      hide Delete;
    }
  }

  lemma ChargesPersist(s: System, step: Step)
    ensures s.charged <= Next(s, step).charged
  {
  }

  lemma RunExtend(steps: seq<Step>, step: Step)
    ensures Run(steps + [step]) == Next(Run(steps), step)
  {
    hide Next;
    assert (steps + [step])[..|steps|] == steps;
  }

  lemma {:induction false} LaterCharges(steps: seq<Step>, more: seq<Step>)
    ensures Run(steps).charged <= Run(steps + more).charged
    decreases |more|
  {
    hide Next;
    if more == [] {
      assert steps + more == steps;
    } else {
      var n := |more| - 1;
      LaterCharges(steps, more[..n]);
      RunExtend(steps + more[..n], more[n]);
      assert steps + more == (steps + more[..n]) + [more[n]];
      hide Run;
      ChargesPersist(Run(steps + more[..n]), more[n]);
    }
  }

  /** An id once charged has been charged exactly once for ever after, duplicates and retries included. */
  lemma ChargedOnceForEver(steps: seq<Step>, more: seq<Step>, rid: string)
    requires rid in Run(steps).charged
    ensures Run(steps + more).charged[rid] == 1
  {
    LaterCharges(steps, more);
    RunIsSafe(steps + more);
    hide Run;
  }

  // ---- A hand-off is its attempts ----

  /** The steps of a hand-off: one for each write that lands, up to the first that is reported. */
  function HandOff(s: System, rid: string, writes: seq<Write>): System
    decreases |writes|
  {
    if writes == [] then s
    else
      match writes[0]
      case NotLanded => HandOff(s, rid, writes[1..])
      case Landed(true) => Next(s, Add(rid, true))
      case Landed(false) => HandOff(Next(s, Add(rid, false)), rid, writes[1..])
  }

  /** The state after `added` has been added, and the record handed over if it is accepted. */
  function HandedOver(s: System, rid: string, added: seq<Entry>, accepted: bool): System {
    var t := s.(stream := s.stream + added, nextId := s.nextId + |added|);
    if accepted then t.(owned := s.owned - {rid}, accepted := s.accepted + {rid}) else t
  }

  lemma AddIs(s: System, rid: string, reported: bool, rest: seq<Entry>, accepted: bool)
    requires rid in s.owned
    ensures Next(s, Add(rid, reported)) == HandedOver(s, rid, [Entry(s.nextId, Some(rid))], reported)
    ensures HandedOver(Next(s, Add(rid, false)), rid, rest, accepted)
         == HandedOver(s, rid, [Entry(s.nextId, Some(rid))] + rest, accepted)
  {
    var e := Entry(s.nextId, Some(rid));
    assert (s.stream + [e]) + rest == s.stream + ([e] + rest);
  }

  lemma NothingAdded(s: System, rid: string)
    ensures HandedOver(s, rid, [], false) == s
  {
    assert s.stream + [] == s.stream;
  }

  /**
   * The steps of a hand-off of an owned record add what the method adds, and hand over the record
   * exactly when the method reports it accepted.
   */
  lemma {:induction false} HandOffIsSteps(s: System, rid: string, writes: seq<Write>)
    requires rid in s.owned
    ensures var t, added := HandOff(s, rid, writes), Added(rid, s.nextId, writes);
            t == HandedOver(s, rid, added, Accepted(writes))
    decreases |writes|
  {
    if writes == [] {
      NothingAdded(s, rid);
    } else {
      var rest := writes[1..];
      AcceptedRest(writes);
      var e := Entry(s.nextId, Some(rid));
      assert writes[0] == Landed(true) ==> Added(rid, s.nextId, writes) == [e];
      assert rid in Next(s, Add(rid, false)).owned && Next(s, Add(rid, false)).nextId == s.nextId + 1;
      hide Accepted, HandedOver, Next;
      AddIs(s, rid, true, [], true);
      match writes[0] {
        case NotLanded => HandOffIsSteps(s, rid, rest);
        case Landed(true) =>
        case Landed(false) =>
          HandOffIsSteps(Next(s, Add(rid, false)), rid, rest);
          AddIs(s, rid, false, Added(rid, s.nextId + 1, rest), Accepted(rest));
      }
    }
  }

  lemma AcceptedRest(writes: seq<Write>)
    requires writes != []
    ensures Accepted(writes) <==> writes[0] == Landed(true) || Accepted(writes[1..])
  {
    if i :| 0 <= i < |writes| && writes[i] == Landed(true) {
      assert i > 0 ==> writes[1..][i - 1] == Landed(true);
    }
    if i :| 0 <= i < |writes[1..]| && writes[1..][i] == Landed(true) {
      assert writes[i + 1] == Landed(true);
    }
  }

  // ---- One undisturbed cycle is the drain cycle ----

  /** The first `n` attempts of a worker, one per record. */
  function AfterCommits(s: System, w: nat, outcome: nat -> Outcome, n: nat): System {
    if n == 0 then s else Next(AfterCommits(s, w, outcome, n - 1), TryCommit(w, outcome(n - 1)))
  }

  function AfterAcks(s: System, w: nat, n: nat): System {
    if n == 0 then s else Next(AfterAcks(s, w, n - 1), AckNext(w))
  }

  /** The records whose commit was reported as successful. */
  function Billed(records: seq<Entry>, outcome: nat -> Outcome): seq<Entry> {
    if records == [] then []
    else
      var n := |records| - 1;
      Billed(records[..n], outcome) + if outcome(n).Committed? then [records[n]] else []
  }

  lemma {:induction false} BilledIds(records: seq<Entry>, outcome: nat -> Outcome)
    ensures |Billed(records, outcome)| == |Processed(records, outcome)|
    ensures forall i :: 0 <= i < |Billed(records, outcome)| ==>
              Billed(records, outcome)[i].id == Processed(records, outcome)[i]
    decreases |records|
  {
    if records != [] {
      BilledIds(records[..|records| - 1], outcome);
    }
  }

  lemma OneMoreBilled(records: seq<Entry>, outcome: nat -> Outcome, i: nat)
    requires i < |records|
    ensures Billed(records[..i + 1], outcome) ==
            if outcome(i).Committed? then Billed(records[..i], outcome) + [records[i]]
            else Billed(records[..i], outcome)
  {
    assert records[..i + 1][..i] == records[..i];
  }

  /** The state after a worker holding `records` has tried the first `n` of them. */
  function Tried(s: System, w: nat, outcome: nat -> Outcome, records: seq<Entry>, n: nat): System
    requires n <= |records|
  {
    s.(charged := ChargeBatch(s.charged, records[..n], outcome),
       workers := s.workers[w := Worker(records[n..], Billed(records[..n], outcome))])
  }

  lemma OneMoreTried(s: System, w: nat, outcome: nat -> Outcome, records: seq<Entry>, n: nat)
    requires n < |records| && records[n].requestId.Some?
    ensures Next(Tried(s, w, outcome, records, n), TryCommit(w, outcome(n))) == Tried(s, w, outcome, records, n + 1)
  {
    OneMoreRecord(s.charged, records, outcome, n);
    OneMoreBilled(records, outcome, n);
    hide ChargeBatch, Processed, Charge, Billed;
    var t := Tried(s, w, outcome, records, n);
    TryCommitIs(t, w, outcome(n), records[n..], Billed(records[..n], outcome));
    hide Next;
    assert records[n..][0] == records[n] && records[n..][1..] == records[n + 1..];
    var u := Tried(s, w, outcome, records, n + 1);
    assert t.workers[w := u.workers[w]] == u.workers;
  }

  lemma TryCommitIs(s: System, w: nat, outcome: Outcome, todo: seq<Entry>, done: seq<Entry>)
    requires w in s.workers && s.workers[w] == Worker(todo, done) && todo != [] && todo[0].requestId.Some?
    ensures Next(s, TryCommit(w, outcome)) ==
            s.(charged := if outcome.Failed? then s.charged else Charge(s.charged, todo[0].requestId.value),
               workers := s.workers[w := Worker(todo[1..], if outcome.Committed? then done + [todo[0]] else done)])
  {
    hide Charge;
  }

  lemma NothingTried(s: System, w: nat, outcome: nat -> Outcome, records: seq<Entry>)
    requires w in s.workers && s.workers[w] == Worker(records, [])
    ensures Tried(s, w, outcome, records, 0) == s
  {
    assert records[..0] == [] && records[0..] == records;
    assert s.workers[w := Worker(records, [])] == s.workers;
  }

  lemma {:induction false} CommitsAre(s: System, w: nat, outcome: nat -> Outcome, records: seq<Entry>, n: nat)
    requires w in s.workers && s.workers[w] == Worker(records, []) && n <= |records|
    requires forall i :: 0 <= i < |records| ==> records[i].requestId.Some?
    ensures AfterCommits(s, w, outcome, n) == Tried(s, w, outcome, records, n)
    decreases n
  {
    hide Tried, Next;
    if n > 0 {
      CommitsAre(s, w, outcome, records, n - 1);
      OneMoreTried(s, w, outcome, records, n - 1);
    } else {
      NothingTried(s, w, outcome, records);
    }
  }

  /** The state after a worker has deleted the first `n` of its billed entries. */
  function Acked(s: System, w: nat, done: seq<Entry>, ids: seq<nat>, n: nat): System
    requires n <= |done| == |ids|
  {
    s.(stream := DeleteAll(s.stream, ids[..n]), workers := s.workers[w := Worker([], done[n..])])
  }

  lemma NothingAcked(s: System, w: nat, done: seq<Entry>, ids: seq<nat>)
    requires w in s.workers && s.workers[w] == Worker([], done) && |done| == |ids|
    ensures Acked(s, w, done, ids, 0) == s
  {
    assert ids[..0] == [] && done[0..] == done;
    assert s.workers[w := Worker([], done)] == s.workers;
  }

  lemma OneMoreAck(s: System, w: nat, done: seq<Entry>, ids: seq<nat>, n: nat)
    requires n < |done| == |ids| && done[n].id == ids[n]
    ensures Next(Acked(s, w, done, ids, n), AckNext(w)) == Acked(s, w, done, ids, n + 1)
  {
    hide Delete;
    assert ids[..n + 1][..n] == ids[..n];
    assert done[n..][0] == done[n] && done[n..][1..] == done[n + 1..];
    var t, u := Acked(s, w, done, ids, n), Acked(s, w, done, ids, n + 1);
    assert t.workers[w := u.workers[w]] == u.workers;
  }

  lemma {:induction false} AcksAre(s: System, w: nat, done: seq<Entry>, ids: seq<nat>, n: nat)
    requires w in s.workers && s.workers[w] == Worker([], done) && n <= |done| == |ids|
    requires forall i :: 0 <= i < |done| ==> done[i].id == ids[i]
    ensures AfterAcks(s, w, n) == Acked(s, w, done, ids, n)
    decreases n
  {
    hide Acked, Next;
    if n > 0 {
      AcksAre(s, w, done, ids, n - 1);
      OneMoreAck(s, w, done, ids, n - 1);
    } else {
      NothingAcked(s, w, done, ids);
    }
  }

  /**
   * A worker that begins a cycle, tries every record, deletes the first `reach` of the billed entries
   * and ends does what one drain cycle does, and leaves no trace of itself.
   */
  lemma CycleIsDrainCycle(s: System, w: nat, outcome: nat -> Outcome, reach: nat)
    requires w !in s.workers
    ensures var records := Read(s.stream, BATCH);
            var processed := Processed(records, outcome);
            var acks := if reach < |processed| then reach else |processed|;
            var tried := AfterCommits(Next(s, BeginCycle(w)), w, outcome, |records|);
            Next(AfterAcks(tried, w, acks), EndCycle(w)) ==
            s.(charged := ChargeBatch(s.charged, records, outcome), stream := DeleteAll(s.stream, processed[..acks]))
  {
    var records := Read(s.stream, BATCH);
    var processed := Processed(records, outcome);
    var acks := if reach < |processed| then reach else |processed|;
    ParsableHasIds(Head(s.stream, BATCH));
    hide Parsable, Head, Processed, ChargeBatch, DeleteAll, Billed, AfterCommits, AfterAcks;
    var begun := Next(s, BeginCycle(w));
    CommitsAre(begun, w, outcome, records, |records|);
    assert records[..|records|] == records && records[|records|..] == [];
    BilledIds(records, outcome);
    AcksAre(AfterCommits(begun, w, outcome, |records|), w, Billed(records, outcome), processed, acks);
    assert s.workers[w := Worker([], Billed(records, outcome)[acks..])] - {w} == s.workers;
  }

  // ---- A blocked backlog ----

  /** The arrival of `n` entries that do not parse. */
  function UnparsableArrivals(n: nat): seq<Step> {
    if n == 0 then [] else UnparsableArrivals(n - 1) + [AddUnparsable]
  }

  function UnparsableEntries(n: nat): (entries: seq<Entry>)
    ensures |entries| == n
  {
    seq(n, i requires 0 <= i < n => Entry(i, None))
  }

  lemma {:induction false} AfterUnparsableArrivals(n: nat)
    ensures Run(UnparsableArrivals(n)) == START.(stream := UnparsableEntries(n), nextId := n)
  {
    if n > 0 {
      AfterUnparsableArrivals(n - 1);
      RunExtend(UnparsableArrivals(n - 1), AddUnparsable);
      OneMoreUnparsable(n - 1);
      hide Run, Next, UnparsableEntries;
    }
  }

  lemma OneMoreUnparsable(n: nat)
    ensures Next(START.(stream := UnparsableEntries(n), nextId := n), AddUnparsable) ==
            START.(stream := UnparsableEntries(n + 1), nextId := n + 1)
  {
    assert UnparsableEntries(n) + [Entry(n, None)] == UnparsableEntries(n + 1);
  }

  lemma {:induction false} NoneParsable(entries: seq<Entry>)
    requires forall e :: e in entries ==> e.requestId.None?
    ensures Parsable(entries) == []
    decreases |entries|
  {
    if entries != [] {
      NoneParsable(entries[..|entries| - 1]);
    }
  }

  lemma {:induction false} AllUnparsable(entries: seq<Entry>)
    requires forall e :: e in entries ==> e.requestId.None?
    ensures Unparsable(entries) == entries && Parsable(entries) == []
    decreases |entries|
  {
    if entries != [] {
      NoneParsable(entries);
      AllUnparsable(entries[1..]);
      assert entries[0] in entries && entries == [entries[0]] + entries[1..];
    }
  }

  lemma AfterHandOff(rid: string)
    ensures var s := Run(UnparsableArrivals(100) + [Own(rid)] + [Add(rid, true)]);
            && s.stream == UnparsableEntries(100) + [Entry(100, Some(rid))]
            && s.accepted == {rid} && s.charged == multiset{}
  {
    AfterUnparsableArrivals(100);
    RunExtend(UnparsableArrivals(100), Own(rid));
    RunExtend(UnparsableArrivals(100) + [Own(rid)], Add(rid, true));
    hide Run, UnparsableArrivals, UnparsableEntries;
  }

  /** A hundred unparsable entries before a record: it is accepted, and no number of cycles ever reaches it. */
  lemma HundredUnparsableBlock(rid: string)
    ensures var s := Run(UnparsableArrivals(100) + [Own(rid)] + [Add(rid, true)]);
            && rid in s.accepted && rid !in s.charged
            && forall n: nat :: Cycles(s.stream, n) == s.stream && Read(Cycles(s.stream, n), 100) == []
  {
    AfterHandOff(rid);
    BlockedStream(UnparsableEntries(100), Entry(100, Some(rid)));
    var stream := UnparsableEntries(100) + [Entry(100, Some(rid))];
    hide Run, UnparsableArrivals, UnparsableEntries, Cycle, Cycles, Read;
    forall n: nat
      ensures Cycles(stream, n) == stream
    {
      CyclesFixed(stream, n);
    }
  }

  lemma BlockedStream(head: seq<Entry>, e: Entry)
    requires |head| == BATCH && forall x :: x in head ==> x.requestId.None?
    ensures Cycle(head + [e]) == head + [e] && Read(head + [e], BATCH) == []
  {
    AllUnparsable(head);
    hide Unparsable, Parsable;
    assert (head + [e])[..BATCH] == head && (head + [e])[BATCH..] == [e];
  }
}
