/** The billing backlog: an append-only stream, drained in batches into an idempotent writer. */
module Backlog {
  import opened Wrappers

  const BATCH: nat := 100

  /** A stream entry; `requestId` is absent when its payload does not parse as a usage record. */
  datatype Entry = Entry(id: nat, requestId: Option<string>)

  /** Outcome of one attempt to bill a record. A commit may succeed although an error is reported. */
  datatype Outcome = Committed | CommittedButReportedFailed | Failed

  function Parsable(entries: seq<Entry>): seq<Entry> {
    if entries == [] then []
    else
      var last := entries[|entries| - 1];
      Parsable(entries[..|entries| - 1]) + if last.requestId.Some? then [last] else []
  }

  function Head(stream: seq<Entry>, count: nat): seq<Entry> {
    if |stream| <= count then stream else stream[..count]
  }

  /** Reading from the beginning: the parsable ones among the first `count` entries. */
  function Read(stream: seq<Entry>, count: nat): seq<Entry> {
    Parsable(Head(stream, count))
  }

  /** The writer charges a request id at most once. */
  function Charge(charged: multiset<string>, requestId: string): multiset<string> {
    if requestId in charged then charged else charged + multiset{requestId}
  }

  function Delete(stream: seq<Entry>, id: nat): seq<Entry> {
    if stream == [] then []
    else if stream[0].id == id then Delete(stream[1..], id)
    else [stream[0]] + Delete(stream[1..], id)
  }

  function DeleteAll(stream: seq<Entry>, ids: seq<nat>): seq<Entry> {
    if ids == [] then stream else Delete(DeleteAll(stream, ids[..|ids| - 1]), ids[|ids| - 1])
  }

  /** What a batch charges, record by record. */
  function ChargeBatch(charged: multiset<string>, records: seq<Entry>, outcome: nat -> Outcome): multiset<string>
  {
    if records == [] then charged
    else
      var n := |records| - 1;
      var before := ChargeBatch(charged, records[..n], outcome);
      if outcome(n).Failed? || records[n].requestId.None? then before else Charge(before, records[n].requestId.value)
  }

  /** The ids of the records whose commit was reported as successful. */
  function Processed(records: seq<Entry>, outcome: nat -> Outcome): seq<nat> {
    if records == [] then []
    else
      var n := |records| - 1;
      Processed(records[..n], outcome) + if outcome(n).Committed? then [records[n].id] else []
  }

  lemma {:induction false} ParsableHasIds(entries: seq<Entry>)
    ensures forall i :: 0 <= i < |Parsable(entries)| ==> Parsable(entries)[i].requestId.Some?
    ensures forall e :: e in Parsable(entries) <==> e in entries && e.requestId.Some?
    decreases |entries|
  {
    if entries != [] {
      ParsableHasIds(entries[..|entries| - 1]);
      var n := |entries| - 1;
      assert entries == entries[..n] + [entries[n]];
    }
  }

  /** Outcome of one XADD: it fails, or it lands; a landed one may be reported as failed or time out. */
  datatype Write = NotLanded | Landed(reported: bool)

  predicate Accepted(writes: seq<Write>) {
    exists i :: 0 <= i < |writes| && writes[i] == Landed(true)
  }

  /** The entries that a hand-off adds, duplicates included: it stops at the first accepted write. */
  function Added(requestId: string, next: nat, writes: seq<Write>): seq<Entry>
    decreases |writes|
  {
    if writes == [] then []
    else
      match writes[0]
      case NotLanded => Added(requestId, next, writes[1..])
      case Landed(reported) =>
        [Entry(next, Some(requestId))] + if reported then [] else Added(requestId, next + 1, writes[1..])
  }

  /**
   * At least once: everything a hand-off adds is the record under consecutive new ids, and an accepted
   * one has added it.
   */
  lemma {:induction false} HandOffIsAtLeastOnce(requestId: string, next: nat, writes: seq<Write>)
    ensures var added := Added(requestId, next, writes);
            && |added| <= |writes|
            && (forall i :: 0 <= i < |added| ==> added[i] == Entry(next + i, Some(requestId)))
            && (Accepted(writes) ==> added != [])
    decreases |writes|
  {
    if writes != [] {
      var rest := writes[1..];
      HandOffIsAtLeastOnce(requestId, if writes[0].Landed? then next + 1 else next, rest);
      if Accepted(writes) && writes[0] != Landed(true) {
        var i :| 0 <= i < |writes| && writes[i] == Landed(true);
        assert rest[i - 1] == Landed(true);
      }
      hide Accepted;
    }
  }

  lemma OneMoreRecord(charged: multiset<string>, records: seq<Entry>, outcome: nat -> Outcome, i: nat)
    requires i < |records|
    ensures Processed(records[..i + 1], outcome) ==
            Processed(records[..i], outcome) + if outcome(i).Committed? then [records[i].id] else []
    ensures ChargeBatch(charged, records[..i + 1], outcome) ==
            var before := ChargeBatch(charged, records[..i], outcome);
            if outcome(i).Failed? || records[i].requestId.None? then before
            else Charge(before, records[i].requestId.value)
  {
    assert records[..i + 1][..i] == records[..i];
  }

  lemma NothingBatched(charged: multiset<string>, outcome: nat -> Outcome)
    ensures Processed([], outcome) == [] && ChargeBatch(charged, [], outcome) == charged
  {
  }

  lemma DeleteNothing(stream: seq<Entry>)
    ensures DeleteAll(stream, []) == stream
  {
  }

  class BillingBacklog {
    var stream: seq<Entry>
    var nextId: nat
    /** What the writer has charged. */
    var charged: multiset<string>

    constructor ()
      ensures stream == [] && charged == multiset{}
    {
      stream := [];
      nextId := 0;
      charged := multiset{};
    }

    /** One attempt to add a record, and what its caller is told. */
    method BacklogBillingRecord(requestId: string, write: Write) returns (ok: bool)
      modifies this
      ensures ok <==> write.Landed? && write.reported
      ensures stream == old(stream) + if write.Landed? then [Entry(old(nextId), Some(requestId))] else []
      ensures nextId == old(nextId) + (if write.Landed? then 1 else 0) && charged == old(charged)
    {
      if write.Landed? {
        stream := stream + [Entry(nextId, Some(requestId))];
        nextId := nextId + 1;
      }
      ok := write.Landed? && write.reported;
    }

    /** The hand-off: attempts until one is reported as accepted, or until the process dies with its attempts. */
    method BacklogBillingRecordReliably(requestId: string, writes: seq<Write>) returns (accepted: bool)
      modifies this
      ensures accepted <==> Accepted(writes)
      ensures stream == old(stream) + Added(requestId, old(nextId), writes)
      ensures nextId == old(nextId) + |Added(requestId, old(nextId), writes)| && charged == old(charged)
    {
      ghost var added: seq<Entry> := [];
      assert stream == old(stream) + added;
      for i := 0 to |writes|
        invariant stream == old(stream) + added && nextId == old(nextId) + |added| && charged == old(charged)
        invariant Added(requestId, old(nextId), writes) == added + Added(requestId, nextId, writes[i..])
        invariant Accepted(writes) <==> Accepted(writes[i..])
      {
        ghost var next := nextId;
        var ok := BacklogBillingRecord(requestId, writes[i]);
        if writes[i].Landed? {
          added := added + [Entry(next, Some(requestId))];
        }
        assert writes[i..][0] == writes[i] && writes[i..][1..] == writes[i + 1..];
        if ok {
          return true;
        }
      }
      return false;
    }

    method ReadBillingBacklog(count: nat) returns (records: seq<Entry>)
      ensures records == Read(stream, count)
    {
      var head := if |stream| <= count then stream else stream[..count];
      records := [];
      for i := 0 to |head|
        invariant records == Parsable(head[..i])
      {
        assert head[..i + 1][..i] == head[..i];
        if head[i].requestId.Some? {
          records := records + [head[i]];
        }
      }
      assert head[..|head|] == head;
    }

    /** Deletes entries one by one; the `reach`-th deletion fails, and with it the rest. */
    method AckBillingBacklog(ids: seq<nat>, reach: nat)
      modifies this`stream
      ensures stream == DeleteAll(old(stream), if reach < |ids| then ids[..reach] else ids)
    {
      ghost var was := stream;
      for i := 0 to |ids|
        invariant i <= reach
        invariant stream == DeleteAll(was, ids[..i])
      {
        if i == reach {
          return;
        }
        assert ids[..i + 1][..i] == ids[..i];
        stream := Delete(stream, ids[i]);
      }
      assert ids[..|ids|] == ids;
    }

    /** One drain cycle under given commit outcomes and a given number of deletions that succeed. */
    method DrainCycle(outcome: nat -> Outcome, reach: nat)
      modifies this
      ensures var records := Read(old(stream), BATCH);
              var processed := Processed(records, outcome);
              && charged == ChargeBatch(old(charged), records, outcome)
              && stream == DeleteAll(old(stream), if reach < |processed| then processed[..reach] else processed)
      ensures nextId == old(nextId)
    {
      var records := ReadBillingBacklog(BATCH);
      ParsableHasIds(Head(stream, BATCH));
      NothingBatched(charged, outcome);
      hide Parsable, Head, Processed, ChargeBatch, Charge, DeleteAll;
      var processed: seq<nat> := [];
      ghost var before := charged;
      for i := 0 to |records|
        invariant processed == Processed(records[..i], outcome)
        invariant charged == ChargeBatch(before, records[..i], outcome)
        invariant stream == old(stream) && nextId == old(nextId)
      {
        OneMoreRecord(before, records, outcome, i);
        match outcome(i) {
          case Committed =>
            charged := Charge(charged, records[i].requestId.value);
            processed := processed + [records[i].id];
          case CommittedButReportedFailed =>
            charged := Charge(charged, records[i].requestId.value);
          case Failed =>
        }
      }
      assert records[..|records|] == records;
      DeleteNothing(stream);
      if |processed| > 0 {
        AckBillingBacklog(processed, reach);
      }
    }
  }

  // ---- Fault-free cycles ----

  function Unparsable(entries: seq<Entry>): seq<Entry> {
    if entries == [] then []
    else if entries[0].requestId.None? then [entries[0]] + Unparsable(entries[1..])
    else Unparsable(entries[1..])
  }

  /** What a cycle without faults leaves: the first batch loses its parsable entries. */
  function Cycle(stream: seq<Entry>): seq<Entry> {
    Unparsable(Head(stream, BATCH)) + if |stream| <= BATCH then [] else stream[BATCH..]
  }

  function Cycles(stream: seq<Entry>, n: nat): seq<Entry>
    decreases n
  {
    if n == 0 then stream else Cycles(Cycle(stream), n - 1)
  }

  ghost predicate DistinctIds(stream: seq<Entry>) {
    forall i, j :: 0 <= i < j < |stream| ==> stream[i].id != stream[j].id
  }

  function Without(stream: seq<Entry>, ids: seq<nat>): seq<Entry> {
    if stream == [] then []
    else (if stream[0].id in ids then [] else [stream[0]]) + Without(stream[1..], ids)
  }

  lemma {:induction false} DeleteFromRest(stream: seq<Entry>, ids: seq<nat>, id: nat)
    ensures Delete(Without(stream, ids), id) == Without(stream, ids + [id])
    decreases |stream|
  {
    if stream != [] {
      DeleteFromRest(stream[1..], ids, id);
      assert stream[0].id in ids + [id] <==> stream[0].id in ids || stream[0].id == id;
      var rest := Without(stream[1..], ids);
      assert ([stream[0]] + rest)[1..] == rest;
      assert [] + rest == rest;
    }
  }

  lemma {:induction false} WithoutNothing(stream: seq<Entry>)
    ensures Without(stream, []) == stream
    decreases |stream|
  {
    if stream != [] {
      WithoutNothing(stream[1..]);
    }
  }

  /** Deleting ids one after the other leaves exactly the entries with other ids. */
  lemma {:induction false} DeleteAllIs(stream: seq<Entry>, ids: seq<nat>)
    ensures DeleteAll(stream, ids) == Without(stream, ids)
    decreases |ids|
  {
    if ids == [] {
      WithoutNothing(stream);
    } else {
      var n := |ids| - 1;
      DeleteAllIs(stream, ids[..n]);
      DeleteFromRest(stream, ids[..n], ids[n]);
      assert ids == ids[..n] + [ids[n]];
    }
  }

  lemma {:induction false} WithoutConcat(a: seq<Entry>, b: seq<Entry>, ids: seq<nat>)
    ensures Without(a + b, ids) == Without(a, ids) + Without(b, ids)
    decreases |a|
  {
    if a == [] {
      assert a + b == b;
    } else {
      assert (a + b)[1..] == a[1..] + b;
      WithoutConcat(a[1..], b, ids);
    }
  }

  lemma {:induction false} WithoutForeign(stream: seq<Entry>, ids: seq<nat>)
    requires forall e :: e in stream ==> e.id !in ids
    ensures Without(stream, ids) == stream
    decreases |stream|
  {
    if stream != [] {
      assert stream == [stream[0]] + stream[1..];
      WithoutForeign(stream[1..], ids);
    }
  }

  lemma {:induction false} WithoutParsable(stream: seq<Entry>, ids: seq<nat>)
    requires forall e :: e in stream ==> (e.id in ids <==> e.requestId.Some?)
    ensures Without(stream, ids) == Unparsable(stream)
    decreases |stream|
  {
    if stream != [] {
      assert stream == [stream[0]] + stream[1..];
      assert stream[0] in stream;
      WithoutParsable(stream[1..], ids);
    }
  }

  lemma {:induction false} ProcessedAll(records: seq<Entry>, outcome: nat -> Outcome)
    requires forall i :: outcome(i) == Committed
    ensures forall id :: id in Processed(records, outcome) <==> exists e :: e in records && e.id == id
    decreases |records|
  {
    if records != [] {
      var n := |records| - 1;
      ProcessedAll(records[..n], outcome);
      assert records == records[..n] + [records[n]];
      hide Processed;
      ProcessedStep(records, outcome);
      forall id
        ensures id in Processed(records, outcome) <==> exists e :: e in records && e.id == id
      {
        if e :| e in records && e.id == id {
          assert e in records[..n] || e == records[n];
        }
      }
    }
  }

  lemma ProcessedStep(records: seq<Entry>, outcome: nat -> Outcome)
    requires records != [] && outcome(|records| - 1) == Committed
    ensures Processed(records, outcome) == Processed(records[..|records| - 1], outcome) + [records[|records| - 1].id]
  {
  }

  lemma SplitHead(stream: seq<Entry>)
    ensures stream == Head(stream, BATCH) + if |stream| <= BATCH then [] else stream[BATCH..]
  {
  }

  lemma DistinctAcross(a: seq<Entry>, b: seq<Entry>, x: Entry, y: Entry)
    requires DistinctIds(a + b) && x in a && y in b
    ensures x.id != y.id
  {
    var i :| 0 <= i < |a| && a[i] == x;
    var j :| 0 <= j < |b| && b[j] == y;
    assert (a + b)[i] == x && (a + b)[|a| + j] == y;
  }

  lemma DistinctWithin(a: seq<Entry>, b: seq<Entry>, x: Entry, y: Entry)
    requires DistinctIds(a + b) && x in a && y in a && x.id == y.id
    ensures x == y
  {
    var i :| 0 <= i < |a| && a[i] == x;
    var j :| 0 <= j < |a| && a[j] == y;
    assert (a + b)[i] == x && (a + b)[j] == y;
  }

  /** A drain cycle in which nothing fails deletes exactly the parsable entries of its batch. */
  lemma FaultFreeDrain(stream: seq<Entry>, outcome: nat -> Outcome)
    requires DistinctIds(stream) && forall i :: outcome(i) == Committed
    ensures DeleteAll(stream, Processed(Read(stream, BATCH), outcome)) == Cycle(stream)
  {
    var head := Head(stream, BATCH);
    var tail := if |stream| <= BATCH then [] else stream[BATCH..];
    var ids := Processed(Read(stream, BATCH), outcome);
    SplitHead(stream);
    ParsableHasIds(head);
    ProcessedAll(Parsable(head), outcome);
    DeleteAllIs(stream, ids);
    hide DistinctIds, Processed, Parsable, DeleteAll, Without, Unparsable, Head;
    forall e | e in tail
      ensures e.id !in ids
    {
      forall x | x in Parsable(head)
        ensures x.id != e.id
      {
        DistinctAcross(head, tail, x, e);
      }
    }
    forall e | e in head
      ensures e.id in ids <==> e.requestId.Some?
    {
      if e.id in ids {
        var x :| x in Parsable(head) && x.id == e.id;
        DistinctWithin(head, tail, x, e);
      }
    }
    WithoutConcat(head, tail, ids);
    WithoutForeign(tail, ids);
    WithoutParsable(head, ids);
  }

  // ---- Progress ----

  /** The entries that fault-free cycles never remove, with `u` unparsable entries ahead. */
  function Stuck(stream: seq<Entry>, u: nat): seq<Entry> {
    if stream == [] then []
    else if stream[0].requestId.None? then [stream[0]] + Stuck(stream[1..], u + 1)
    else (if u >= BATCH then [stream[0]] else []) + Stuck(stream[1..], u)
  }

  lemma {:induction false} StuckConcat(a: seq<Entry>, b: seq<Entry>, u: nat)
    ensures Stuck(a + b, u) == Stuck(a, u) + Stuck(b, u + |Unparsable(a)|)
    decreases |a|
  {
    if a == [] {
      assert a + b == b;
    } else {
      assert (a + b)[1..] == a[1..] + b;
      StuckConcat(a[1..], b, if a[0].requestId.None? then u + 1 else u);
    }
  }

  lemma {:induction false} StuckShort(a: seq<Entry>, u: nat)
    requires u + |a| <= BATCH
    ensures Stuck(a, u) == Unparsable(a)
    decreases |a|
  {
    if a != [] {
      StuckShort(a[1..], if a[0].requestId.None? then u + 1 else u);
    }
  }

  lemma {:induction false} UnparsableFixed(a: seq<Entry>, u: nat)
    ensures Unparsable(Unparsable(a)) == Unparsable(a) && |Unparsable(a)| <= |a|
    ensures Stuck(Unparsable(a), u) == Unparsable(a)
    ensures |Unparsable(a)| == |a| ==> Unparsable(a) == a
    decreases |a|
  {
    if a != [] {
      UnparsableFixed(a[1..], u);
      if a[0].requestId.None? {
        UnparsableFixed(a[1..], u + 1);
        assert ([a[0]] + Unparsable(a[1..]))[1..] == Unparsable(a[1..]);
        assert a == [a[0]] + a[1..];
      }
    }
  }

  lemma {:induction false} StuckBehindBatch(a: seq<Entry>, u: nat)
    requires u >= BATCH
    ensures Stuck(a, u) == a
    decreases |a|
  {
    if a != [] {
      StuckBehindBatch(a[1..], if a[0].requestId.None? then u + 1 else u);
      assert a == [a[0]] + a[1..];
    }
  }

  /** A cycle does not change what is stuck, and either shortens the stream or leaves only what is stuck. */
  lemma CycleKeepsStuck(stream: seq<Entry>)
    ensures Stuck(Cycle(stream), 0) == Stuck(stream, 0)
    ensures |Cycle(stream)| < |stream| || (Cycle(stream) == stream && Stuck(stream, 0) == stream)
  {
    var head := Head(stream, BATCH);
    var tail := if |stream| <= BATCH then [] else stream[BATCH..];
    SplitHead(stream);
    StuckConcat(head, tail, 0);
    StuckConcat(Unparsable(head), tail, 0);
    StuckShort(head, 0);
    UnparsableFixed(head, 0);
    if |Unparsable(head)| == |head| {
      if |stream| > BATCH {
        StuckBehindBatch(tail, BATCH);
      }
    }
    hide Stuck, Unparsable;
  }

  lemma {:induction false} CyclesFixed(stream: seq<Entry>, n: nat)
    requires Cycle(stream) == stream
    ensures Cycles(stream, n) == stream
    decreases n
  {
    if n > 0 {
      CyclesFixed(stream, n - 1);
    }
  }

  /** After as many cycles as there are entries, exactly the stuck entries are left. */
  lemma {:induction false} CyclesReachStuck(stream: seq<Entry>, n: nat)
    requires n >= |stream|
    ensures Cycles(stream, n) == Stuck(stream, 0)
    decreases n
  {
    CycleKeepsStuck(stream);
    if Cycle(stream) == stream {
      CyclesFixed(stream, n);
      assert Stuck(stream, 0) == stream;
    } else {
      CyclesReachStuck(Cycle(stream), n - 1);
    }
    hide Cycle, Stuck;
  }

  lemma {:induction false} CyclesKeepStuck(stream: seq<Entry>, n: nat)
    ensures Stuck(Cycles(stream, n), 0) == Stuck(stream, 0)
    decreases n
  {
    if n > 0 {
      CycleKeepsStuck(stream);
      CyclesKeepStuck(Cycle(stream), n - 1);
    }
    hide Cycle, Stuck;
  }

  ghost predicate AnyParsable(stream: seq<Entry>) {
    exists e :: e in stream && e.requestId.Some?
  }

  /** A parsable entry with a full batch of unparsable ones ahead of it. */
  ghost predicate Blocked(stream: seq<Entry>, u: nat) {
    exists i :: 0 <= i < |stream| && stream[i].requestId.Some? && u + |Unparsable(stream[..i])| >= 100
  }

  lemma BlockedRest(stream: seq<Entry>, u: nat)
    requires stream != []
    ensures Blocked(stream, u) <==>
            (stream[0].requestId.Some? && u >= BATCH)
            || Blocked(stream[1..], if stream[0].requestId.None? then u + 1 else u)
  {
    var v := if stream[0].requestId.None? then u + 1 else u;
    forall i | 0 < i < |stream|
      ensures u + |Unparsable(stream[..i])| == v + |Unparsable(stream[1..][..i - 1])|
    {
      assert stream[..i][1..] == stream[1..][..i - 1];
    }
    if i :| 0 <= i < |stream| && stream[i].requestId.Some? && u + |Unparsable(stream[..i])| >= BATCH {
      if i > 0 {
        assert stream[1..][i - 1].requestId.Some?;
      }
    }
    if i :| 0 <= i < |stream[1..]| && stream[1..][i].requestId.Some? && v + |Unparsable(stream[1..][..i])| >= BATCH {
      assert stream[i + 1].requestId.Some? && stream[1..][..(i + 1) - 1] == stream[1..][..i];
    }
    if stream[0].requestId.Some? && u >= BATCH {
      assert stream[..0] == [];
    }
    hide Unparsable;
  }

  lemma {:induction false} StuckIffBlocked(stream: seq<Entry>, u: nat)
    ensures AnyParsable(Stuck(stream, u)) <==> Blocked(stream, u)
    ensures AnyParsable(Stuck(stream, u)) ==> AnyParsable(stream)
    decreases |stream|
  {
    if stream != [] {
      var v := if stream[0].requestId.None? then u + 1 else u;
      StuckIffBlocked(stream[1..], v);
      BlockedRest(stream, u);
      assert stream == [stream[0]] + stream[1..];
      var rest := Stuck(stream[1..], v);
      hide Blocked;
      assert stream[0] in stream;
      assert forall e :: e in [stream[0]] + rest <==> e == stream[0] || e in rest;
      assert forall e :: e in stream[1..] ==> e in stream;
      assert [] + rest == rest;
    }
  }

  /**
   * Fault-free cycles eventually drain every parsable entry if and only if none of them has a full
   * batch of unparsable entries ahead of it.
   */
  lemma DrainedIffNotBlocked(stream: seq<Entry>)
    ensures (exists n: nat :: !AnyParsable(Cycles(stream, n))) <==> !Blocked(stream, 0)
  {
    StuckIffBlocked(stream, 0);
    CyclesReachStuck(stream, |stream|);
    hide Blocked, AnyParsable, Stuck, Cycles;
    if n: nat :| !AnyParsable(Cycles(stream, n)) {
      CyclesKeepStuck(stream, n);
      StuckIffBlocked(Cycles(stream, n), 0);
    }
  }

  lemma {:induction false} NoneUnparsable(stream: seq<Entry>)
    requires forall e :: e in stream ==> e.requestId.Some?
    ensures Unparsable(stream) == []
    decreases |stream|
  {
    if stream != [] {
      assert stream[0] in stream;
      NoneUnparsable(stream[1..]);
    }
  }

  /** With every entry parsable, n cycles empty the stream exactly when it has at most 100 n entries. */
  lemma {:induction false} HundredPerCycle(stream: seq<Entry>, n: nat)
    requires forall e :: e in stream ==> e.requestId.Some?
    ensures Cycles(stream, n) == [] <==> |stream| <= n * 100
    decreases n
  {
    if n > 0 {
      NoneUnparsable(Head(stream, BATCH));
      var next := Cycle(stream);
      assert next == if |stream| <= BATCH then [] else stream[BATCH..];
      HundredPerCycle(next, n - 1);
    }
    hide Cycle;
  }
}
