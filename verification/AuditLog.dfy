/** The audit trail: sinks that number every entry before trying to write it, several
    instances sharing one file. */
module AuditLog {
  import opened Prelude

  datatype EventId = EventId(instance: string, sequence: nat)

  /** A record, with everything but its id as an opaque body. */
  datatype AuditRecord = AuditRecord(eventId: EventId, body: string)

  /** One sink: its next number, its failure counter, and the failures whose counter
      increment, made after the lock is dropped, is still to come. */
  datatype Sink = Sink(next: nat, failedWrites: nat, uncounted: nat)

  /** The shared file, the sinks by instance, and (history) which numbers failed. */
  datatype Trail = Trail(lines: seq<AuditRecord>, sinks: map<string, Sink>, failed: set<EventId>)

  datatype WriteEvent =
    | Append(instance: string, body: string, succeeds: bool)
    | CountFailure(instance: string)

  function SinkOf(trail: Trail, instance: string): Sink {
    if instance in trail.sinks then trail.sinks[instance] else Sink(0, 0, 0)
  }

  function ReserveAndWrite(sink: Sink, succeeds: bool): Sink {
    if succeeds then sink.(next := sink.next + 1)
    else sink.(next := sink.next + 1, uncounted := sink.uncounted + 1)
  }

  function Count(sink: Sink): Sink {
    if sink.uncounted == 0 then sink
    else sink.(failedWrites := sink.failedWrites + 1, uncounted := sink.uncounted - 1)
  }

  /** `Append` is the locked section, reserving the number and writing its line;
      `CountFailure` is the increment a failed append still owes. */
  function WriteStep(trail: Trail, e: WriteEvent): Trail {
    var sink := SinkOf(trail, e.instance);
    match e
    case Append(instance, body, succeeds) =>
      var id := EventId(instance, sink.next);
      Trail(
        if succeeds then trail.lines + [AuditRecord(id, body)] else trail.lines,
        trail.sinks[instance := ReserveAndWrite(sink, succeeds)],
        if succeeds then trail.failed else trail.failed + {id})
    case CountFailure(instance) => trail.(sinks := trail.sinks[instance := Count(sink)])
  }

  /** Any interleaving of any sinks' appends, with any writes failing. */
  function Written(events: seq<WriteEvent>): Trail
    decreases |events|
  {
    if events == [] then Trail([], map[], {})
    else WriteStep(Written(events[..|events| - 1]), events[|events| - 1])
  }

  class LogFile {
    var lines: seq<AuditRecord>
    constructor () ensures lines == [] { lines := []; }
  }

  /** A sink object. The lock is held while a number is reserved and its line written; a
      failure is counted after it is dropped, and `uncounted` is what is still owed. */
  class AuditFileSink {
    const instance: string
    const file: LogFile
    var nextSequence: nat
    var failedWrites: nat
    ghost var uncounted: nat

    ghost function View(): Sink
      reads this
    {
      Sink(nextSequence, failedWrites, uncounted)
    }

    constructor (file: LogFile, instance: string)
      ensures this.file == file && this.instance == instance && View() == Sink(0, 0, 0)
    {
      this.file := file;
      this.instance := instance;
      nextSequence := 0;
      failedWrites := 0;
      uncounted := 0;
    }

    /** The locked part of an append: a failed write spends its number all the same. */
    method ReserveAndWriteLine(body: string, succeeds: bool) returns (result: Option<EventId>)
      modifies this, file
      ensures View() == ReserveAndWrite(old(View()), succeeds)
      ensures result == if succeeds then Some(EventId(instance, old(nextSequence))) else None
      ensures file.lines == old(file.lines) + if result.Some? then [AuditRecord(result.value, body)] else []
    {
      var sequence := nextSequence;
      nextSequence := nextSequence + 1;
      var eventId := EventId(instance, sequence);
      if succeeds {
        file.lines := file.lines + [AuditRecord(eventId, body)];
        result := Some(eventId);
      } else {
        uncounted := uncounted + 1;
        result := None;
      }
    }

    method CountFailedWrite()
      requires uncounted > 0
      modifies this
      ensures View() == Count(old(View()))
    {
      failedWrites := failedWrites + 1;
      uncounted := uncounted - 1;
    }

    /** A whole append, nothing in between. */
    method AppendEntry(body: string, succeeds: bool) returns (result: Option<EventId>)
      modifies this, file
      ensures View() == if succeeds then ReserveAndWrite(old(View()), true) else Count(ReserveAndWrite(old(View()), false))
      ensures result == if succeeds then Some(EventId(instance, old(nextSequence))) else None
      ensures file.lines == old(file.lines) + if result.Some? then [AuditRecord(result.value, body)] else []
    {
      result := ReserveAndWriteLine(body, succeeds);
      if result.None? {
        CountFailedWrite();
      }
    }
  }

  /** A counter increment belongs to a failed append that still owes one. */
  predicate Owed(trail: Trail, e: WriteEvent) {
    e.CountFailure? ==> SinkOf(trail, e.instance).uncounted > 0
  }

  lemma WrittenMore(events: seq<WriteEvent>, k: nat)
    requires k < |events|
    ensures Written(events[..k + 1]) == WriteStep(Written(events[..k]), events[k])
  {
    assert events[..k + 1][..k] == events[..k];
  }

  /** One step of one sink, found or made. */
  method TakeStep(file: LogFile, sinks: map<string, AuditFileSink>, e: WriteEvent, ghost trail: Trail) returns (sink: AuditFileSink)
    requires Owed(trail, e) && file.lines == trail.lines
    requires if e.instance in sinks then e.instance in trail.sinks && Stands(sinks[e.instance], file, e.instance, trail.sinks[e.instance])
      else e.instance !in trail.sinks
    modifies file, if e.instance in sinks then {sinks[e.instance]} else {}
    ensures file.lines == WriteStep(trail, e).lines
    ensures Stands(sink, file, e.instance, WriteStep(trail, e).sinks[e.instance])
    ensures if e.instance in sinks then sink == sinks[e.instance] else fresh(sink)
  {
    if e.instance in sinks {
      sink := sinks[e.instance];
    } else {
      sink := new AuditFileSink(file, e.instance);
    }
    match e {
      case Append(_, body, succeeds) =>
        var result := sink.ReserveAndWriteLine(body, succeeds);
      case CountFailure(_) => sink.CountFailedWrite();
    }
  }

  /** The object is this instance's sink on this file, with these fields. */
  ghost predicate Stands(sink: AuditFileSink, file: LogFile, instance: string, view: Sink)
    reads sink
  {
    sink.instance == instance && sink.file == file && sink.View() == view
  }

  /** Runs sinks through any interleaving of their steps, creating each as it is first
      used: the file they share holds exactly the lines of the trail, and every sink's
      fields are the trail's. */
  method Drive(events: seq<WriteEvent>) returns (file: LogFile, sinks: map<string, AuditFileSink>)
    requires forall k :: 0 <= k < |events| ==> Owed(Written(events[..k]), events[k])
    ensures file.lines == Written(events).lines
    ensures sinks.Keys == Written(events).sinks.Keys
    ensures forall instance :: instance in sinks ==> sinks[instance].View() == Written(events).sinks[instance]
  {
    hide Written, WriteStep;
    WrittenNothing();
    file := new LogFile();
    sinks := map[];
    for k := 0 to |events|
      invariant fresh(file) && forall instance :: instance in sinks ==> fresh(sinks[instance])
      invariant file.lines == Written(events[..k]).lines && sinks.Keys == Written(events[..k]).sinks.Keys
      invariant forall instance :: instance in sinks ==>
        Stands(sinks[instance], file, instance, Written(events[..k]).sinks[instance])
    {
      ghost var trail := Written(events[..k]);
      var e := events[k];
      WrittenMore(events, k);
      StepTouchesOne(trail, e);
      var sink := TakeStep(file, sinks, e, trail);
      sinks := sinks[e.instance := sink];
    }
    assert events[..|events|] == events;
  }

  lemma WrittenNothing()
    ensures Written([]) == Trail([], map[], {})
  {
  }

  lemma StepTouchesOne(trail: Trail, e: WriteEvent)
    ensures var n := WriteStep(trail, e);
      && n.sinks.Keys == trail.sinks.Keys + {e.instance}
      && forall other :: other in trail.sinks && other != e.instance ==> n.sinks[other] == trail.sinks[other]
  {
  }

  // ----- what every interleaving keeps

  ghost predicate Persisted(lines: seq<AuditRecord>, id: EventId) {
    exists k :: 0 <= k < |lines| && lines[k].eventId == id
  }

  /** Every reserved number is written or failed, never both, and no other number is. */
  ghost predicate Accounted(trail: Trail) {
    && (forall id: EventId :: Persisted(trail.lines, id) ==> id.sequence < SinkOf(trail, id.instance).next && id !in trail.failed)
    && (forall id: EventId :: id in trail.failed ==> id.sequence < SinkOf(trail, id.instance).next)
    && (forall id: EventId :: id.sequence < SinkOf(trail, id.instance).next ==> Persisted(trail.lines, id) || id in trail.failed)
  }

  /** Instance by instance, file order is number order. */
  ghost predicate Ordered(lines: seq<AuditRecord>) {
    forall i, j :: 0 <= i < j < |lines| && lines[i].eventId.instance == lines[j].eventId.instance
      ==> lines[i].eventId.sequence < lines[j].eventId.sequence
  }

  ghost function FailedOf(trail: Trail, instance: string): set<EventId> {
    set id | id in trail.failed && id.instance == instance
  }

  ghost function LineCount(lines: seq<AuditRecord>, instance: string): nat {
    if lines == [] then 0
    else LineCount(lines[..|lines| - 1], instance) + if lines[|lines| - 1].eventId.instance == instance then 1 else 0
  }

  ghost predicate Counted(trail: Trail, instance: string) {
    var sink := SinkOf(trail, instance);
    && sink.failedWrites + sink.uncounted == |FailedOf(trail, instance)|
    && |FailedOf(trail, instance)| + LineCount(trail.lines, instance) == sink.next
  }

  ghost predicate TrailOk(trail: Trail) {
    Accounted(trail) && Ordered(trail.lines) && forall instance :: Counted(trail, instance)
  }

  lemma PersistedGrows(lines: seq<AuditRecord>, record: AuditRecord, id: EventId)
    ensures Persisted(lines + [record], id) <==> Persisted(lines, id) || id == record.eventId
  {
    var longer := lines + [record];
    if Persisted(lines, id) {
      var k :| 0 <= k < |lines| && lines[k].eventId == id;
      assert longer[k] == lines[k];
    }
    if id == record.eventId {
      assert longer[|lines|].eventId == id;
    }
  }

  lemma AppendAccounts(trail: Trail, e: WriteEvent)
    requires e.Append? && Accounted(trail)
    ensures Accounted(WriteStep(trail, e))
  {
    var n := WriteStep(trail, e);
    var written := EventId(e.instance, SinkOf(trail, e.instance).next);
    forall id: EventId ensures Persisted(n.lines, id) <==> Persisted(trail.lines, id) || (e.succeeds && id == written) {
      PersistedGrows(trail.lines, AuditRecord(written, e.body), id);
    }
    forall id: EventId
      ensures SinkOf(n, id.instance).next == SinkOf(trail, id.instance).next + if id.instance == e.instance then 1 else 0
    {
    }
  }

  lemma AppendOrders(trail: Trail, e: WriteEvent)
    requires e.Append? && Accounted(trail) && Ordered(trail.lines)
    ensures Ordered(WriteStep(trail, e).lines)
  {
    forall i | 0 <= i < |trail.lines| && trail.lines[i].eventId.instance == e.instance
      ensures trail.lines[i].eventId.sequence < SinkOf(trail, e.instance).next
    {
      assert Persisted(trail.lines, trail.lines[i].eventId);
    }
  }

  lemma SuccessCounts(trail: Trail, e: WriteEvent, instance: string)
    requires e.Append? && e.succeeds && Counted(trail, instance)
    ensures Counted(WriteStep(trail, e), instance)
  {
    var n := WriteStep(trail, e);
    assert n.lines[..|n.lines| - 1] == trail.lines;
    assert FailedOf(n, instance) == FailedOf(trail, instance);
  }

  lemma FailureCounts(trail: Trail, e: WriteEvent, instance: string)
    requires e.Append? && !e.succeeds && Counted(trail, instance)
    requires EventId(e.instance, SinkOf(trail, e.instance).next) !in trail.failed
    ensures Counted(WriteStep(trail, e), instance)
  {
    var n := WriteStep(trail, e);
    var written := EventId(e.instance, SinkOf(trail, e.instance).next);
    assert FailedOf(n, instance) == FailedOf(trail, instance) + if instance == e.instance then {written} else {};
  }

  lemma AppendCounts(trail: Trail, e: WriteEvent, instance: string)
    requires e.Append? && Accounted(trail) && Counted(trail, instance)
    ensures Counted(WriteStep(trail, e), instance)
  {
    if e.succeeds {
      SuccessCounts(trail, e, instance);
    } else {
      assert EventId(e.instance, SinkOf(trail, e.instance).next) !in trail.failed;
      FailureCounts(trail, e, instance);
    }
  }

  lemma CountFailureKeeps(trail: Trail, instance: string)
    requires TrailOk(trail)
    ensures TrailOk(WriteStep(trail, CountFailure(instance)))
  {
    var n := WriteStep(trail, CountFailure(instance));
    forall other ensures SinkOf(n, other).next == SinkOf(trail, other).next {
    }
    forall other ensures Counted(n, other) {
      assert Counted(trail, other);
      assert FailedOf(n, other) == FailedOf(trail, other);
    }
  }

  lemma {:induction false} WrittenOk(events: seq<WriteEvent>)
    ensures TrailOk(Written(events))
    decreases |events|
  {
    if events == [] {
      forall instance ensures Counted(Written([]), instance) {
        assert FailedOf(Written([]), instance) == {};
      }
    } else {
      var trail, e := Written(events[..|events| - 1]), events[|events| - 1];
      WrittenOk(events[..|events| - 1]);
      match e
      case Append(_, _, _) =>
        AppendAccounts(trail, e);
        AppendOrders(trail, e);
        forall instance ensures Counted(WriteStep(trail, e), instance) {
          assert Counted(trail, instance);
          AppendCounts(trail, e, instance);
        }
      case CountFailure(instance) => CountFailureKeeps(trail, instance);
    }
  }

  /** Each instance's lines are in strictly increasing sequence order. */
  lemma FileOrderIsSequenceOrder(events: seq<WriteEvent>, i: nat, j: nat)
    requires i < j < |Written(events).lines|
    requires Written(events).lines[i].eventId.instance == Written(events).lines[j].eventId.instance
    ensures Written(events).lines[i].eventId.sequence < Written(events).lines[j].eventId.sequence
  {
    WrittenOk(events);
  }

  /** Once every owed increment is made, failed writes and lines together are exactly
      the numbers reserved. */
  lemma QuiescentCounts(events: seq<WriteEvent>, instance: string)
    requires SinkOf(Written(events), instance).uncounted == 0
    ensures var trail := Written(events);
      SinkOf(trail, instance).failedWrites + LineCount(trail.lines, instance) == SinkOf(trail, instance).next
  {
    WrittenOk(events);
    assert Counted(Written(events), instance);
  }

  // ----- what the file holds, said of the appends

  /** Appends of this instance's so far, failed ones included. */
  function Attempts(events: seq<WriteEvent>, instance: string): nat {
    if events == [] then 0
    else
      Attempts(events[..|events| - 1], instance) +
        if events[|events| - 1].Append? && events[|events| - 1].instance == instance then 1 else 0
  }

  lemma {:induction false} NextIsAttempts(events: seq<WriteEvent>, instance: string)
    ensures SinkOf(Written(events), instance).next == Attempts(events, instance)
    decreases |events|
  {
    if events != [] {
      NextIsAttempts(events[..|events| - 1], instance);
    }
  }

  /** The record an append leaves if its write succeeds: its own body, under the number of
      attempts its instance made before it. */
  function RecordFor(events: seq<WriteEvent>, k: nat): AuditRecord
    requires k < |events| && events[k].Append?
  {
    AuditRecord(EventId(events[k].instance, Attempts(events[..k], events[k].instance)), events[k].body)
  }

  /** The line is the record of append `k`, whose write succeeded. */
  predicate LineOf(events: seq<WriteEvent>, k: nat, line: AuditRecord) {
    k < |events| && events[k].Append? && events[k].succeeds && line == RecordFor(events, k)
  }

  /** The lines are the records of the appends at `at`, in order: of all that succeeded. */
  ghost predicate LinesFit(events: seq<WriteEvent>, lines: seq<AuditRecord>, at: seq<nat>) {
    && |at| == |lines|
    && (forall i :: 0 <= i < |at| ==> LineOf(events, at[i], lines[i]))
    && (forall i, j :: 0 <= i < j < |at| ==> at[i] < at[j])
    && (forall k :: 0 <= k < |events| && events[k].Append? && events[k].succeeds ==> k in at)
  }

  lemma LineStays(events: seq<WriteEvent>, e: WriteEvent, k: nat, line: AuditRecord)
    requires LineOf(events, k, line)
    ensures k < |events| && LineOf(events + [e], k, line)
  {
    assert (events + [e])[..k] == events[..k];
  }

  lemma LineAdded(events: seq<WriteEvent>, e: WriteEvent)
    requires e.Append? && e.succeeds
    ensures LineOf(events + [e], |events|, AuditRecord(EventId(e.instance, Attempts(events, e.instance)), e.body))
  {
    assert (events + [e])[..|events|] == events;
  }

  lemma FitsOn(events: seq<WriteEvent>, e: WriteEvent, lines: seq<AuditRecord>, at: seq<nat>)
    requires LinesFit(events, lines, at) && (!e.Append? || !e.succeeds)
    ensures LinesFit(events + [e], lines, at)
  {
    hide LineOf;
    forall i | 0 <= i < |at|
      ensures LineOf(events + [e], at[i], lines[i])
    {
      LineStays(events, e, at[i], lines[i]);
    }
  }

  lemma FitsWithOneMore(events: seq<WriteEvent>, e: WriteEvent, lines: seq<AuditRecord>, at: seq<nat>, line: AuditRecord)
    requires LinesFit(events, lines, at) && LineOf(events + [e], |events|, line)
    ensures LinesFit(events + [e], lines + [line], at + [|events|])
  {
    hide LineOf;
    var (longer, places) := (lines + [line], at + [|events|]);
    forall i | 0 <= i < |at|
      ensures LineOf(events + [e], at[i], lines[i]) && at[i] < |events|
    {
      LineStays(events, e, at[i], lines[i]);
    }
    forall i | 0 <= i < |places|
      ensures LineOf(events + [e], places[i], longer[i])
    {
      if i < |at| {
        assert places[i] == at[i] && longer[i] == lines[i];
      }
    }
    forall k | 0 <= k < |events| + 1 && (events + [e])[k].Append? && (events + [e])[k].succeeds
      ensures k in places
    {
      if k < |events| {
        assert k in at;
      } else {
        assert places[|at|] == k;
      }
    }
  }

  /** The file holds exactly the records of the appends whose writes succeeded, in the order
      they were made: nothing is lost, invented, altered or renumbered. */
  lemma {:induction false} FileHoldsTheAppends(events: seq<WriteEvent>) returns (at: seq<nat>)
    ensures LinesFit(events, Written(events).lines, at)
    decreases |events|
  {
    hide LinesFit, LineOf, Attempts;
    if events == [] {
      at := [];
      NothingFits();
    } else {
      var before, e := events[..|events| - 1], events[|events| - 1];
      assert events == before + [e];
      at := FileHoldsTheAppends(before);
      NextIsAttempts(before, e.instance);
      if e.Append? && e.succeeds {
        LineAdded(before, e);
        var line := AuditRecord(EventId(e.instance, Attempts(before, e.instance)), e.body);
        FitsWithOneMore(before, e, Written(before).lines, at, line);
        at := at + [|before|];
      } else {
        FitsOn(before, e, Written(before).lines, at);
      }
    }
  }

  lemma NothingFits()
    ensures LinesFit([], [], [])
  {
  }
}
