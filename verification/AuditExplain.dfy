/** Reading an audit log back: records, unreadable lines, and the gaps between them. */
module AuditExplain {
  import opened Prelude
  import opened AuditLog

  const SCHEMA_VERSION: nat := 1

  /** What parsing makes of one line: nothing at all, or an envelope with its version,
      the event id recoverable from its payload, and the record if the payload is one. */
  datatype ParsedLine =
    | Blank
    | NotAnEnvelope
    | Envelope(version: nat, recovered: Option<EventId>, record: Option<AuditRecord>)

  datatype UnreadableReason = UnsupportedVersion(found: nat, expected: nat) | Malformed

  datatype UnreadableLine = UnreadableLine(lineNumber: nat, reason: UnreadableReason, eventId: Option<EventId>)

  datatype LogScan = LogScan(records: seq<AuditRecord>, unreadable: seq<UnreadableLine>, gaps: seq<EventId>)

  // ----- gaps

  /** The line exists on disk: as a record, or unreadable with its id recovered. */
  ghost predicate Present(records: seq<AuditRecord>, unreadable: seq<UnreadableLine>, id: EventId) {
    Persisted(records, id) || exists k :: 0 <= k < |unreadable| && unreadable[k].eventId == Some(id)
  }

  /** Not on disk although a later number of the same instance is. */
  ghost predicate IsGap(records: seq<AuditRecord>, unreadable: seq<UnreadableLine>, id: EventId) {
    && !Present(records, unreadable, id)
    && exists later: nat :: id.sequence < later && Present(records, unreadable, EventId(id.instance, later))
  }

  ghost predicate Indexes(byInstance: map<string, set<nat>>, records: seq<AuditRecord>, unreadable: seq<UnreadableLine>) {
    && (forall instance :: instance in byInstance ==> byInstance[instance] != {})
    && (forall id: EventId :: Present(records, unreadable, id) <==> id.instance in byInstance && id.sequence in byInstance[id.instance])
  }

  method Largest(numbers: set<nat>) returns (max: nat)
    requires numbers != {}
    ensures max in numbers && forall n :: n in numbers ==> n <= max
  {
    max :| max in numbers;
    var rest := numbers - {max};
    while rest != {}
      invariant max in numbers && rest <= numbers
      invariant forall n :: n in numbers && n !in rest ==> n <= max
      decreases rest
    {
      var n :| n in rest;
      if n > max {
        max := n;
      }
      rest := rest - {n};
    }
  }

  function Noted(byInstance: map<string, set<nat>>, id: EventId): map<string, set<nat>> {
    byInstance[id.instance := (if id.instance in byInstance then byInstance[id.instance] else {}) + {id.sequence}]
  }

  method Index(records: seq<AuditRecord>, unreadable: seq<UnreadableLine>) returns (byInstance: map<string, set<nat>>)
    ensures Indexes(byInstance, records, unreadable)
  {
    byInstance := map[];
    for k := 0 to |records|
      invariant Indexes(byInstance, records[..k], [])
    {
      assert records[..k + 1] == records[..k] + [records[k]];
      forall id: EventId ensures Present(records[..k + 1], [], id) <==> Present(records[..k], [], id) || id == records[k].eventId {
        PersistedGrows(records[..k], records[k], id);
      }
      byInstance := Noted(byInstance, records[k].eventId);
    }
    assert records[..|records|] == records;
    for k := 0 to |unreadable|
      invariant Indexes(byInstance, records, unreadable[..k])
    {
      forall id: EventId
        ensures Present(records, unreadable[..k + 1], id) <==> Present(records, unreadable[..k], id) || unreadable[k].eventId == Some(id)
      {
        PresentGrows(records, unreadable, k, id);
      }
      if unreadable[k].eventId.Some? {
        byInstance := Noted(byInstance, unreadable[k].eventId.value);
      }
    }
    assert unreadable[..|unreadable|] == unreadable;
  }

  lemma PresentGrows(records: seq<AuditRecord>, unreadable: seq<UnreadableLine>, k: nat, id: EventId)
    requires k < |unreadable|
    ensures Present(records, unreadable[..k + 1], id) <==> Present(records, unreadable[..k], id) || unreadable[k].eventId == Some(id)
  {
    var longer := unreadable[..k + 1];
    if i :| 0 <= i < k && unreadable[..k][i].eventId == Some(id) {
      assert longer[i].eventId == Some(id);
    }
    if unreadable[k].eventId == Some(id) {
      assert longer[k].eventId == Some(id);
    }
  }

  /** The absent numbers of one instance, in order. */
  method GapsOfInstance(instance: string, present: set<nat>) returns (gaps: seq<EventId>)
    requires present != {}
    ensures forall id: EventId :: id in gaps <==>
      id.instance == instance && id.sequence !in present && exists later :: later in present && id.sequence < later
    ensures forall i, j :: 0 <= i < j < |gaps| ==> gaps[i].sequence < gaps[j].sequence
  {
    var max := Largest(present);
    gaps := [];
    for sequence := 0 to max + 1
      invariant forall id: EventId :: id in gaps <==> id.instance == instance && id.sequence < sequence && id.sequence !in present
      invariant forall i, j :: 0 <= i < j < |gaps| ==> gaps[i].sequence < gaps[j].sequence
    {
      if sequence !in present {
        assert forall id :: id in gaps ==> id.sequence < sequence;
        gaps := gaps + [EventId(instance, sequence)];
      }
    }
  }

  /** Exactly the gaps, each reported once. */
  method DetectGaps(records: seq<AuditRecord>, unreadable: seq<UnreadableLine>) returns (gaps: seq<EventId>)
    ensures forall id: EventId :: id in gaps <==> IsGap(records, unreadable, id)
    ensures forall i, j :: 0 <= i < j < |gaps| ==> gaps[i] != gaps[j]
    ensures forall i, j :: 0 <= i < j < |gaps| && gaps[i].instance == gaps[j].instance ==> gaps[i].sequence < gaps[j].sequence
  {
    var byInstance := Index(records, unreadable);
    gaps := [];
    var remaining := byInstance.Keys;
    while remaining != {}
      invariant remaining <= byInstance.Keys
      invariant forall id: EventId :: id in gaps <==> id.instance in byInstance && id.instance !in remaining && IsGap(records, unreadable, id)
      invariant forall i, j :: 0 <= i < j < |gaps| && gaps[i].instance == gaps[j].instance ==> gaps[i].sequence < gaps[j].sequence
      decreases remaining
    {
      var instance :| instance in remaining;
      var more := GapsOfInstance(instance, byInstance[instance]);
      forall id: EventId | id.instance == instance
        ensures id in more <==> IsGap(records, unreadable, id)
      {
        GapInIndex(byInstance, records, unreadable, id);
      }
      forall i | 0 <= i < |gaps| ensures gaps[i].instance != instance {
        assert gaps[i] in gaps;
      }
      gaps := gaps + more;
      remaining := remaining - {instance};
    }
    forall id: EventId | IsGap(records, unreadable, id) ensures id.instance in byInstance {
      GapInIndex(byInstance, records, unreadable, id);
    }
  }

  lemma GapInIndex(byInstance: map<string, set<nat>>, records: seq<AuditRecord>, unreadable: seq<UnreadableLine>, id: EventId)
    requires Indexes(byInstance, records, unreadable)
    ensures IsGap(records, unreadable, id) <==>
      && id.instance in byInstance && id.sequence !in byInstance[id.instance]
      && exists later :: later in byInstance[id.instance] && id.sequence < later
  {
    if IsGap(records, unreadable, id) {
      var later: nat :| id.sequence < later && Present(records, unreadable, EventId(id.instance, later));
      assert later in byInstance[id.instance];
    }
    if id.instance in byInstance {
      if later :| later in byInstance[id.instance] && id.sequence < later {
        assert Present(records, unreadable, EventId(id.instance, later));
      }
    }
  }

  // ----- the whole log

  function RecordsOf(lines: seq<ParsedLine>): seq<AuditRecord> {
    if lines == [] then []
    else
      var last := lines[|lines| - 1];
      RecordsOf(lines[..|lines| - 1]) +
        if last.Envelope? && last.version == SCHEMA_VERSION && last.record.Some? then [last.record.value] else []
  }

  /** The complaint a line deserves, if it is neither blank nor a readable record. */
  function Complaint(line: ParsedLine, lineNumber: nat): Option<UnreadableLine> {
    match line
    case Blank => None
    case NotAnEnvelope => Some(UnreadableLine(lineNumber, Malformed, None))
    case Envelope(version, recovered, record) =>
      if version != SCHEMA_VERSION then Some(UnreadableLine(lineNumber, UnsupportedVersion(version, SCHEMA_VERSION), recovered))
      else if record.None? then Some(UnreadableLine(lineNumber, Malformed, recovered))
      else None
  }

  function ComplaintsOf(lines: seq<ParsedLine>): seq<UnreadableLine> {
    if lines == [] then []
    else
      var complaint := Complaint(lines[|lines| - 1], |lines|);
      ComplaintsOf(lines[..|lines| - 1]) + if complaint.Some? then [complaint.value] else []
  }

  /** What an entry about an unreadable line says of that line. */
  predicate Describes(u: UnreadableLine, line: ParsedLine) {
    && !line.Blank?
    && u.eventId == (if line.Envelope? then line.recovered else None)
    && match u.reason
       case UnsupportedVersion(found, expected) => line.Envelope? && line.version == found && found != 1 && expected == 1
       case Malformed => line.NotAnEnvelope? || (line.Envelope? && line.version == 1 && line.record.None?)
  }

  /** The records are those of the readable lines at `at`, in order. */
  predicate RecordsAt(lines: seq<ParsedLine>, records: seq<AuditRecord>, at: seq<nat>) {
    && |at| == |records|
    && (forall k :: 0 <= k < |at| ==>
          at[k] < |lines| && lines[at[k]].Envelope? && lines[at[k]].version == 1 && lines[at[k]].record == Some(records[k]))
    && (forall j, k :: 0 <= j < k < |at| ==> at[j] < at[k])
  }

  /** The entries are about the lines they number, in order. */
  predicate EntriesFit(lines: seq<ParsedLine>, unreadable: seq<UnreadableLine>) {
    && (forall k :: 0 <= k < |unreadable| ==>
          1 <= unreadable[k].lineNumber <= |lines| && Describes(unreadable[k], lines[unreadable[k].lineNumber - 1]))
    && (forall j, k :: 0 <= j < k < |unreadable| ==> unreadable[j].lineNumber < unreadable[k].lineNumber)
  }

  predicate Noticed(unreadable: seq<UnreadableLine>, lineNumber: nat) {
    exists k :: 0 <= k < |unreadable| && unreadable[k].lineNumber == lineNumber
  }

  /** No line is passed over unless it is blank. */
  predicate NoneSkipped(lines: seq<ParsedLine>, unreadable: seq<UnreadableLine>, at: seq<nat>) {
    forall i :: 0 <= i < |lines| ==> lines[i].Blank? || i in at || Noticed(unreadable, i + 1)
  }

  /** Every line is blank, or the next record, or what the next entry is about. No line is
      two of these: the three ask for different lines. */
  predicate Accounts(lines: seq<ParsedLine>, records: seq<AuditRecord>, unreadable: seq<UnreadableLine>, at: seq<nat>) {
    RecordsAt(lines, records, at) && EntriesFit(lines, unreadable) && NoneSkipped(lines, unreadable, at)
  }

  lemma RecordsStay(lines: seq<ParsedLine>, last: ParsedLine, records: seq<AuditRecord>, at: seq<nat>)
    requires RecordsAt(lines, records, at)
    ensures RecordsAt(lines + [last], records, at)
    ensures last.Envelope? && last.version == 1 && last.record.Some? ==>
      RecordsAt(lines + [last], records + [last.record.value], at + [|lines|])
  {
  }

  lemma EntriesStay(lines: seq<ParsedLine>, last: ParsedLine, unreadable: seq<UnreadableLine>)
    requires EntriesFit(lines, unreadable)
    ensures EntriesFit(lines + [last], unreadable)
  {
    hide Describes;
  }

  lemma EntryAdded(lines: seq<ParsedLine>, last: ParsedLine, unreadable: seq<UnreadableLine>, u: UnreadableLine)
    requires EntriesFit(lines, unreadable) && u.lineNumber == |lines| + 1 && Describes(u, last)
    ensures EntriesFit(lines + [last], unreadable + [u])
  {
    hide Describes;
  }

  lemma NoticedMore(unreadable: seq<UnreadableLine>, u: UnreadableLine, lineNumber: nat)
    ensures Noticed(unreadable + [u], lineNumber) <==> Noticed(unreadable, lineNumber) || u.lineNumber == lineNumber
  {
    var longer := unreadable + [u];
    if k :| 0 <= k < |unreadable| && unreadable[k].lineNumber == lineNumber {
      assert longer[k] == unreadable[k];
    }
    if u.lineNumber == lineNumber {
      assert longer[|unreadable|] == u;
    }
  }

  lemma BlankSkipped(lines: seq<ParsedLine>, last: ParsedLine, unreadable: seq<UnreadableLine>, at: seq<nat>)
    requires NoneSkipped(lines, unreadable, at)
    ensures last.Blank? ==> NoneSkipped(lines + [last], unreadable, at)
    ensures NoneSkipped(lines + [last], unreadable, at + [|lines|])
  {
    hide Noticed;
  }

  lemma EntryTakes(lines: seq<ParsedLine>, last: ParsedLine, unreadable: seq<UnreadableLine>, at: seq<nat>, u: UnreadableLine)
    requires NoneSkipped(lines, unreadable, at) && u.lineNumber == |lines| + 1
    ensures NoneSkipped(lines + [last], unreadable + [u], at)
  {
    hide Noticed;
    var longer := lines + [last];
    forall i | 0 <= i < |longer|
      ensures longer[i].Blank? || i in at || Noticed(unreadable + [u], i + 1)
    {
      NoticedMore(unreadable, u, i + 1);
      if i < |lines| {
        assert longer[i] == lines[i];
      }
    }
  }

  lemma {:induction false} EveryLineAccounted(lines: seq<ParsedLine>) returns (at: seq<nat>)
    ensures Accounts(lines, RecordsOf(lines), ComplaintsOf(lines), at)
    decreases |lines|
  {
    hide RecordsAt, EntriesFit, NoneSkipped;
    if lines == [] {
      at := [];
      NothingToAccount();
    } else {
      var before, last := lines[..|lines| - 1], lines[|lines| - 1];
      assert lines == before + [last];
      at := EveryLineAccounted(before);
      RecordsStay(before, last, RecordsOf(before), at);
      BlankSkipped(before, last, ComplaintsOf(before), at);
      EntriesStay(before, last, ComplaintsOf(before));
      var complaint := Complaint(last, |lines|);
      assert RecordsOf(before) + [] == RecordsOf(before) && ComplaintsOf(before) + [] == ComplaintsOf(before);
      if complaint.Some? {
        EntryAdded(before, last, ComplaintsOf(before), complaint.value);
        EntryTakes(before, last, ComplaintsOf(before), at, complaint.value);
      } else if last.Envelope? {
        at := at + [|before|];
      }
    }
  }

  lemma NothingToAccount()
    ensures RecordsAt([], [], []) && EntriesFit([], []) && NoneSkipped([], [], [])
  {
  }

  /** The entry with this id is on disk in this line: as its record, or, if the line cannot
      be read, by the id recovered from it. */
  predicate OnDisk(line: ParsedLine, id: EventId) {
    line.Envelope? &&
    if line.version == 1 && line.record.Some? then line.record.value.eventId == id else line.recovered == Some(id)
  }

  ghost predicate OnDiskIn(lines: seq<ParsedLine>, id: EventId) {
    exists i :: 0 <= i < |lines| && OnDisk(lines[i], id)
  }

  lemma RecordIsOnDisk(lines: seq<ParsedLine>, records: seq<AuditRecord>, at: seq<nat>, id: EventId)
    requires RecordsAt(lines, records, at) && Persisted(records, id)
    ensures OnDiskIn(lines, id)
  {
    var k :| 0 <= k < |records| && records[k].eventId == id;
    assert OnDisk(lines[at[k]], id);
  }

  lemma RecoveredIsOnDisk(lines: seq<ParsedLine>, unreadable: seq<UnreadableLine>, k: nat, id: EventId)
    requires EntriesFit(lines, unreadable) && k < |unreadable| && unreadable[k].eventId == Some(id)
    ensures OnDiskIn(lines, id)
  {
    assert OnDisk(lines[unreadable[k].lineNumber - 1], id);
  }

  lemma OnDiskIsPresent(
    lines: seq<ParsedLine>, records: seq<AuditRecord>, unreadable: seq<UnreadableLine>, at: seq<nat>, i: nat, id: EventId)
    requires Accounts(lines, records, unreadable, at) && i < |lines| && OnDisk(lines[i], id)
    ensures Present(records, unreadable, id)
  {
    if i in at {
      var k :| 0 <= k < |at| && at[k] == i;
      assert records[k].eventId == id;
    } else {
      assert Noticed(unreadable, i + 1);
      var k :| 0 <= k < |unreadable| && unreadable[k].lineNumber == i + 1;
      assert unreadable[k].eventId == Some(id);
    }
  }

  lemma PresentIsOnDisk(lines: seq<ParsedLine>, records: seq<AuditRecord>, unreadable: seq<UnreadableLine>, at: seq<nat>, id: EventId)
    requires Accounts(lines, records, unreadable, at)
    ensures Present(records, unreadable, id) <==> OnDiskIn(lines, id)
  {
    hide RecordsAt, EntriesFit, NoneSkipped, OnDisk, Persisted;
    if Persisted(records, id) {
      RecordIsOnDisk(lines, records, at, id);
    }
    if k: nat :| k < |unreadable| && unreadable[k].eventId == Some(id) {
      RecoveredIsOnDisk(lines, unreadable, k, id);
    }
    if i: nat :| i < |lines| && OnDisk(lines[i], id) {
      OnDiskIsPresent(lines, records, unreadable, at, i, id);
    }
  }

  /** Reads every line; one bad line never stops the rest. A gap is an id in no line of the
      file although a later one of its instance is, readable or not. */
  method ReadLog(lines: seq<ParsedLine>) returns (scan: LogScan)
    ensures scan.records == RecordsOf(lines) && scan.unreadable == ComplaintsOf(lines)
    ensures exists at :: Accounts(lines, scan.records, scan.unreadable, at)
    ensures forall id: EventId :: id in scan.gaps <==>
      !OnDiskIn(lines, id) && exists later: nat :: id.sequence < later && OnDiskIn(lines, EventId(id.instance, later))
    ensures forall id: EventId :: id in scan.gaps <==> IsGap(scan.records, scan.unreadable, id)
    ensures forall i, j :: 0 <= i < j < |scan.gaps| ==> scan.gaps[i] != scan.gaps[j]
  {
    var records: seq<AuditRecord>, unreadable: seq<UnreadableLine> := [], [];
    for index := 0 to |lines|
      invariant records == RecordsOf(lines[..index]) && unreadable == ComplaintsOf(lines[..index])
    {
      assert lines[..index + 1][..index] == lines[..index];
      var lineNumber := index + 1;
      match lines[index] {
        case Blank =>
        case NotAnEnvelope => unreadable := unreadable + [UnreadableLine(lineNumber, Malformed, None)];
        case Envelope(version, recovered, record) =>
          if version != SCHEMA_VERSION {
            unreadable := unreadable + [UnreadableLine(lineNumber, UnsupportedVersion(version, SCHEMA_VERSION), recovered)];
          } else if record.Some? {
            records := records + [record.value];
          } else {
            unreadable := unreadable + [UnreadableLine(lineNumber, Malformed, recovered)];
          }
      }
    }
    assert lines[..|lines|] == lines;
    var gaps := DetectGaps(records, unreadable);
    ghost var at := EveryLineAccounted(lines);
    forall id: EventId
      ensures Present(records, unreadable, id) <==> OnDiskIn(lines, id)
    {
      PresentIsOnDisk(lines, records, unreadable, at, id);
    }
    scan := LogScan(records, unreadable, gaps);
  }

  datatype Selection = Found(record: AuditRecord) | PossiblyLost | NotFound

  method SelectEvent(scan: LogScan, id: EventId) returns (selection: Selection)
    ensures selection.Found? <==> Persisted(scan.records, id)
    ensures selection.Found? ==>
      exists k :: 0 <= k < |scan.records| && selection.record == scan.records[k] && scan.records[k].eventId == id
        && forall i :: 0 <= i < k ==> scan.records[i].eventId != id
    ensures selection.PossiblyLost? <==> !Persisted(scan.records, id) && id in scan.gaps
  {
    for k := 0 to |scan.records|
      invariant forall i :: 0 <= i < k ==> scan.records[i].eventId != id
    {
      if scan.records[k].eventId == id {
        return Found(scan.records[k]);
      }
    }
    return if id in scan.gaps then PossiblyLost else NotFound;
  }

  // ----- writer and reader together

  /** The lines a trail leaves in the file, as the reader parses them. */
  function Parsed(lines: seq<AuditRecord>): seq<ParsedLine> {
    seq(|lines|, i requires 0 <= i < |lines| => Envelope(SCHEMA_VERSION, Some(lines[i].eventId), Some(lines[i])))
  }

  lemma {:induction false} ParsedReadsBack(lines: seq<AuditRecord>)
    ensures RecordsOf(Parsed(lines)) == lines && ComplaintsOf(Parsed(lines)) == []
    decreases |lines|
  {
    if lines != [] {
      var init := lines[..|lines| - 1];
      ParsedReadsBack(init);
      assert Parsed(lines)[..|lines| - 1] == Parsed(init);
    }
  }

  /** A gap is exactly a write that failed below its instance's highest persisted number. */
  lemma GapsAreLostWrites(events: seq<WriteEvent>, id: EventId)
    ensures var trail := Written(events);
      IsGap(trail.lines, [], id) <==>
        id in trail.failed && exists later: nat :: id.sequence < later && Persisted(trail.lines, EventId(id.instance, later))
  {
    WrittenOk(events);
    var trail := Written(events);
    assert forall other :: Present(trail.lines, [], other) == Persisted(trail.lines, other);
  }

  /** Writing a log through any interleaving of sinks with any failures and reading it
      back: every record comes back in file order, nothing is unreadable, the gaps are
      exactly the writes lost below each instance's last persisted one, and asking for
      an id answers Found, PossiblyLost or NotFound according to its true fate. */
  method WriteThenExplain(events: seq<WriteEvent>, id: EventId) returns (scan: LogScan, selection: Selection)
    ensures var trail := Written(events);
      && scan.records == trail.lines && scan.unreadable == []
      && (forall gap: EventId :: gap in scan.gaps <==>
            gap in trail.failed && exists later: nat :: gap.sequence < later && Persisted(trail.lines, EventId(gap.instance, later)))
      && (selection.Found? <==> Persisted(trail.lines, id))
      && (selection.Found? ==> selection.record.eventId == id)
      && (selection.PossiblyLost? <==> id in scan.gaps)
      && (selection.NotFound? <==>
            || id.sequence >= SinkOf(trail, id.instance).next
            || (id in trail.failed && forall later: nat :: id.sequence < later ==> !Persisted(trail.lines, EventId(id.instance, later))))
  {
    var trail := Written(events);
    ParsedReadsBack(trail.lines);
    scan := ReadLog(Parsed(trail.lines));
    forall gap: EventId
      ensures gap in scan.gaps <==>
        gap in trail.failed && exists later: nat :: gap.sequence < later && Persisted(trail.lines, EventId(gap.instance, later))
    {
      GapsAreLostWrites(events, gap);
    }
    selection := SelectEvent(scan, id);
    WrittenOk(events);
  }
}
