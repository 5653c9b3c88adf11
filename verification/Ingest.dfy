// The ingest gauntlet (app/ingest/pipeline.py): validate, deduplicate, check the watermark, project; and the
// comparison of its incremental tables with folds over the whole input.
module Ingest {
  import opened Base
  import opened Domain
  import opened Engine

  // One line of the feed: its timestamp, its canonical text, and the event it parses to, if it does.
  datatype Line = Line(ts: Time, payload: string, parsed: Option<Event>)

  datatype Admission = Invalid | Duplicate(mismatch: bool) | Late | Projected(ref: SubjectRef, at: Time)

  function LastEventTs(s: SubjectState): Time {
    match s
    case QueueRow(q) => q.lastEventTs
    case AgentRow(a) => a.lastEventTs
  }

  function WatermarkOf(t: Tables, ref: SubjectRef): Option<Time> {
    var s := StateFor(t, ref.kind, ref.id);
    if s.Some? then Some(LastEventTs(s.value)) else None
  }

  // Which way a line goes. Duplicates are recognised before lateness.
  function Classify(t: Tables, line: Line): Admission {
    if line.parsed.None? then Invalid
    else
      var e := line.parsed.value;
      if e.eventId in t.log then Duplicate(t.log[e.eventId].payload != line.payload)
      else
        var w := WatermarkOf(t, SubjectOf(e));
        if w.Some? && e.ts < w.value then Late else Projected(SubjectOf(e), e.ts)
  }

  function PriorQueue(t: Tables, id: string): Option<QueueState> {
    if id in t.queues then Some(t.queues[id]) else None
  }

  function PriorAgent(t: Tables, id: string): Option<AgentState> {
    if id in t.agents then Some(t.agents[id]) else None
  }

  function Disagrees(t: Tables, e: Event): bool {
    e.AdherenceCheck? && StateDisagreement(PriorAgent(t, e.agentId), e)
  }

  // The counters a line bumps, by the way it goes.
  function CountersAfter(t: Tables, line: Line): Counters {
    match Classify(t, line)
    case Invalid => Bump(t.counters, ValidationFailures)
    case Duplicate(mismatch) =>
      var c := Bump(t.counters, Duplicates);
      if mismatch then Bump(c, DuplicatePayloadMismatch) else c
    case Late => Bump(t.counters, LateDrops)
    case Projected(_, _) =>
      var c := Bump(t.counters, EventsAccepted);
      if Disagrees(t, line.parsed.value) then Bump(c, StateDisagreements) else c
  }

  // Late events are logged too.
  function LogAfter(log: map<string, EventRecord>, line: Line, seqNo: nat): map<string, EventRecord> {
    if line.parsed.Some? && line.parsed.value.eventId !in log
    then log[line.parsed.value.eventId := EventRecord(line.parsed.value, line.payload, seqNo)] else log
  }

  function QueuesAfter(t: Tables, e: Event): map<string, QueueState> {
    if e.QueueSnapshot? then t.queues[e.queueId := ApplySnapshot(PriorQueue(t, e.queueId), e)] else t.queues
  }

  function AgentsAfter(t: Tables, e: Event): map<string, AgentState> {
    if e.QueueSnapshot? then t.agents else t.agents[e.agentId := ApplyAgentEvent(PriorAgent(t, e.agentId), e)]
  }

  // The tables after a line has been ingested, before its subject is re-evaluated: subject rows change only on
  // the projected path.
  function Admit(t: Tables, line: Line, seqNo: nat): Tables {
    var projected := Classify(t, line).Projected?;
    t.(counters := CountersAfter(t, line),
       log := LogAfter(t.log, line, seqNo),
       queues := if projected then QueuesAfter(t, line.parsed.value) else t.queues,
       agents := if projected then AgentsAfter(t, line.parsed.value) else t.agents)
  }

  // Lines ingested in order, numbered from n.
  function AdmitAll(t: Tables, lines: seq<Line>, n: nat): Tables {
    if lines == [] then t
    else
      var k := |lines| - 1;
      Admit(AdmitAll(t, lines[..k], n), lines[k], n + k)
  }

  // The counters of the second table stay as far ahead of the first's as they were.
  ghost predicate LeadKept(a: Counters, b: Counters, c: Counters, d: Counters) {
    forall name :: Count(d, name) - Count(c, name) == Count(b, name) - Count(a, name)
  }

  lemma BumpKeepsLead(a: Counters, b: Counters, c: Counters, d: Counters, name: Counter)
    requires LeadKept(a, b, c, d)
    ensures LeadKept(a, b, Bump(c, name), Bump(d, name))
  {
    forall x ensures Count(Bump(d, name), x) - Count(Bump(c, name), x) == Count(b, x) - Count(a, x) {
      assert Count(d, x) - Count(c, x) == Count(b, x) - Count(a, x);
    }
  }

  lemma SameWay(a: Tables, b: Tables, line: Line)
    requires a.queues == b.queues && a.agents == b.agents && a.log == b.log
    ensures Classify(a, line) == Classify(b, line)
  {
    assert forall kind, id :: StateFor(a, kind, id) == StateFor(b, kind, id);
  }

  lemma SameCounts(a: Tables, b: Tables, line: Line)
    requires a.agents == b.agents && Classify(a, line) == Classify(b, line)
    ensures LeadKept(a.counters, b.counters, CountersAfter(a, line), CountersAfter(b, line))
  {
    hide Classify, LeadKept, BumpBy;
    var c, d := a.counters, b.counters;
    assert LeadKept(c, d, c, d) by { LeadKeptItself(c, d); }
    match Classify(a, line)
    case Invalid => BumpKeepsLead(c, d, c, d, ValidationFailures);
    case Duplicate(_) =>
      BumpKeepsLead(c, d, c, d, Duplicates);
      BumpKeepsLead(c, d, Bump(c, Duplicates), Bump(d, Duplicates), DuplicatePayloadMismatch);
    case Late => BumpKeepsLead(c, d, c, d, LateDrops);
    case Projected(_, _) =>
      BumpKeepsLead(c, d, c, d, EventsAccepted);
      BumpKeepsLead(c, d, Bump(c, EventsAccepted), Bump(d, EventsAccepted), StateDisagreements);
  }

  lemma LeadKeptItself(c: Counters, d: Counters)
    ensures LeadKept(c, d, c, d)
  {
  }

  // Ingest reads only subject rows and the log: two tables that agree on these treat a line alike.
  lemma IngestIsLocal(a: Tables, b: Tables, line: Line, n: nat)
    requires a.queues == b.queues && a.agents == b.agents && a.log == b.log
    ensures var x, y := Admit(a, line, n), Admit(b, line, n);
      && Classify(a, line) == Classify(b, line)
      && x.queues == y.queues && x.agents == y.agents && x.log == y.log
      && LeadKept(a.counters, b.counters, x.counters, y.counters)
  {
    hide ApplySnapshot, ApplyAgentEvent, Classify, LeadKept, CountersAfter;
    SameWay(a, b, line);
    SameCounts(a, b, line);
  }

  /* ---------- Reference: the deduplicated stream ---------- */

  ghost predicate HasId(es: seq<Event>, id: string) {
    exists i | 0 <= i < |es| :: es[i].eventId == id
  }

  // The deduplicated stream after one more line.
  ghost function Deduplicated(before: seq<Event>, line: Line): seq<Event> {
    if line.parsed.Some? && !HasId(before, line.parsed.value.eventId) then before + [line.parsed.value] else before
  }

  // The valid events, each id's first occurrence only.
  ghost function FirstWrites(lines: seq<Line>): seq<Event> {
    if lines == [] then []
    else Deduplicated(FirstWrites(lines[..|lines| - 1]), lines[|lines| - 1])
  }

  function Concerning(es: seq<Event>, ref: SubjectRef): seq<Event> {
    if es == [] then []
    else
      var k := |es| - 1;
      Concerning(es[..k], ref) + (if SubjectOf(es[k]) == ref then [es[k]] else [])
  }

  // The events whose timestamp is at least every earlier one's.
  function Records(es: seq<Event>): seq<Event> {
    if es == [] then []
    else
      var k := |es| - 1;
      Records(es[..k]) + (if forall i | 0 <= i < k :: es[i].ts <= es[k].ts then [es[k]] else [])
  }

  function ApplyEvent(prev: Option<SubjectState>, e: Event): SubjectState {
    if e.QueueSnapshot? then QueueRow(ApplySnapshot(None, e))
    else AgentRow(ApplyAgentEvent(if prev.Some? && prev.value.AgentRow? then Some(prev.value.a) else None, e))
  }

  function Fold(es: seq<Event>): Option<SubjectState> {
    if es == [] then None
    else Some(ApplyEvent(Fold(es[..|es| - 1]), es[|es| - 1]))
  }

  ghost predicate IsLatest(es: seq<Event>, w: Time) {
    (exists i | 0 <= i < |es| :: es[i].ts == w) && (forall i | 0 <= i < |es| :: es[i].ts <= w)
  }

  // A subject's row is the fold of its record events and its watermark the latest timestamp logged for it.
  ghost predicate RowInStep(row: Option<SubjectState>, own: seq<Event>) {
    && row == Fold(Records(own))
    && (row.Some? <==> own != [])
    && (row.Some? ==> IsLatest(own, LastEventTs(row.value)))
  }

  // Tables in step with a deduplicated stream: the log holds its ids, and every subject's row is in step.
  ghost predicate InStep(t: Tables, es: seq<Event>) {
    && (forall id :: id in t.log <==> HasId(es, id))
    && (forall kind, id :: RowInStep(StateFor(t, kind, id), Concerning(es, SubjectRef(kind, id))))
  }

  lemma AppendFilters(es: seq<Event>, e: Event, ref: SubjectRef)
    ensures Concerning(es + [e], ref) == Concerning(es, ref) + (if SubjectOf(e) == ref then [e] else [])
    ensures forall id :: HasId(es + [e], id) <==> HasId(es, id) || e.eventId == id
  {
    assert (es + [e])[..|es|] == es;
    forall id ensures HasId(es + [e], id) <==> HasId(es, id) || e.eventId == id {
      if HasId(es, id) {
        var i :| 0 <= i < |es| && es[i].eventId == id;
        assert (es + [e])[i].eventId == id;
      }
      assert (es + [e])[|es|] == e;
    }
  }

  lemma AppendLatest(own: seq<Event>, e: Event)
    ensures own == [] || e.ts >= Greatest(own) ==> IsLatest(own + [e], e.ts)
    ensures own != [] && e.ts < Greatest(own) ==> IsLatest(own + [e], Greatest(own))
    ensures Records(own + [e]) == if own == [] || e.ts >= Greatest(own) then Records(own) + [e] else Records(own)
  {
    var all := own + [e];
    assert all[..|own|] == own && all[|own|] == e;
    if own != [] {
      GreatestIsLatest(own);
      var i :| 0 <= i < |own| && own[i].ts == Greatest(own);
      assert all[i].ts == Greatest(own);
      assert forall k | 0 <= k < |own| :: all[k] == own[k];
    }
    assert Records(own) + [] == Records(own);
  }

  function Greatest(es: seq<Event>): Time
    requires es != []
  {
    if |es| == 1 then es[0].ts else Max(Greatest(es[..|es| - 1]), es[|es| - 1].ts)
  }

  lemma {:induction false} GreatestIsLatest(es: seq<Event>)
    requires es != []
    ensures IsLatest(es, Greatest(es))
  {
    if |es| > 1 {
      var front := es[..|es| - 1];
      GreatestIsLatest(front);
      var i :| 0 <= i < |front| && front[i].ts == Greatest(front);
      assert es[i] == front[i];
      forall k | 0 <= k < |es| ensures es[k].ts <= Greatest(es) {
        if k < |front| { assert es[k] == front[k]; }
      }
    }
  }

  lemma AppliedAt(row: Option<SubjectState>, e: Event)
    ensures LastEventTs(ApplyEvent(row, e)) == e.ts
  {
  }

  lemma AppendRecord(row: Option<SubjectState>, own: seq<Event>, e: Event)
    requires RowInStep(row, own)
    ensures var late := row.Some? && e.ts < LastEventTs(row.value);
      RowInStep(if late then row else Some(ApplyEvent(row, e)), own + [e])
  {
    hide Records, ApplyEvent;
    AppendLatest(own, e);
    if own != [] { GreatestIsLatest(own); }
    assert (Records(own) + [e])[..|Records(own)|] == Records(own);
    assert LastEventTs(ApplyEvent(row, e)) == e.ts by { AppliedAt(row, e); }
  }

  lemma LoggedRow(t: Tables, line: Line, n: nat, kind: SubjectType, id: string)
    requires Classify(t, line).Late? || Classify(t, line).Projected?
    ensures var e := line.parsed.value;
      StateFor(Admit(t, line, n), kind, id) == (
        if SubjectRef(kind, id) == SubjectOf(e) && Classify(t, line).Projected?
        then Some(ApplyEvent(StateFor(t, kind, id), e)) else StateFor(t, kind, id))
  {
  }

  lemma AdmittedLog(t: Tables, line: Line, n: nat)
    requires line.parsed.Some?
    ensures forall id :: id in Admit(t, line, n).log <==> id in t.log || id == line.parsed.value.eventId
  {
  }

  lemma AdmitStaysInStep(t: Tables, es: seq<Event>, line: Line, n: nat)
    requires InStep(t, es)
    requires line.parsed.Some? && !HasId(es, line.parsed.value.eventId)
    ensures InStep(Admit(t, line, n), es + [line.parsed.value])
  {
    hide Admit, RowInStep, Concerning, Fold, Records;
    var e := line.parsed.value;
    assert e.eventId !in t.log;
    AdmittedLog(t, line, n);
    forall kind, id
      ensures RowInStep(StateFor(Admit(t, line, n), kind, id), Concerning(es + [e], SubjectRef(kind, id)))
    {
      AppendFilters(es, e, SubjectRef(kind, id));
      LoggedRow(t, line, n, kind, id);
      if SubjectOf(e) == SubjectRef(kind, id) {
        AppendRecord(StateFor(t, kind, id), Concerning(es, SubjectRef(kind, id)), e);
      } else {
        assert Concerning(es, SubjectRef(kind, id)) + [] == Concerning(es, SubjectRef(kind, id));
      }
    }
    AppendFilters(es, e, SubjectOf(e));
  }

  ghost predicate NothingIngested(t: Tables) {
    t.queues == map[] && t.agents == map[] && t.log == map[]
  }

  // A line that is invalid or already logged changes nothing but counters.
  lemma SkippedLine(t: Tables, line: Line, n: nat)
    requires line.parsed.Some? ==> line.parsed.value.eventId in t.log
    ensures Admit(t, line, n) == t.(counters := Admit(t, line, n).counters)
  {
  }

  lemma SkipStaysInStep(t: Tables, es: seq<Event>, line: Line, n: nat)
    requires InStep(t, es)
    requires line.parsed.Some? ==> HasId(es, line.parsed.value.eventId)
    ensures InStep(Admit(t, line, n), es)
  {
    SkippedLine(t, line, n);
    CountersAside(t, Admit(t, line, n).counters, es);
  }

  lemma CountersAside(t: Tables, c: Counters, es: seq<Event>)
    requires InStep(t, es)
    ensures InStep(t.(counters := c), es)
  {
    assert forall kind, id :: StateFor(t.(counters := c), kind, id) == StateFor(t, kind, id);
  }

  lemma AdmitInStep(t: Tables, es: seq<Event>, line: Line, n: nat)
    requires InStep(t, es)
    ensures InStep(Admit(t, line, n), Deduplicated(es, line))
  {
    if line.parsed.Some? && !HasId(es, line.parsed.value.eventId) {
      AdmitStaysInStep(t, es, line, n);
    } else {
      SkipStaysInStep(t, es, line, n);
    }
  }

  // After any input, the incremental tables are in step with the deduplicated stream: each subject's row is the
  // fold of the projections over its first-write events that were not overtaken, and its watermark is the maximum
  // timestamp logged for it, late events included.
  lemma {:induction false} IngestIsAFold(t: Tables, lines: seq<Line>, n: nat)
    requires NothingIngested(t)
    ensures InStep(AdmitAll(t, lines, n), FirstWrites(lines))
  {
    hide Admit;
    if lines == [] {
      assert forall kind, id :: StateFor(t, kind, id).None?;
    } else {
      var k := |lines| - 1;
      IngestIsAFold(t, lines[..k], n);
      AdmitInStep(AdmitAll(t, lines[..k], n), FirstWrites(lines[..k]), lines[k], n + k);
    }
  }

  /* ---------- Accounting ---------- */

  function ValidLines(lines: seq<Line>): nat {
    if lines == [] then 0
    else ValidLines(lines[..|lines| - 1]) + (if lines[|lines| - 1].parsed.Some? then 1 else 0)
  }

  // How often the change callback fires while the lines are ingested.
  function Callbacks(t: Tables, lines: seq<Line>, n: nat): nat {
    if lines == [] then 0
    else
      var k := |lines| - 1;
      Callbacks(t, lines[..k], n)
      + (if Classify(AdmitAll(t, lines[..k], n), lines[k]).Projected? then 1 else 0)
  }

  // The row logged for an id comes from the first line that carried it.
  ghost predicate FirstCarrier(lines: seq<Line>, n: nat, id: string, record: EventRecord) {
    exists i | 0 <= i < |lines| ::
      && lines[i].parsed.Some? && lines[i].parsed.value.eventId == id
      && record == EventRecord(lines[i].parsed.value, lines[i].payload, n + i)
      && forall j | 0 <= j < i :: lines[j].parsed.Some? ==> lines[j].parsed.value.eventId != id
  }

  // A log agrees with the lines read so far: every row is the first carrier's, and every carried id has a row.
  ghost predicate LogAgrees(log: map<string, EventRecord>, lines: seq<Line>, n: nat) {
    && (forall id | id in log :: FirstCarrier(lines, n, id, log[id]))
    && (forall i | 0 <= i < |lines| :: lines[i].parsed.Some? ==> lines[i].parsed.value.eventId in log)
  }

  lemma CarrierPersists(lines: seq<Line>, n: nat, id: string, record: EventRecord)
    requires lines != [] && FirstCarrier(lines[..|lines| - 1], n, id, record)
    ensures FirstCarrier(lines, n, id, record)
  {
    var front := lines[..|lines| - 1];
    var i :| && 0 <= i < |front|
             && front[i].parsed.Some? && front[i].parsed.value.eventId == id
             && record == EventRecord(front[i].parsed.value, front[i].payload, n + i)
             && forall j | 0 <= j < i :: front[j].parsed.Some? ==> front[j].parsed.value.eventId != id;
    assert lines[i] == front[i];
    forall j | 0 <= j < i ensures lines[j].parsed.Some? ==> lines[j].parsed.value.eventId != id {
      assert lines[j] == front[j];
    }
  }

  lemma LogStaysAgreed(log: map<string, EventRecord>, lines: seq<Line>, n: nat)
    requires lines != [] && LogAgrees(log, lines[..|lines| - 1], n)
    ensures LogAgrees(LogAfter(log, lines[|lines| - 1], n + |lines| - 1), lines, n)
  {
    hide FirstCarrier;
    var k := |lines| - 1;
    var after := LogAfter(log, lines[k], n + k);
    forall i | 0 <= i < |lines| ensures lines[i].parsed.Some? ==> lines[i].parsed.value.eventId in after {
      if i < k { assert lines[..k][i] == lines[i]; }
    }
    forall id | id in after ensures FirstCarrier(lines, n, id, after[id]) {
      if id in log {
        CarrierPersists(lines, n, id, log[id]);
      } else {
        NewCarrier(log, lines, n);
      }
    }
  }

  lemma NewCarrier(log: map<string, EventRecord>, lines: seq<Line>, n: nat)
    requires lines != [] && lines[|lines| - 1].parsed.Some?
    requires lines[|lines| - 1].parsed.value.eventId !in log && LogAgrees(log, lines[..|lines| - 1], n)
    ensures var line := lines[|lines| - 1];
      FirstCarrier(lines, n, line.parsed.value.eventId, EventRecord(line.parsed.value, line.payload, n + |lines| - 1))
  {
    var k := |lines| - 1;
    forall j | 0 <= j < k
      ensures lines[j].parsed.Some? ==> lines[j].parsed.value.eventId != lines[k].parsed.value.eventId
    {
      assert lines[..k][j] == lines[j];
    }
  }

  lemma EmptyLogAgrees(n: nat)
    ensures LogAgrees(map[], [], n)
  {
  }

  // The log holds, for every id carried by a valid line, the payload and position of the first line carrying it.
  lemma {:induction false} LogHoldsFirstPayloads(t: Tables, lines: seq<Line>, n: nat)
    requires NothingIngested(t)
    ensures LogAgrees(AdmitAll(t, lines, n).log, lines, n)
  {
    hide CountersAfter, QueuesAfter, AgentsAfter, Classify, LogAgrees, LogAfter;
    if lines == [] {
      assert LogAgrees(t.log, lines, n) by { EmptyLogAgrees(n); }
    } else {
      var k := |lines| - 1;
      LogHoldsFirstPayloads(t, lines[..k], n);
      LogStaysAgreed(AdmitAll(t, lines[..k], n).log, lines, n);
    }
  }

  // The four disjoint buckets.
  datatype Buckets = Buckets(accepted: nat, duplicate: nat, late: nat, invalid: nat)

  function BucketsOf(c: Counters): Buckets {
    Buckets(Count(c, EventsAccepted), Count(c, Duplicates), Count(c, LateDrops), Count(c, ValidationFailures))
  }

  function Tally(b: Buckets, a: Admission): Buckets {
    match a
    case Invalid => b.(invalid := b.invalid + 1)
    case Duplicate(_) => b.(duplicate := b.duplicate + 1)
    case Late => b.(late := b.late + 1)
    case Projected(_, _) => b.(accepted := b.accepted + 1)
  }

  lemma BumpBuckets(c: Counters, name: Counter)
    ensures BucketsOf(Bump(c, name)) == match name
      case EventsAccepted => Tally(BucketsOf(c), Projected(SubjectRef(Queue, ""), 0))
      case Duplicates => Tally(BucketsOf(c), Duplicate(false))
      case LateDrops => Tally(BucketsOf(c), Late)
      case ValidationFailures => Tally(BucketsOf(c), Invalid)
      case _ => BucketsOf(c)
  {
  }

  lemma AdmitTallies(t: Tables, line: Line, seqNo: nat)
    ensures BucketsOf(Admit(t, line, seqNo).counters) == Tally(BucketsOf(t.counters), Classify(t, line))
  {
    hide BucketsOf, BumpBy;
    match Classify(t, line)
    case Invalid => BumpBuckets(t.counters, ValidationFailures);
    case Duplicate(_) =>
      BumpBuckets(t.counters, Duplicates);
      BumpBuckets(Bump(t.counters, Duplicates), DuplicatePayloadMismatch);
    case Late => BumpBuckets(t.counters, LateDrops);
    case Projected(_, _) =>
      BumpBuckets(t.counters, EventsAccepted);
      BumpBuckets(Bump(t.counters, EventsAccepted), StateDisagreements);
  }

  lemma ClassifyKinds(t: Tables, line: Line)
    ensures Classify(t, line).Invalid? <==> line.parsed.None?
    ensures Classify(t, line).Duplicate? <==> line.parsed.Some? && line.parsed.value.eventId in t.log
  {
  }

  lemma LogAfterSize(log: map<string, EventRecord>, line: Line, seqNo: nat)
    ensures |LogAfter(log, line, seqNo)|
         == |log| + if line.parsed.Some? && line.parsed.value.eventId !in log then 1 else 0
  {
    if line.parsed.Some? && line.parsed.value.eventId !in log {
      assert LogAfter(log, line, seqNo).Keys == log.Keys + {line.parsed.value.eventId};
      assert |LogAfter(log, line, seqNo).Keys| == |log.Keys| + 1;
    }
  }

  ghost predicate BooksBalance(b: Buckets, logged: nat, lines: seq<Line>, callbacks: nat) {
    && b.accepted + b.duplicate + b.late + b.invalid == |lines|
    && b.invalid == |lines| - ValidLines(lines)
    && b.duplicate == ValidLines(lines) - |FirstWrites(lines)|
    && logged == |FirstWrites(lines)| == b.accepted + b.late
    && callbacks == b.accepted
  }

  // Every line is counted in exactly one of four buckets; duplicates are the valid lines beyond the first per id
  // (late or not); accepted and late events are the logged ones; and the callback fires once per accepted event.
  lemma {:induction false} IngestAccounting(t: Tables, lines: seq<Line>, n: nat)
    requires NothingIngested(t) && t.counters == map[]
    ensures var after := AdmitAll(t, lines, n);
      BooksBalance(BucketsOf(after.counters), |after.log|, lines, Callbacks(t, lines, n))
  {
    hide CountersAfter, QueuesAfter, AgentsAfter, Classify, LogAfter;
    if lines != [] {
      hide BooksBalance;
      var k := |lines| - 1;
      var before := AdmitAll(t, lines[..k], n);
      IngestAccounting(t, lines[..k], n);
      IngestIsAFold(t, lines[..k], n);
      LogIds(before, FirstWrites(lines[..k]));
      AdmitTallies(before, lines[k], n + k);
      LogAfterSize(before.log, lines[k], n + k);
      BooksStayBalanced(before, lines, Callbacks(t, lines[..k], n));
    }
  }

  lemma LogIds(t: Tables, es: seq<Event>)
    requires InStep(t, es)
    ensures forall id :: id in t.log <==> HasId(es, id)
  {
  }

  lemma BooksStayBalanced(t: Tables, lines: seq<Line>, callbacks: nat)
    requires lines != []
    requires forall id :: id in t.log <==> HasId(FirstWrites(lines[..|lines| - 1]), id)
    requires BooksBalance(BucketsOf(t.counters), |t.log|, lines[..|lines| - 1], callbacks)
    ensures var line := lines[|lines| - 1];
      BooksBalance(Tally(BucketsOf(t.counters), Classify(t, line)),
                   |t.log| + (if line.parsed.Some? && line.parsed.value.eventId !in t.log then 1 else 0),
                   lines, callbacks + (if Classify(t, line).Projected? then 1 else 0))
  {
    hide BucketsOf, HasId;
    ClassifyKinds(t, lines[|lines| - 1]);
  }

  /* ---------- Queue convergence ---------- */

  // The last record event has the greatest timestamp.
  lemma {:induction false} LastRecordIsLatest(es: seq<Event>)
    requires es != []
    ensures Records(es) != []
    ensures var last := Records(es)[|Records(es)| - 1]; last in es && forall i | 0 <= i < |es| :: es[i].ts <= last.ts
  {
    var k := |es| - 1;
    if k > 0 {
      LastRecordIsLatest(es[..k]);
      var last := Records(es[..k])[|Records(es[..k])| - 1];
      assert forall i | 0 <= i < k :: es[..k][i] == es[i];
    }
  }

  lemma {:induction false} ConcerningMembers(es: seq<Event>, ref: SubjectRef, e: Event)
    ensures e in Concerning(es, ref) <==> e in es && SubjectOf(e) == ref
  {
    if es != [] { ConcerningMembers(es[..|es| - 1], ref, e); }
  }

  ghost predicate Carries(lines: seq<Line>, e: Event) {
    exists l | l in lines :: l.parsed == Some(e)
  }

  // Lines with the same event id carry the same event.
  ghost predicate IdsConsistent(lines: seq<Line>) {
    forall e1, e2 | Carries(lines, e1) && Carries(lines, e2) && e1.eventId == e2.eventId :: e1 == e2
  }

  // No two snapshots of one queue have the same timestamp.
  ghost predicate SnapshotTimesDistinct(lines: seq<Line>) {
    forall e1, e2 | Carries(lines, e1) && Carries(lines, e2) && e1.QueueSnapshot? && SubjectOf(e1) == SubjectOf(e2)
                    && e1.ts == e2.ts :: e1 == e2
  }

  lemma {:induction false} FirstWritesAreCarried(lines: seq<Line>, e: Event)
    requires IdsConsistent(lines)
    ensures e in FirstWrites(lines) <==> Carries(lines, e)
  {
    if lines != [] {
      var k := |lines| - 1;
      forall x | Carries(lines[..k], x) ensures Carries(lines, x) {}
      FirstWritesAreCarried(lines[..k], e);
      if lines[k].parsed == Some(e) {
        assert lines[k] in lines && Carries(lines, e);
        if HasId(FirstWrites(lines[..k]), e.eventId) {
          var i :| 0 <= i < |FirstWrites(lines[..k])| && FirstWrites(lines[..k])[i].eventId == e.eventId;
          FirstWritesAreCarried(lines[..k], FirstWrites(lines[..k])[i]);
        }
      }
      if Carries(lines, e) && lines[k].parsed != Some(e) {
        var l :| l in lines && l.parsed == Some(e);
        assert l in lines[..k];
      }
    }
  }

  // A queue's row is its latest snapshot, whatever arrived in between.
  lemma QueueRowIsLatestSnapshot(t: Tables, lines: seq<Line>, n: nat, q: string)
    requires NothingIngested(t) && IdsConsistent(lines)
    ensures var queues := AdmitAll(t, lines, n).queues;
      && (q in queues ==> exists e | Carries(lines, e) && SubjectOf(e) == SubjectRef(Queue, q) ::
            && queues[q] == ApplySnapshot(None, e)
            && forall x | Carries(lines, x) && SubjectOf(x) == SubjectRef(Queue, q) :: x.ts <= e.ts)
      && (q !in queues ==> forall x | Carries(lines, x) :: SubjectOf(x) != SubjectRef(Queue, q))
  {
    IngestIsAFold(t, lines, n);
    var after, ref := AdmitAll(t, lines, n), SubjectRef(Queue, q);
    var own := Concerning(FirstWrites(lines), ref);
    forall x ensures x in own <==> Carries(lines, x) && SubjectOf(x) == ref {
      ConcerningMembers(FirstWrites(lines), ref, x);
      FirstWritesAreCarried(lines, x);
    }
    assert StateFor(after, ref.kind, ref.id) == Fold(Records(own));
    if own != [] {
      LastRecordIsLatest(own);
      var last := Records(own)[|Records(own)| - 1];
      assert Carries(lines, last) && SubjectOf(last) == ref && last.QueueSnapshot?;
      assert Fold(Records(own)) == Some(QueueRow(ApplySnapshot(None, last)));
      forall x | Carries(lines, x) && SubjectOf(x) == ref ensures x.ts <= last.ts {
        assert x in own;
      }
    } else {
      forall x | Carries(lines, x) ensures SubjectOf(x) != ref {
        assert x !in own;
      }
    }
  }

  // Two inputs with the same lines, in any order and with any number of redeliveries, leave the same queue table,
  // provided equal ids mean equal events and a queue's snapshots have distinct timestamps.
  lemma QueuesConverge(t: Tables, xs: seq<Line>, ys: seq<Line>, n: nat)
    requires NothingIngested(t) && IdsConsistent(xs) && SnapshotTimesDistinct(xs)
    requires forall l :: l in xs <==> l in ys
    ensures AdmitAll(t, xs, n).queues == AdmitAll(t, ys, n).queues
  {
    forall e ensures Carries(xs, e) <==> Carries(ys, e) {
      if Carries(xs, e) { var l :| l in xs && l.parsed == Some(e); assert l in ys; }
      if Carries(ys, e) { var l :| l in ys && l.parsed == Some(e); assert l in xs; }
    }
    var a, b := AdmitAll(t, xs, n).queues, AdmitAll(t, ys, n).queues;
    forall q
      ensures q in a <==> q in b
      ensures q in a ==> a[q] == b[q]
    {
      QueueRowIsLatestSnapshot(t, xs, n, q);
      QueueRowIsLatestSnapshot(t, ys, n, q);
    }
  }

  lemma AgentRowAfter(t: Tables, line: Line, n: nat)
    requires line.parsed.Some? && !line.parsed.value.QueueSnapshot? && line.parsed.value.eventId !in t.log
    ensures var e := line.parsed.value;
      var prior := PriorAgent(t, e.agentId);
      Admit(t, line, n).agents ==
        if prior.Some? && e.ts < prior.value.lastEventTs then t.agents
        else t.agents[e.agentId := ApplyAgentEvent(prior, e)]
  {
  }

  // Agent rows do not converge: a state change overtaken by a later adherence check is dropped, and the agent's
  // current state stays unknown.
  lemma AgentsMayDiverge(t: Tables, n: nat)
    requires NothingIngested(t)
    ensures var change := Line(1, "c", Some(AgentStateChange("1", 1, "a", None, None, None, "on_call")));
      var check := Line(2, "k", Some(AdherenceCheck("2", 2, "a", None, "available", "on_call", false, None)));
      var inOrder, swapped := AdmitAll(t, [change, check], n).agents, AdmitAll(t, [check, change], n).agents;
      && "a" in inOrder && inOrder["a"].currentState == Some("on_call")
      && "a" in swapped && swapped["a"].currentState == None
  {
    var change := Line(1, "c", Some(AgentStateChange("1", 1, "a", None, None, None, "on_call")));
    var check := Line(2, "k", Some(AdherenceCheck("2", 2, "a", None, "available", "on_call", false, None)));
    assert "1" != "2" by { assert "1"[0] != "2"[0]; }
    assert "on_call" in KNOWN_AGENT_STATES;
    TwoLines(t, change, check, n);
    TwoLines(t, check, change, n);
    AgentRowAfter(t, change, n);
    AgentRowAfter(t, check, n);
    AgentRowAfter(Admit(t, change, n), check, n + 1);
    AgentRowAfter(Admit(t, check, n), change, n + 1);
  }

  lemma TwoLines(t: Tables, a: Line, b: Line, n: nat)
    ensures AdmitAll(t, [a, b], n) == Admit(Admit(t, a, n), b, n + 1)
  {
    assert [a, b][..1] == [a] && [a][..0] == [];
    assert AdmitAll(t, [a], n) == Admit(t, a, n);
  }
}
