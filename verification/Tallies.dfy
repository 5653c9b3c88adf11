// The two diagnostic counters of ingest, told from the input alone (app/ingest/pipeline.py:98-102 and 127-142).
module Tallies {
  import opened Base
  import opened Domain
  import opened Engine
  import opened Ingest
  import opened SubjectRows
  import opened AgentOrder

  // The payload of the first valid line that carries the id.
  function FirstPayload(lines: seq<Line>, id: string): Option<string> {
    if lines == [] then None
    else
      var before, line := FirstPayload(lines[..|lines| - 1], id), lines[|lines| - 1];
      if before.Some? then before
      else if line.parsed.Some? && line.parsed.value.eventId == id then Some(line.payload) else None
  }

  // The line repeats an id with another payload than the first one's.
  predicate Mismatches(before: seq<Line>, line: Line) {
    line.parsed.Some?
    && var first := FirstPayload(before, line.parsed.value.eventId); first.Some? && first.value != line.payload
  }

  function MismatchTally(lines: seq<Line>): nat {
    if lines == [] then 0
    else
      MismatchTally(lines[..|lines| - 1])
      + if Mismatches(lines[..|lines| - 1], lines[|lines| - 1]) then 1 else 0
  }

  // The line is a check, new, not older than what its agent already has, and contradicts the agent's last state
  // change that was not overtaken.
  ghost predicate Contradicts(before: seq<Line>, line: Line) {
    && line.parsed.Some? && line.parsed.value.AdherenceCheck?
    && !HasId(FirstWrites(before), line.parsed.value.eventId)
    && var e := line.parsed.value;
       var change := Last(AgentRecords(before, e.agentId), Change);
       && (forall x | x in Own(before, e.agentId) :: x.ts <= e.ts)
       && change.Some? && NormalizeAgentState(change.value.newState) != NormalizeAgentState(e.actualState)
  }

  ghost function DisagreementTally(lines: seq<Line>): nat {
    if lines == [] then 0
    else
      DisagreementTally(lines[..|lines| - 1])
      + if Contradicts(lines[..|lines| - 1], lines[|lines| - 1]) then 1 else 0
  }

  lemma {:induction false} LogPayloads(t: Tables, lines: seq<Line>, n: nat, id: string)
    requires NothingIngested(t)
    ensures var log := AdmitAll(t, lines, n).log;
      && (id in log <==> FirstPayload(lines, id).Some?)
      && (id in log ==> Some(log[id].payload) == FirstPayload(lines, id))
  {
    hide CountersAfter, QueuesAfter, AgentsAfter, Classify;
    if lines != [] { LogPayloads(t, lines[..|lines| - 1], n, id); }
  }

  lemma AdmitDiagnoses(t: Tables, line: Line, n: nat)
    ensures var a, before, after := Classify(t, line), t.counters, Admit(t, line, n).counters;
      && Count(after, DuplicatePayloadMismatch)
         == Count(before, DuplicatePayloadMismatch) + (if a == Duplicate(true) then 1 else 0)
      && Count(after, StateDisagreements)
         == Count(before, StateDisagreements) + (if a.Projected? && Disagrees(t, line.parsed.value) then 1 else 0)
  {
    hide Classify, Disagrees;
  }

  lemma MismatchMeaning(t: Tables, lines: seq<Line>, line: Line, n: nat)
    requires NothingIngested(t)
    ensures Classify(AdmitAll(t, lines, n), line) == Duplicate(true) <==> Mismatches(lines, line)
  {
    hide AdmitAll, NothingIngested, WatermarkOf;
    if line.parsed.Some? { LogPayloads(t, lines, n, line.parsed.value.eventId); }
  }

  lemma ContradictionMeaning(t: Tables, lines: seq<Line>, line: Line, n: nat)
    requires NothingIngested(t)
    ensures var before := AdmitAll(t, lines, n);
      Classify(before, line).Projected? && Disagrees(before, line.parsed.value) <==> Contradicts(lines, line)
  {
    var before := AdmitAll(t, lines, n);
    if line.parsed.Some? && line.parsed.value.AdherenceCheck? {
      var e := line.parsed.value;
      IngestIsAFold(t, lines, n);
      DisagreementMeaning(t, lines, n, e);
      hide AdmitAll, NothingIngested, Disagrees, HasId, Concerning, Fold, Records, InStep, Last;
      InStepMeans(before, FirstWrites(lines), SubjectRef(Agent, e.agentId));
      LatestIsLater(Own(lines, e.agentId), before, line);
    }
  }

  // The mismatch counter counts the valid lines that repeat an id with another payload than the first carrier's, and
  // the disagreement counter the checks that were projected against a contradicting state.
  lemma {:induction false} DiagnosticsAreTallies(t: Tables, lines: seq<Line>, n: nat)
    requires NothingIngested(t) && t.counters == map[]
    ensures var counters := AdmitAll(t, lines, n).counters;
      && Count(counters, DuplicatePayloadMismatch) == MismatchTally(lines)
      && Count(counters, StateDisagreements) == DisagreementTally(lines)
  {
    hide Admit, Classify, Disagrees, Contradicts, Mismatches;
    if lines != [] {
      var k := |lines| - 1;
      DiagnosticsAreTallies(t, lines[..k], n);
      AdmitDiagnoses(AdmitAll(t, lines[..k], n), lines[k], n + k);
      MismatchMeaning(t, lines[..k], lines[k], n);
      ContradictionMeaning(t, lines[..k], lines[k], n);
    }
  }
}
