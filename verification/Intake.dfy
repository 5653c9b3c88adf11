// What a replay takes in, whatever its ticks and evaluations do, and where its clock starts and ends
// (app/cli/replay.py:108-160).
module Intake {
  import opened Base
  import opened Domain
  import opened Episodes
  import opened Engine
  import opened Ingest
  import opened Scheduling
  import opened ScanRuns
  import opened Replay
  import opened Crashes

  /* ---------- Ingest under a replay ---------- */

  lemma EvaluationsTakeNothing(t: Tables, ps: seq<Pair>, now: Time, trigger: Trigger, b: Tables)
    requires SameIngest(t, b)
    ensures SameIngest(RunEvals(t, ps, now, trigger).t, b)
  {
    hide RunEvals;
    RunEvalsFrame(t, ps, now, trigger);
  }

  lemma TickTakesNothing(t: Tables, now: Time, b: Tables)
    requires SameIngest(t, b)
    ensures SameIngest(Do(t, Tick(now), false).t, b)
  {
    hide RunEvals, SameIngest, DueSet;
    EvaluationsTakeNothing(t, OrderOf(DueSet(t)), now, ByTick, b);
  }

  lemma ArrivalTakesLine(t: Tables, line: Line, n: nat, b: Tables)
    requires SameIngest(t, b)
    ensures SameIngest(Do(t, Arrive(line, n), false).t, Admit(b, line, n))
  {
    hide RunEvals, SameIngest, Admit, Affected;
    AdmitSame(t, b, line, n);
    match Classify(t, line)
    case Projected(ref, at) =>
      EvaluationsTakeNothing(Admit(t, line, n), OrderOf(Affected(Admit(t, line, n), ref)), at, ByEvent,
                             Admit(b, line, n));
    case _ =>
  }

  lemma {:induction false} TicksTakeNothing(t: Tables, acts: seq<Act>, b: Tables)
    requires SameIngest(t, b) && forall i | 0 <= i < |acts| :: acts[i].Tick?
    ensures SameIngest(RunActs(t, acts, false).t, b)
    decreases |acts|
  {
    hide Do, SameIngest;
    if acts != [] {
      TickTakesNothing(t, acts[0].now, b);
      assert forall i | 0 <= i < |acts[1..]| :: acts[1..][i] == acts[i + 1];
      TicksTakeNothing(Do(t, acts[0], false).t, acts[1..], b);
    }
  }

  lemma LineTakesLine(t: Tables, c: Time, line: Line, n: nat, tick: int, b: Tables)
    requires tick > 0 && SameIngest(t, b)
    ensures SameIngest(RunActs(t, Script(c, [line], n, tick), false).t, Admit(b, line, n))
  {
    hide Do, SameIngest, RunActs, Script, Admit, TickTimes;
    OneLine(c, line, n, tick);
    var ticks := Ticks(TickTimes(c, line.ts, tick));
    hide Ticks;
    if line.ts >= c {
      RunActsSplit(t, ticks, [Arrive(line, n)], false);
      TicksTakeNothing(t, ticks, b);
      OneAct(RunActs(t, ticks, false).t, Arrive(line, n));
      ArrivalTakesLine(RunActs(t, ticks, false).t, line, n, b);
    } else {
      OneAct(t, Arrive(line, n));
      ArrivalTakesLine(t, line, n, b);
    }
  }

  lemma {:induction false} ScriptTakesLines(t: Tables, c: Time, lines: seq<Line>, tick: int)
    requires tick > 0
    ensures SameIngest(RunActs(t, Script(c, lines, 1, tick), false).t, AdmitAll(t, lines, 1))
  {
    hide Do, SameIngest, RunActs, Admit;
    if lines == [] {
      assert RunActs(t, [], false).t == t by { NothingRuns(t); }
      IngestItself(t);
    } else {
      hide Script, EndClock;
      var k := |lines| - 1;
      var front := Script(c, lines[..k], 1, tick);
      assert lines == lines[..k] + [lines[k]];
      ScriptSplit(c, lines[..k], [lines[k]], 1, tick);
      ScriptTakesLines(t, c, lines[..k], tick);
      RunActsSplit(t, front, Script(EndClock(c, lines[..k]), [lines[k]], 1 + k, tick), false);
      LineTakesLine(RunActs(t, front, false).t, EndClock(c, lines[..k]), lines[k], 1 + k, tick,
                    AdmitAll(t, lines[..k], 1));
    }
  }

  lemma NothingRuns(t: Tables)
    ensures RunActs(t, [], false).t == t
  {
  }

  // A replay's subject rows, log and ingest counters are those of ingesting its lines in order, numbered from one.
  lemma ReplayIngests(t: Tables, lines: seq<Line>, tick: int)
    requires tick > 0
    ensures SameIngest(Replay.Replay(t, lines, tick).t, AdmitAll(t, lines, 1))
  {
    hide Script, RunActs, EndClock;
    if lines == [] {
      IngestItself(t);
    } else {
      ScriptTakesLines(t, StartClock(t, lines), lines, tick);
    }
    hide AdmitAll;
  }

  // So the books of a first replay balance, and its log holds the first carriers with their line numbers.
  lemma ReplayAccounts(t: Tables, lines: seq<Line>, tick: int)
    requires tick > 0 && NothingIngested(t) && t.counters == map[]
    ensures var after := Replay.Replay(t, lines, tick).t;
      && BooksBalance(BucketsOf(after.counters), |after.log|, lines, Callbacks(t, lines, 1))
      && LogAgrees(after.log, lines, 1)
  {
    hide AdmitAll, BooksBalance, LogAgrees, Replay.Replay, Callbacks;
    ReplayIngests(t, lines, tick);
    IngestAccounting(t, lines, 1);
    LogHoldsFirstPayloads(t, lines, 1);
    assert BucketsOf(Replay.Replay(t, lines, tick).t.counters) == BucketsOf(AdmitAll(t, lines, 1).counters);
  }

  /* ---------- The clock ---------- */

  lemma {:induction false} EndClockIsMax(c: Time, lines: seq<Line>)
    ensures c <= EndClock(c, lines) && forall i | 0 <= i < |lines| :: lines[i].ts <= EndClock(c, lines)
    ensures EndClock(c, lines) == c || exists i | 0 <= i < |lines| :: lines[i].ts == EndClock(c, lines)
    decreases |lines|
  {
    EndClockBounds(c, lines);
    if lines != [] {
      var next := Max(c, lines[0].ts);
      EndClockIsMax(next, lines[1..]);
      if EndClock(next, lines[1..]) != next {
        var i :| 0 <= i < |lines[1..]| && lines[1..][i].ts == EndClock(next, lines[1..]);
        assert lines[i + 1].ts == EndClock(c, lines);
      } else if next != c {
        assert lines[0].ts == EndClock(c, lines);
      }
    }
  }

  // Every tick of a replay is later than its first line and than the watermark on record; when the file starts at or
  // past the watermark its first line comes before any tick. The watermark it leaves is the latest of the one on
  // record and its lines' timestamps.
  lemma ReplayClock(t: Tables, lines: seq<Line>, tick: int)
    requires tick > 0 && lines != []
    ensures var acts := Script(StartClock(t, lines), lines, 1, tick);
      && (forall i | 0 <= i < |acts| && acts[i].Tick? ::
            acts[i].now > lines[0].ts && (t.watermark.Some? ==> acts[i].now > t.watermark.value))
      && ((t.watermark.Some? ==> t.watermark.value <= lines[0].ts) ==> acts != [] && acts[0] == Arrive(lines[0], 1))
    ensures var w := Replay.Replay(t, lines, tick).t.watermark;
      && w.Some? && (t.watermark.Some? ==> t.watermark.value <= w.value)
      && (forall i | 0 <= i < |lines| :: lines[i].ts <= w.value)
      && (w == t.watermark || exists i | 0 <= i < |lines| :: Some(lines[i].ts) == w)
  {
    hide RunActs;
    var c := StartClock(t, lines);
    TicksNeverGoBack(c, lines, 1, tick);
    EndClockIsMax(c, lines);
    if t.watermark.Some? ==> t.watermark.value <= lines[0].ts {
      FirstLineFirst(lines, tick);
    }
    hide Script;
    if EndClock(c, lines) == c && c == lines[0].ts { assert Some(lines[0].ts) == Some(EndClock(c, lines)); }
  }

  lemma FirstLineFirst(lines: seq<Line>, tick: int)
    requires tick > 0 && lines != []
    ensures var acts := Script(lines[0].ts, lines, 1, tick); acts != [] && acts[0] == Arrive(lines[0], 1)
  {
    assert TickTimes(lines[0].ts, lines[0].ts, tick) == [];
    assert Ticks([]) == [];
  }
}
