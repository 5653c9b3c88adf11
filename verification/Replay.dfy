// The replay driver (app/cli/replay.py): clock interpolation, the persisted watermark, and resumption.
module Replay {
  import opened Base
  import opened Domain
  import opened Episodes
  import opened Incidents
  import opened Engine
  import opened Ingest
  import opened Scheduling
  import opened ScanRuns

  // The instants at which the clock ticks on its way from c to the target.
  function TickTimes(c: Time, target: Time, tick: int): seq<Time>
    requires tick > 0
    decreases target - c
  {
    if c + tick <= target then [c + tick] + TickTimes(c + tick, target, tick) else []
  }

  function Ticks(times: seq<Time>): (acts: seq<Act>)
    ensures |acts| == |times| && forall i | 0 <= i < |times| :: acts[i] == Tick(times[i])
  {
    seq(|times|, i requires 0 <= i < |times| => Tick(times[i]))
  }

  lemma FirstTick(c: Time, end: Time, tick: int)
    requires tick > 0 && c + tick <= end
    ensures Ticks(TickTimes(c, end, tick)) == [Tick(c + tick)] + Ticks(TickTimes(c + tick, end, tick))
  {
  }

  // A line at or after the clock is preceded by the ticks up to it and moves the clock; an older line is only read.
  function Script(c: Time, lines: seq<Line>, n: nat, tick: int): seq<Act>
    requires tick > 0
    decreases |lines|
  {
    if lines == [] then []
    else
      var line := lines[0];
      if line.ts >= c then
        Ticks(TickTimes(c, line.ts, tick)) + [Arrive(line, n)] + Script(line.ts, lines[1..], n + 1, tick)
      else
        [Arrive(line, n)] + Script(c, lines[1..], n + 1, tick)
  }

  function EndClock(c: Time, lines: seq<Line>): Time
    decreases |lines|
  {
    if lines == [] then c else EndClock(Max(c, lines[0].ts), lines[1..])
  }

  // Where the clock starts: the file's first timestamp, or the persisted watermark when that is later.
  function StartClock(t: Tables, lines: seq<Line>): Time
    requires lines != []
  {
    if t.watermark.Some? then Max(lines[0].ts, t.watermark.value) else lines[0].ts
  }

  ghost function Replay(t: Tables, lines: seq<Line>, tick: int): Effect
    requires tick > 0
  {
    if lines == [] then Effect(t, [])
    else
      var c := StartClock(t, lines);
      var e := RunActs(t, Script(c, lines, 1, tick), false);
      e.(t := e.t.(watermark := Some(EndClock(c, lines))))
  }

  /* ---------- Clock interpolation ---------- */

  // From c, stepping to T fires exactly floor((T - c) / tick) ticks, at c + tick, c + 2 tick, ..., and stops less
  // than one tick short of T.
  lemma {:induction false} TickTimesLaw(c: Time, target: Time, tick: int)
    requires tick > 0 && c <= target
    ensures var times := TickTimes(c, target, tick);
      && |times| == (target - c) / tick
      && (forall i | 0 <= i < |times| :: times[i] == c + (i + 1) * tick)
      && 0 <= target - (c + |times| * tick) < tick
    decreases target - c
  {
    if c + tick <= target {
      TickTimesLaw(c + tick, target, tick);
      var rest := TickTimes(c + tick, target, tick);
      forall i | 0 <= i < |TickTimes(c, target, tick)|
        ensures TickTimes(c, target, tick)[i] == c + (i + 1) * tick
      {
        if i > 0 {
          assert rest[i - 1] == (c + tick) + i * tick;
          assert (i + 1) * tick == i * tick + tick;
        }
      }
      assert (1 + |rest|) * tick == |rest| * tick + tick;
    }
    QuotientIs(target - c, tick, |TickTimes(c, target, tick)|);
  }

  lemma QuotientIs(a: int, d: int, q: int)
    requires d > 0 && 0 <= a - q * d < d
    ensures a / d == q
  {
    var k := a / d;
    assert a == k * d + a % d;
    if k > q { AtLeastOnce(k - q, d); }
    if k < q { AtLeastOnce(q - k, d); }
    assert (k - q) * d == k * d - q * d && (q - k) * d == q * d - k * d;
  }

  lemma AtLeastOnce(m: int, d: int)
    requires m >= 1 && d > 0
    ensures m * d >= d
  {
    assert m * d == (m - 1) * d + d;
  }

  // Forward gaps shorter than the tick interval produce no tick at all.
  ghost predicate GapsBelow(c: Time, lines: seq<Line>, tick: int)
    decreases |lines|
  {
    lines != [] ==> lines[0].ts - c < tick && GapsBelow(Max(c, lines[0].ts), lines[1..], tick)
  }

  function Arrivals(lines: seq<Line>, n: nat): seq<Act>
    decreases |lines|
  {
    if lines == [] then [] else [Arrive(lines[0], n)] + Arrivals(lines[1..], n + 1)
  }

  lemma {:induction false} DenseStreamsStarveTicks(c: Time, lines: seq<Line>, n: nat, tick: int)
    requires tick > 0
    ensures GapsBelow(c, lines, tick) <==> Script(c, lines, n, tick) == Arrivals(lines, n)
    decreases |lines|
  {
    if lines != [] {
      var line := lines[0];
      DenseStreamsStarveTicks(Max(c, line.ts), lines[1..], n + 1, tick);
      var head := if line.ts >= c then Ticks(TickTimes(c, line.ts, tick)) else [];
      var rest := Script(Max(c, line.ts), lines[1..], n + 1, tick);
      assert Script(c, lines, n, tick) == head + [Arrive(line, n)] + rest;
      if line.ts - c < tick {
        assert head == [];
        assert Script(c, lines, n, tick) == [Arrive(line, n)] + rest;
        assert ([Arrive(line, n)] + rest)[1..] == rest;
        assert Arrivals(lines, n)[1..] == Arrivals(lines[1..], n + 1);
      } else {
        assert head[0].Tick? && Script(c, lines, n, tick)[0] == head[0];
      }
    }
  }

  ghost predicate TicksWithin(acts: seq<Act>, low: Time, high: Time) {
    && (forall i | 0 <= i < |acts| :: acts[i].Tick? ==> low < acts[i].now <= high)
    && (forall i, j | 0 <= i < j < |acts| :: acts[i].Tick? && acts[j].Tick? ==> acts[i].now < acts[j].now)
  }

  lemma TicksConcat(a: seq<Act>, b: seq<Act>, low: Time, mid: Time, high: Time)
    requires low <= mid <= high && TicksWithin(a, low, mid) && TicksWithin(b, mid, high)
    ensures TicksWithin(a + b, low, high)
  {
    forall i, j | 0 <= i < j < |a + b| && (a + b)[i].Tick? && (a + b)[j].Tick?
      ensures (a + b)[i].now < (a + b)[j].now
    {
      if i < |a| <= j { assert (a + b)[i] == a[i] && (a + b)[j] == b[j - |a|]; }
      else if j >= |a| { assert (a + b)[i] == b[i - |a|] && (a + b)[j] == b[j - |a|]; }
    }
  }

  // Whatever the order of the lines, the engine's ticks strictly advance, from after the starting clock up to the
  // final one.
  lemma {:induction false} TicksNeverGoBack(c: Time, lines: seq<Line>, n: nat, tick: int)
    requires tick > 0
    ensures c <= EndClock(c, lines)
    ensures TicksWithin(Script(c, lines, n, tick), c, EndClock(c, lines))
    decreases |lines|
  {
    if lines != [] {
      var line := lines[0];
      var mid := Max(c, line.ts);
      TicksNeverGoBack(mid, lines[1..], n + 1, tick);
      var rest := Script(mid, lines[1..], n + 1, tick);
      if line.ts >= c {
        TickTimesLaw(c, line.ts, tick);
        var ticks := Ticks(TickTimes(c, line.ts, tick));
        assert TicksWithin(ticks, c, mid) by { TickSteps(c, line.ts, tick); }
        TicksConcat(ticks, [Arrive(line, n)], c, mid, mid);
        TicksConcat(ticks + [Arrive(line, n)], rest, c, mid, EndClock(c, lines));
      } else {
        TicksConcat([Arrive(line, n)], rest, c, mid, EndClock(c, lines));
      }
    }
  }

  lemma {:induction false} TickSteps(c: Time, target: Time, tick: int)
    requires tick > 0
    ensures TicksWithin(Ticks(TickTimes(c, target, tick)), c, Max(c, target))
    decreases target - c
  {
    if c + tick <= target {
      TickSteps(c + tick, target, tick);
      TicksConcat([Tick(c + tick)], Ticks(TickTimes(c + tick, target, tick)), c, c + tick, target);
      assert Ticks(TickTimes(c, target, tick)) == [Tick(c + tick)] + Ticks(TickTimes(c + tick, target, tick));
    }
  }

  /* ---------- Resumption ---------- */

  lemma {:induction false} RunActsSplit(t: Tables, a: seq<Act>, b: seq<Act>, everything: bool)
    ensures var first := RunActs(t, a, everything);
      var second := RunActs(first.t, b, everything);
      RunActs(t, a + b, everything) == Effect(second.t, first.sends + second.sends)
    decreases |a|
  {
    hide Do;
    if a == [] {
      assert a + b == b;
      assert [] + RunActs(t, b, everything).sends == RunActs(t, b, everything).sends;
    } else {
      var e := Do(t, a[0], everything);
      RunActsSplit(e.t, a[1..], b, everything);
      assert (a + b)[1..] == a[1..] + b && (a + b)[0] == a[0];
      var rest := RunActs(e.t, a[1..], everything);
      var second := RunActs(rest.t, b, everything);
      assert e.sends + (rest.sends + second.sends) == (e.sends + rest.sends) + second.sends;
    }
  }

  lemma {:induction false} ScriptSplit(c: Time, p: seq<Line>, s: seq<Line>, n: nat, tick: int)
    requires tick > 0
    ensures Script(c, p + s, n, tick) == Script(c, p, n, tick) + Script(EndClock(c, p), s, n + |p|, tick)
    ensures EndClock(c, p + s) == EndClock(EndClock(c, p), s)
    decreases |p|
  {
    if p == [] {
      assert p + s == s;
    } else {
      assert (p + s)[0] == p[0] && (p + s)[1..] == p[1..] + s;
      ScriptSplit(Max(c, p[0].ts), p[1..], s, n + 1, tick);
    }
  }

  lemma OneLine(c: Time, line: Line, n: nat, tick: int)
    requires tick > 0
    ensures Script(c, [line], n, tick) ==
      if line.ts >= c then Ticks(TickTimes(c, line.ts, tick)) + [Arrive(line, n)] else [Arrive(line, n)]
    ensures EndClock(c, [line]) == Max(c, line.ts)
  {
    hide Ticks, TickTimes;
    assert [line][1..] == [];
  }

  lemma OneAct(t: Tables, act: Act)
    ensures RunActs(t, [act], false) == Do(t, act, false)
  {
    hide Do;
    assert [act][1..] == [];
    assert Do(t, act, false).sends + [] == Do(t, act, false).sends;
  }

  lemma {:induction false} EndClockBounds(c: Time, lines: seq<Line>)
    ensures c <= EndClock(c, lines)
    ensures forall i | 0 <= i < |lines| :: lines[i].ts <= EndClock(c, lines)
    decreases |lines|
  {
    if lines != [] {
      EndClockBounds(Max(c, lines[0].ts), lines[1..]);
      forall i | 0 <= i < |lines| ensures lines[i].ts <= EndClock(c, lines) {
        if i > 0 { assert lines[i] == lines[1..][i - 1]; }
      }
    }
  }

  // Lines no later than the clock produce no ticks and leave the clock alone.
  lemma {:induction false} OldLinesDoNotTick(c: Time, lines: seq<Line>, n: nat, tick: int)
    requires tick > 0 && forall i | 0 <= i < |lines| :: lines[i].ts <= c
    ensures Script(c, lines, n, tick) == Arrivals(lines, n) && EndClock(c, lines) == c
    decreases |lines|
  {
    if lines != [] {
      assert forall i | 0 <= i < |lines[1..]| :: lines[1..][i] == lines[i + 1];
      OldLinesDoNotTick(c, lines[1..], n + 1, tick);
      assert lines[0].ts >= c ==> TickTimes(c, lines[0].ts, tick) == [];
      assert Ticks([]) + [Arrive(lines[0], n)] == [Arrive(lines[0], n)];
    }
  }

  // Every valid line has its id in the log.
  predicate AllLogged(log: map<string, EventRecord>, lines: seq<Line>) {
    forall i | 0 <= i < |lines| :: lines[i].parsed.Some? ==> lines[i].parsed.value.eventId in log
  }

  lemma DoKeepsLog(t: Tables, act: Act)
    ensures t.log.Keys <= Do(t, act, false).t.log.Keys
    ensures act.Arrive? && act.line.parsed.Some? ==> act.line.parsed.value.eventId in Do(t, act, false).t.log
  {
    hide CountersAfter, QueuesAfter, AgentsAfter, RunEvals;
    match act
    case Arrive(line, n) =>
      match Classify(t, line) {
        case Projected(ref, at) =>
          RunEvalsFrame(Admit(t, line, n), OrderOf(Affected(Admit(t, line, n), ref)), at, ByEvent);
        case _ =>
      }
    case Tick(now) => RunEvalsFrame(t, OrderOf(DueSet(t)), now, ByTick);
  }

  lemma {:induction false} RunKeepsLog(t: Tables, acts: seq<Act>)
    ensures var after := RunActs(t, acts, false).t;
      && t.log.Keys <= after.log.Keys
      && forall i | 0 <= i < |acts| :: acts[i].Arrive? && acts[i].line.parsed.Some?
           ==> acts[i].line.parsed.value.eventId in after.log
    decreases |acts|
  {
    hide Do;
    if acts != [] {
      DoKeepsLog(t, acts[0]);
      RunKeepsLog(Do(t, acts[0], false).t, acts[1..]);
      var after := RunActs(t, acts, false).t;
      forall i | 0 <= i < |acts| && acts[i].Arrive? && acts[i].line.parsed.Some?
        ensures acts[i].line.parsed.value.eventId in after.log
      {
        if i > 0 { assert acts[i] == acts[1..][i - 1]; }
        else { assert acts[0].line.parsed.value.eventId in Do(t, acts[0], false).t.log.Keys; }
      }
    }
  }

  lemma {:induction false} ScriptReadsEveryLine(c: Time, lines: seq<Line>, n: nat, tick: int, i: nat)
    requires tick > 0 && i < |lines|
    ensures Arrive(lines[i], n + i) in Script(c, lines, n, tick)
    decreases |lines|
  {
    var mid := Max(c, lines[0].ts);
    var rest := Script(mid, lines[1..], n + 1, tick);
    if i > 0 {
      ScriptReadsEveryLine(mid, lines[1..], n + 1, tick, i - 1);
      assert Arrive(lines[i], n + i) in rest;
    }
    assert Arrive(lines[0], n) in [Arrive(lines[0], n)];
  }

  lemma ReplayedLinesAreLogged(t: Tables, c: Time, lines: seq<Line>, n: nat, tick: int)
    requires tick > 0
    ensures AllLogged(RunActs(t, Script(c, lines, n, tick), false).t.log, lines)
  {
    var acts := Script(c, lines, n, tick);
    RunKeepsLog(t, acts);
    forall i | 0 <= i < |lines| && lines[i].parsed.Some?
      ensures lines[i].parsed.value.eventId in RunActs(t, acts, false).t.log
    {
      ScriptReadsEveryLine(c, lines, n, tick, i);
      var k :| 0 <= k < |acts| && acts[k] == Arrive(lines[i], n + i);
    }
  }

  function Mismatches(log: map<string, EventRecord>, lines: seq<Line>): nat {
    if lines == [] then 0
    else
      var line := lines[0];
      (if line.parsed.Some? && line.parsed.value.eventId in log
          && log[line.parsed.value.eventId].payload != line.payload then 1 else 0)
      + Mismatches(log, lines[1..])
  }

  function ValidCount(lines: seq<Line>): nat {
    if lines == [] then 0 else (if lines[0].parsed.Some? then 1 else 0) + ValidCount(lines[1..])
  }

  // What reading known lines again adds to each counter.
  function Reread(log: map<string, EventRecord>, lines: seq<Line>, name: Counter): int {
    match name
    case Duplicates => ValidCount(lines)
    case DuplicatePayloadMismatch => Mismatches(log, lines)
    case ValidationFailures => |lines| - ValidCount(lines)
    case _ => 0
  }

  // Tables equal but for the watermark and for counters that are ahead by a fixed amount.
  ghost predicate Ahead(a: Tables, b: Tables, lead: Counter -> int) {
    b == a.(counters := b.counters, watermark := b.watermark) && CountersAhead(a.counters, b.counters, lead)
  }

  ghost predicate CountersAhead(a: Counters, b: Counters, lead: Counter -> int) {
    forall name :: Count(b, name) == Count(a, name) + lead(name)
  }

  lemma BumpStaysAhead(a: Counters, b: Counters, lead: Counter -> int, name: Counter, k: nat)
    requires CountersAhead(a, b, lead)
    ensures CountersAhead(BumpBy(a, name, k), BumpBy(b, name, k), lead)
  {
    forall x ensures Count(BumpBy(b, name, k), x) == Count(BumpBy(a, name, k), x) + lead(x) {
      assert Count(b, x) == Count(a, x) + lead(x);
    }
  }

  lemma EvalsStayAhead(a: Tables, b: Tables, lead: Counter -> int, ps: seq<Pair>, now: Time, trigger: Trigger)
    requires Ahead(a, b, lead)
    ensures Ahead(RunEvals(a, ps, now, trigger).t, RunEvals(b, ps, now, trigger).t, lead)
    ensures RunEvals(a, ps, now, trigger).sends == RunEvals(b, ps, now, trigger).sends
  {
    hide RunEvals, CountersAhead, BumpBy;
    RunEvalsFrame(a, ps, now, trigger);
    RunEvalsFrame(b, ps, now, trigger);
    RunEvalsAreLocal(a, b, ps, now, trigger);
    BumpStaysAhead(a.counters, b.counters, lead, CounterOf(trigger), |ps|);
  }

  lemma SameSets(a: Tables, b: Tables)
    requires SameInputs(a, b) && a.ledger == b.ledger
    ensures DueSet(a) == DueSet(b)
    ensures forall ref :: Affected(a, ref) == Affected(b, ref)
  {
    assert forall rule :: Selected(a, rule) == Selected(b, rule);
  }

  lemma AdmitStaysAhead(a: Tables, b: Tables, lead: Counter -> int, line: Line, n: nat)
    requires Ahead(a, b, lead)
    ensures Classify(a, line) == Classify(b, line)
    ensures Ahead(Admit(a, line, n), Admit(b, line, n), lead)
  {
    IngestIsLocal(a, b, line, n);
    hide Classify, CountersAfter, LogAfter, QueuesAfter, AgentsAfter;
  }

  lemma DoStaysAhead(a: Tables, b: Tables, lead: Counter -> int, act: Act)
    requires Ahead(a, b, lead)
    ensures Ahead(Do(a, act, false).t, Do(b, act, false).t, lead)
    ensures Do(a, act, false).sends == Do(b, act, false).sends
  {
    hide RunEvals, CountersAhead;
    match act
    case Arrive(line, n) =>
      AdmitStaysAhead(a, b, lead, line, n);
      var x, y := Admit(a, line, n), Admit(b, line, n);
      SameSets(x, y);
      hide Admit;
      match Classify(a, line) {
        case Projected(ref, at) => EvalsStayAhead(x, y, lead, OrderOf(Affected(x, ref)), at, ByEvent);
        case _ =>
      }
    case Tick(now) =>
      SameSets(a, b);
      EvalsStayAhead(a, b, lead, OrderOf(DueSet(a)), now, ByTick);
  }

  lemma {:induction false} RunStaysAhead(a: Tables, b: Tables, lead: Counter -> int, acts: seq<Act>)
    requires Ahead(a, b, lead)
    ensures Ahead(RunActs(a, acts, false).t, RunActs(b, acts, false).t, lead)
    ensures RunActs(a, acts, false).sends == RunActs(b, acts, false).sends
    decreases |acts|
  {
    hide Do, Ahead;
    if acts != [] {
      DoStaysAhead(a, b, lead, acts[0]);
      RunStaysAhead(Do(a, acts[0], false).t, Do(b, acts[0], false).t, lead, acts[1..]);
    }
  }

  // Reading lines whose ids are all logged changes nothing but the duplicate and validation counters.
  lemma {:induction false} RereadingOnlyCounts(t: Tables, lines: seq<Line>, n: nat)
    requires AllLogged(t.log, lines)
    ensures var e := RunActs(t, Arrivals(lines, n), false);
      && e.sends == []
      && e.t.watermark == t.watermark
      && Ahead(t, e.t, name => Reread(t.log, lines, name))
    decreases |lines|
  {
    if lines != [] {
      var line := lines[0];
      var next := Do(t, Arrive(line, n), false);
      RereadOne(t, line, n);
      assert forall i | 0 <= i < |lines[1..]| :: lines[1..][i] == lines[i + 1];
      hide Do, Admit, Classify;
      RereadingOnlyCounts(next.t, lines[1..], n + 1);
      assert Arrivals(lines, n)[0] == Arrive(line, n) && Arrivals(lines, n)[1..] == Arrivals(lines[1..], n + 1);
      var last := RunActs(next.t, Arrivals(lines[1..], n + 1), false).t;
      hide RunActs;
      forall name ensures Count(last.counters, name) == Count(t.counters, name) + Reread(t.log, lines, name) {
        assert Count(last.counters, name) == Count(next.t.counters, name) + Reread(t.log, lines[1..], name);
        assert Count(next.t.counters, name) == Count(t.counters, name) + Reread(t.log, [line], name);
        RereadSplit(t.log, lines, name);
      }
    }
  }

  lemma RereadSplit(log: map<string, EventRecord>, lines: seq<Line>, name: Counter)
    requires lines != []
    ensures Reread(log, lines, name) == Reread(log, [lines[0]], name) + Reread(log, lines[1..], name)
  {
    var one := [lines[0]];
    assert one[1..] == [];
    assert ValidCount(one[1..]) == 0 && Mismatches(log, one[1..]) == 0;
    match name
    case Duplicates =>
    case DuplicatePayloadMismatch =>
    case ValidationFailures =>
    case _ =>
  }

  lemma RereadOne(t: Tables, line: Line, n: nat)
    requires line.parsed.Some? ==> line.parsed.value.eventId in t.log
    ensures var e := Do(t, Arrive(line, n), false);
      && e.sends == []
      && e.t == t.(counters := e.t.counters)
      && forall name :: Count(e.t.counters, name) == Count(t.counters, name) + Reread(t.log, [line], name)
  {
    assert [line][1..] == [];
    assert ValidCount([line][1..]) == 0 && Mismatches(t.log, [line][1..]) == 0;
    var c := t.counters;
    if line.parsed.None? {
      assert CountersAfter(t, line) == Bump(c, ValidationFailures);
    } else if t.log[line.parsed.value.eventId].payload != line.payload {
      assert CountersAfter(t, line) == Bump(Bump(c, Duplicates), DuplicatePayloadMismatch);
    } else {
      assert CountersAfter(t, line) == Bump(c, Duplicates);
    }
    hide CountersAfter;
    forall name ensures Count(CountersAfter(t, line), name) == Count(c, name) + Reread(t.log, [line], name) {}
  }

  // Replaying a prefix to completion and then the whole file into the same tables ends where one clean replay of the
  // whole file ends: same subject rows, event log, episodes, notifications, rules and watermark, and the same sends
  // (the order of the sends of one instant is the database's). Only the duplicate and validation-failure counters run
  // ahead, by the prefix's lines.
  lemma Resumption(t: Tables, p: seq<Line>, s: seq<Line>, tick: int)
    requires tick > 0
    ensures var clean := Replay(t, p + s, tick);
      var first := Replay(t, p, tick);
      var again := Replay(first.t, p + s, tick);
      && again.t == clean.t.(counters := again.t.counters)
      && multiset(first.sends) + multiset(again.sends) == multiset(clean.sends)
      && forall name :: Count(again.t.counters, name) == Count(clean.t.counters, name) + Reread(first.t.log, p, name)
  {
    if p == [] {
      assert p + s == s;
    } else {
      ResumptionAfterPrefix(t, p, s, tick);
      assert multiset(Replay(t, p, tick).sends + Replay(Replay(t, p, tick).t, p + s, tick).sends)
          == multiset(Replay(t, p + s, tick).sends);
    }
  }

  // With every set enumerated in one fixed order, even the order of the sends agrees.
  lemma ResumptionAfterPrefix(t: Tables, p: seq<Line>, s: seq<Line>, tick: int)
    requires tick > 0 && p != []
    ensures var clean := Replay(t, p + s, tick);
      var first := Replay(t, p, tick);
      var again := Replay(first.t, p + s, tick);
      && again.t == clean.t.(counters := again.t.counters)
      && first.sends + again.sends == clean.sends
      && forall name :: Count(again.t.counters, name) == Count(clean.t.counters, name) + Reread(first.t.log, p, name)
  {
    hide RunActs, Script, Do;
    var c := StartClock(t, p);
    var c1 := EndClock(c, p);
    assert (p + s)[0] == p[0];
    EndClockBounds(c, p);
    assert forall i | 0 <= i < |p| :: p[i].ts <= c1;
    // The clean run: the prefix's script, then the suffix's from the clock the prefix reached.
    ScriptSplit(c, p, s, 1, tick);
    var rest := Script(c1, s, 1 + |p|, tick);
    RunActsSplit(t, Script(c, p, 1, tick), rest, false);
    var mid := RunActs(t, Script(c, p, 1, tick), false);
    var tail := RunActs(mid.t, rest, false);
    // The second run: the prefix again, without ticks, then the same suffix script.
    var first := Replay(t, p, tick);
    assert first.t == mid.t.(watermark := Some(c1));
    assert StartClock(first.t, p + s) == c1;
    ScriptSplit(c1, p, s, 1, tick);
    OldLinesDoNotTick(c1, p, 1, tick);
    RunActsSplit(first.t, Arrivals(p, 1), rest, false);
    ReplayedLinesAreLogged(t, c, p, 1, tick);
    RereadingOnlyCounts(first.t, p, 1);
    var reread := RunActs(first.t, Arrivals(p, 1), false);
    var lead := name => Reread(first.t.log, p, name);
    assert Ahead(mid.t, reread.t, lead);
    RunStaysAhead(mid.t, reread.t, lead, rest);
    assert [] + RunActs(reread.t, rest, false).sends == RunActs(reread.t, rest, false).sends;
  }

  lemma NothingAdded<T>(m: multiset<T>, xs: seq<T>)
    ensures m + multiset(xs) == m ==> xs == []
  {
    if xs != [] { assert (m + multiset(xs))[xs[0]] > m[xs[0]]; }
  }

  // Replaying a file twice: nothing is evaluated or sent the second time.
  lemma ReplayingTwiceChangesNothing(t: Tables, lines: seq<Line>, tick: int)
    requires tick > 0
    ensures var once := Replay(t, lines, tick);
      var twice := Replay(once.t, lines, tick);
      && twice.t == once.t.(counters := twice.t.counters)
      && twice.sends == []
      && Count(twice.t.counters, EvaluationsEvent) == Count(once.t.counters, EvaluationsEvent)
      && Count(twice.t.counters, EvaluationsDue) == Count(once.t.counters, EvaluationsDue)
  {
    assert lines + [] == lines;
    Resumption(t, lines, [], tick);
    NothingAdded(multiset(Replay(t, lines, tick).sends), Replay(Replay(t, lines, tick).t, lines, tick).sends);
    assert Reread(Replay(t, lines, tick).t.log, lines, EvaluationsEvent) == 0;
    assert Reread(Replay(t, lines, tick).t.log, lines, EvaluationsDue) == 0;
  }
}
