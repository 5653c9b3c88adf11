// Reading a file again after a replay that did not get to persist its watermark (app/cli/replay.py): the clock starts
// over, and every tick of the first pass is walked again over the final rows.
module Reruns {
  import opened Base
  import opened Domain
  import opened Facts
  import opened Rules
  import opened Evaluation
  import opened Episodes
  import opened Incidents
  import opened PairRuns
  import opened Engine
  import opened Ingest
  import opened Scheduling
  import opened ScanRuns
  import opened Replay
  import opened DueTime
  import opened Latency
  import opened Runs
  import opened Crashes

  /* ---------- Rows only move forward ---------- */

  function StateWeight(s: EpisodeState): nat {
    match s
    case Pending => 0
    case Open => 2
    case Clear => 8
  }

  // Grows with everything an evaluation can do to a row.
  function RowWeight(e: Episode): nat {
    4 * (e.suppressed + e.notifySeq) + StateWeight(e.state) + if e.stale then 1 else 0
  }

  function Weight(incs: seq<Incident>): nat {
    if incs == [] then 0 else Weight(incs[..|incs| - 1]) + 1 + RowWeight(incs[|incs| - 1].episode)
  }

  // Rows are never lost, closed rows never change, and the weight never falls.
  ghost predicate Forward(before: seq<Incident>, after: seq<Incident>) {
    && |before| <= |after| && Weight(before) <= Weight(after)
    && forall i | 0 <= i < |before| && !before[i].episode.Active() :: after[i] == before[i]
  }

  lemma ForwardItself(incs: seq<Incident>)
    ensures Forward(incs, incs)
  {
  }

  lemma ForwardTwice(a: seq<Incident>, b: seq<Incident>, c: seq<Incident>)
    requires Forward(a, b) && Forward(b, c)
    ensures Forward(a, c)
  {
  }

  lemma AdvanceGainsWeight(rule: Rule, e: Episode, reading: Reading)
    requires e.Valid() && e.Active() && (e.state.Pending? ==> e.notifySeq == 0)
    ensures var m := Advance(Some(e), reading.matched, reading.now, rule, e.id, reading.missing);
      && m.Moved?
      && (if reading.matched || !(e.stale && Unfounded(rule, reading.missing)) then RowWeight(m.episode) > RowWeight(e)
          else m.episode == e)
  {
    hide Unfounded;
  }

  lemma StepGoesForward(rule: Rule, p: Pair, rows: seq<Incident>, reading: Reading)
    requires RecipientAccepted(rule) && PairFits(rule, p, rows)
    ensures var step := StepPair(rule, p, rows, reading);
      && step.Some? && Forward(rows, step.value.incidents)
      && (step.value.incidents != rows ==> Weight(step.value.incidents) > Weight(rows))
      && (step.value.incidents == rows ==> step.value.sends == [])
  {
    hide StepPair, NotesFit, ActiveAt, Advance, Unfounded, RowWeight, Weight;
    StepShape(rule, p, rows, reading);
    StepChangesIff(rule, p, rows, reading);
    ActiveIsLast(rule, p, rows);
    var k, after := |rows| - 1, StepPair(rule, p, rows, reading).value.incidents;
    if GetActive(rows).Some? {
      RowAt(rule, p, rows, k);
      AdvanceGainsWeight(rule, rows[k].episode, reading);
      AdvanceIgnoresNewId(rows[k].episode, reading, rule, EpisodeId(p, |rows|));
      WeightOfLast(rows);
      WeightOfLast(after);
      assert after[..k] == rows[..k];
      if after == rows { assert |after[k].notes| == |rows[k].notes|; }
    } else if reading.matched {
      WeightOfLast(after);
      assert after[..|rows|] == rows;
    } else {
      NothingToSay(rule, EpisodeId(p, |rows|), reading);
    }
  }

  lemma NothingToSay(rule: Rule, id: EpisodeId, reading: Reading)
    requires !reading.matched
    ensures var m := Advance(None, reading.matched, reading.now, rule, id, reading.missing);
      m.Moved? && m.transitions == []
  {
  }

  lemma WeightOfLast(incs: seq<Incident>)
    requires incs != []
    ensures Weight(incs) == Weight(incs[..|incs| - 1]) + 1 + RowWeight(incs[|incs| - 1].episode)
  {
  }

  lemma EvaluationGoesForward(t: Tables, p: Pair, now: Time)
    requires Good(t)
    ensures var rows, o := RowsOf(t.ledger, p), EvalPair(t, p, now);
      && Forward(rows, o.incidents)
      && (Stirs(t, p, now) ==> Weight(o.incidents) > Weight(rows))
      && (!Stirs(t, p, now) ==> o.incidents == rows && o.sends == [])
  {
    hide StepPair, PairFits, ReadingFor, Forward, Weight, Stirs;
    TouchesIffStirs(t, p, now);
    var reading := ReadingFor(t, p, now);
    if reading.Some? {
      RowsFit(t, p);
      StepGoesForward(reading.value.0, p, RowsOf(t.ledger, p), reading.value.1);
    } else {
      ForwardItself(RowsOf(t.ledger, p));
    }
  }

  lemma {:induction false} EvalsGoForward(t: Tables, ps: seq<Pair>, now: Time, trigger: Trigger, p: Pair)
    requires Good(t)
    ensures Forward(RowsOf(t.ledger, p), RowsOf(RunEvals(t, ps, now, trigger).t.ledger, p))
    decreases |ps|
  {
    hide Good, Forward, EvalPair;
    if ps == [] {
      ForwardItself(RowsOf(t.ledger, p));
    } else {
      var next := EvaluateRule(t, ps[0], now, trigger).t;
      EvaluateShape(t, ps[0], now, trigger);
      EvaluationGoesForward(t, ps[0], now);
      ForwardItself(RowsOf(t.ledger, p));
      EvaluateKeepsGood(t, ps[0], now, trigger);
      hide EvaluateRule, RowsOf;
      EvalsGoForward(next, ps[1..], now, trigger, p);
      ForwardTwice(RowsOf(t.ledger, p), RowsOf(next.ledger, p),
                   RowsOf(RunEvals(next, ps[1..], now, trigger).t.ledger, p));
    }
  }

  lemma AdmitLeavesLedger(t: Tables, line: Line, n: nat)
    ensures Admit(t, line, n).ledger == t.ledger && Admit(t, line, n).rules == t.rules
    ensures Admit(t, line, n).watermark == t.watermark
  {
  }

  lemma DoGoesForward(t: Tables, act: Act, p: Pair)
    requires Good(t)
    ensures var after := Do(t, act, false).t;
      Good(after) && Forward(RowsOf(t.ledger, p), RowsOf(after.ledger, p))
  {
    hide Good, Forward, RunEvals, Admit, RowsOf;
    match act
    case Arrive(line, n) =>
      var admitted := Admit(t, line, n);
      AdmitKeepsGood(t, line, n);
      AdmitLeavesLedger(t, line, n);
      match Classify(t, line) {
        case Projected(ref, at) =>
          RunEvalsKeepsGood(admitted, OrderOf(Affected(admitted, ref)), at, ByEvent);
          EvalsGoForward(admitted, OrderOf(Affected(admitted, ref)), at, ByEvent, p);
        case _ => ForwardItself(RowsOf(t.ledger, p));
      }
    case Tick(now) =>
      RunEvalsKeepsGood(t, OrderOf(DueSet(t)), now, ByTick);
      EvalsGoForward(t, OrderOf(DueSet(t)), now, ByTick, p);
  }

  // Over any run rows only move forward.
  lemma {:induction false} RunGoesForward(t: Tables, acts: seq<Act>, p: Pair)
    requires Good(t)
    ensures var after := RunActs(t, acts, false).t;
      Good(after) && Forward(RowsOf(t.ledger, p), RowsOf(after.ledger, p))
    decreases |acts|
  {
    hide Good, Forward, Do, RowsOf;
    if acts == [] {
      ForwardItself(RowsOf(t.ledger, p));
    } else {
      var next := Do(t, acts[0], false).t;
      DoGoesForward(t, acts[0], p);
      RunGoesForward(next, acts[1..], p);
      ForwardTwice(RowsOf(t.ledger, p), RowsOf(next.ledger, p),
                   RowsOf(RunActs(next, acts[1..], false).t.ledger, p));
    }
  }

  /* ---------- When a rerun changes nothing ---------- */

  // Every valid line that arrives has its id in the log.
  predicate ArrivalsLogged(log: map<string, EventRecord>, acts: seq<Act>) {
    forall i | 0 <= i < |acts| && acts[i].Arrive? && acts[i].line.parsed.Some? ::
      acts[i].line.parsed.value.eventId in log
  }

  // No tick would stir a due pair.
  ghost predicate Quiet(t: Tables, acts: seq<Act>) {
    forall i, p | 0 <= i < |acts| && acts[i].Tick? && p in DueSet(t) :: !Stirs(t, p, acts[i].now)
  }

  lemma QuietTick(t: Tables, now: Time)
    requires Good(t) && forall p | p in DueSet(t) :: !Stirs(t, p, now)
    ensures var e := OnTick(t, now); e.t == t.(counters := e.t.counters) && e.sends == []
  {
    hide Good, EvalPair, Stirs, RowsOf, DueSet, TickOver;
    TickRows(t, DueSet(t), now);
    var after := TickOver(t, DueSet(t), now).t.ledger;
    forall p
      ensures RowsOf(after, p) == RowsOf(t.ledger, p)
      ensures p in DueSet(t) ==> !Touches(t, p, now)
    {
      TickRowAt(t, DueSet(t), now, p);
      if p in DueSet(t) { EvaluationGoesForward(t, p, now); }
    }
    assert after.Keys == t.ledger.Keys;
    SameLedger(after, t.ledger);
    forall p | p in OrderOf(DueSet(t)) ensures EvalPair(t, p, now).sends == [] {
      assert p in Elements(OrderOf(DueSet(t)));
      EvaluationGoesForward(t, p, now);
    }
    SilentPairs(t, OrderOf(DueSet(t)), now);
  }

  lemma {:induction false} SilentPairs(t: Tables, ps: seq<Pair>, now: Time)
    requires forall p | p in ps :: EvalPair(t, p, now).sends == []
    ensures SendsOf(t, ps, now) == []
  {
    hide EvalPair;
    if ps != [] {
      assert ps[0] in ps;
      SilentPairs(t, ps[1..], now);
    }
  }

  lemma StirredTick(t: Tables, now: Time, p: Pair)
    requires Good(t) && p in DueSet(t) && Stirs(t, p, now)
    ensures Weight(RowsOf(OnTick(t, now).t.ledger, p)) > Weight(RowsOf(t.ledger, p))
  {
    hide Good, EvalPair, Stirs, RowsOf, DueSet, Weight, Forward;
    TickRowAt(t, DueSet(t), now, p);
    EvaluationGoesForward(t, p, now);
  }

  // Nothing an evaluation or the scan reads depends on the counters.
  lemma CountersDoNotStir(t: Tables, c: Counters)
    ensures var u := t.(counters := c);
      DueSet(u) == DueSet(t) && forall p, now :: Stirs(u, p, now) == Stirs(t, p, now)
  {
    var u := t.(counters := c);
    SameSets(t, u);
    assert forall kind, id :: StateFor(u, kind, id) == StateFor(t, kind, id);
  }

  lemma LoggedArrival(t: Tables, line: Line, n: nat)
    requires line.parsed.Some? ==> line.parsed.value.eventId in t.log
    ensures var e := Do(t, Arrive(line, n), false); e.t == t.(counters := e.t.counters) && e.sends == []
  {
    RereadOne(t, line, n);
  }

  lemma FirstActUnfolds(t: Tables, acts: seq<Act>)
    requires acts != []
    ensures var first := Do(t, acts[0], false);
      var rest := RunActs(first.t, acts[1..], false);
      RunActs(t, acts, false) == Effect(rest.t, first.sends + rest.sends)
  {
    hide Do;
  }

  // Reading logged lines again, ticks included, changes only counters if and only if no tick would stir a due pair
  // of the tables as they are; and then nothing is sent.
  lemma {:induction false} RereadUnchangedIff(t: Tables, acts: seq<Act>)
    requires Good(t) && ArrivalsLogged(t.log, acts)
    ensures var e := RunActs(t, acts, false);
      && (Quiet(t, acts) ==> e.t == t.(counters := e.t.counters) && e.sends == [])
      && (!Quiet(t, acts) ==> e.t.ledger != t.ledger)
    decreases |acts|
  {
    hide Good, Do, Stirs, DueSet, OnTick, RunActs;
    if acts == [] {
      assert RunActs(t, acts, false) == Effect(t, []) by { RunNoActs(t); }
    } else {
      FirstActUnfolds(t, acts);
      var first, rest := Do(t, acts[0], false), acts[1..];
      assert forall i | 0 <= i < |rest| :: rest[i] == acts[i + 1];
      if acts[0].Tick? && exists p :: p in DueSet(t) && Stirs(t, p, acts[0].now) {
        var p :| p in DueSet(t) && Stirs(t, p, acts[0].now);
        assert first == OnTick(t, acts[0].now) by { DoTick(t, acts[0].now); }
        StirredTick(t, acts[0].now, p);
        DoGoesForward(t, acts[0], p);
        RunGoesForward(first.t, rest, p);
      } else {
        if acts[0].Tick? {
          QuietTick(t, acts[0].now);
          assert first == OnTick(t, acts[0].now) by { DoTick(t, acts[0].now); }
        } else {
          LoggedArrival(t, acts[0].line, acts[0].seqNo);
        }
        CountersDoNotStir(t, first.t.counters);
        assert first.t == t.(counters := first.t.counters);
        assert Quiet(t, acts) <==> Quiet(first.t, rest) by { QuietTail(t, first.t, acts); }
        assert Good(first.t) by { DoGoesForward(t, acts[0], Pair("", "")); }
        RereadUnchangedIff(first.t, rest);
      }
    }
  }

  lemma RunNoActs(t: Tables)
    ensures RunActs(t, [], false) == Effect(t, [])
  {
  }

  lemma DoTick(t: Tables, now: Time)
    ensures Do(t, Tick(now), false) == OnTick(t, now)
  {
  }

  lemma QuietTail(t: Tables, u: Tables, acts: seq<Act>)
    requires acts != [] && DueSet(u) == DueSet(t) && forall p, now :: Stirs(u, p, now) == Stirs(t, p, now)
    requires acts[0].Tick? ==> forall p | p in DueSet(t) :: !Stirs(t, p, acts[0].now)
    ensures Quiet(t, acts) <==> Quiet(u, acts[1..])
  {
    hide Stirs, DueSet;
    var rest := acts[1..];
    assert forall i | 0 <= i < |rest| :: rest[i] == acts[i + 1];
    if Quiet(u, rest) {
      forall i, p | 0 <= i < |acts| && acts[i].Tick? && p in DueSet(t) ensures !Stirs(t, p, acts[i].now) {
        if i > 0 { assert rest[i - 1] == acts[i]; }
      }
    }
  }

  lemma {:induction false} ScriptLogged(log: map<string, EventRecord>, c: Time, lines: seq<Line>, n: nat, tick: int)
    requires tick > 0 && AllLogged(log, lines)
    ensures ArrivalsLogged(log, Script(c, lines, n, tick))
    decreases |lines|
  {
    if lines != [] {
      assert forall i | 0 <= i < |lines[1..]| :: lines[1..][i] == lines[i + 1];
      ScriptLogged(log, Max(c, lines[0].ts), lines[1..], n + 1, tick);
    }
  }

  // A file whose valid ids are all logged, replayed again from whatever watermark is on record, leaves the episodes
  // and notifications as they are if and only if none of its ticks would stir a due pair of the tables as they are.
  lemma RerunUnchangedIff(t: Tables, lines: seq<Line>, tick: int)
    requires tick > 0 && Good(t) && lines != [] && AllLogged(t.log, lines)
    ensures var acts := Script(StartClock(t, lines), lines, 1, tick);
      var e := Replay.Replay(t, lines, tick);
      && (e.t.ledger == t.ledger <==> Quiet(t, acts))
      && (Quiet(t, acts) ==> e.t == t.(counters := e.t.counters, watermark := e.t.watermark) && e.sends == [])
  {
    hide Script, RunActs, Quiet, Good, EndClock;
    ScriptLogged(t.log, StartClock(t, lines), lines, 1, tick);
    RereadUnchangedIff(t, Script(StartClock(t, lines), lines, 1, tick));
  }

  // In particular when the watermark is at or past every line: then there is no tick at all, and the counters grow by
  // what re-reading adds.
  lemma RerunBehindWatermark(t: Tables, lines: seq<Line>, tick: int)
    requires tick > 0 && lines != [] && AllLogged(t.log, lines)
    requires t.watermark.Some? && forall i | 0 <= i < |lines| :: lines[i].ts <= t.watermark.value
    ensures var e := Replay.Replay(t, lines, tick);
      && e.t == t.(counters := e.t.counters) && e.sends == []
      && forall name :: Count(e.t.counters, name) == Count(t.counters, name) + Reread(t.log, lines, name)
  {
    hide Script, RunActs, Arrivals;
    var c := StartClock(t, lines);
    assert lines[0].ts <= t.watermark.value;
    OldLinesDoNotTick(c, lines, 1, tick);
    RereadingOnlyCounts(t, lines, 1);
  }

  /* ---------- What a rerun can do ---------- */

  // A tick on an open episode sends RESOLVED if and only if the rule is read, does not match, and no declared fact is
  // missing; the episode is then closed at the tick's instant, however much later it opened.
  lemma TickResolvesIff(t: Tables, p: Pair, now: Time)
    requires Good(t) && HasActive(t, p) && GetActive(RowsOf(t.ledger, p)).value.state.Open?
    ensures var rows, o, reading := RowsOf(t.ledger, p), EvalPair(t, p, now), ReadingFor(t, p, now);
      && ((exists n :: n in o.sends && n.transition.Resolved?)
          <==> reading.Some? && !reading.value.1.matched && !Unfounded(reading.value.0, reading.value.1.missing))
      && ((exists n :: n in o.sends && n.transition.Resolved?) ==>
            ClosedAt(o.incidents, |rows| - 1, now, rows[|rows| - 1].episode.openedAt))
  {
    hide StepPair, NotesFit, ReadingFor, ActiveAt, Unfounded;
    var reading, rows := ReadingFor(t, p, now), RowsOf(t.ledger, p);
    if reading.Some? {
      RowsFit(t, p);
      StepShape(reading.value.0, p, rows, reading.value.1);
      ActiveIsLast(reading.value.0, p, rows);
      RowAt(reading.value.0, p, rows, |rows| - 1);
      var m := AdvanceOf(reading.value.0, p, rows, reading.value.1);
      var sends := NotesOf(reading.value.0, p.subject, m, reading.value.1);
      if m.transitions == [Resolved] { assert sends[0] in sends; }
    }
  }

  // The last row is row k, closed at the instant with a RESOLVED notification, and had opened at the other.
  predicate ClosedAt(rows: seq<Incident>, k: int, at: Time, start: Option<Time>) {
    && k >= 0 && |rows| == k + 1
    && rows[k].episode.state.Clear? && rows[k].episode.closedAt == Some(at) && rows[k].episode.openedAt == start
    && exists n :: n in rows[k].notes && n.transition.Resolved? && n.at == at
  }

  /* ---------- Killed before the watermark ---------- */

  // snapshot_age_sec > 60, notified at once and once.
  const AGING: Rule :=
    Rule("", Queue, All, [Condition(SnapshotAgeSec, Gt, Literal(Num(60.0)))], 0, 0, Recipient(Author, None), [], "")

  const ONE_RULE: Tables := Tables(map["r" := RuleRecord(AGING, true, 1)], map[], map[], map[], map[], map[], None)

  const AGED: Pair := Pair("r", "q")

  // A snapshot of the queue at zero, and a line a thousand seconds later.
  const FEED: seq<Line> :=
    [Line(0, "a", Some(QueueSnapshot("1", 0, "q", 0, 0, 0, 0, 0, 0, None))), Line(1000 * SECOND, "b", None)]

  const HALF_MINUTE: int := 30 * SECOND

  // The queue was last heard of at zero, and the rule is the only one.
  ghost predicate Silent(t: Tables) {
    Good(t) && t.rules == ONE_RULE.rules && "q" in t.queues && t.queues["q"].lastEventTs == 0
  }

  lemma AgingReading(t: Tables, now: Time)
    requires Silent(t)
    ensures var r := ReadingFor(t, AGED, now);
      && r.Some? && r.value.0 == AGING && r.value.1.now == now
      && (r.value.1.matched <==> now > 60 * SECOND) && !Unfounded(AGING, r.value.1.missing)
  {
    hide EvaluateAll, Render, PairFits;
    var state := QueueRow(t.queues["q"]);
    assert ConditionAccepted(Queue, AGING.conditions[0]);
    assert Accepted(AGING);
    TypeSoundness(AGING, state, now, "q");
    MatchedMeaning(AGING.conditions, state, now);
    MissingMeaning(AGING.conditions, state, now);
    MissingFactsAreDriving(AGING, state, now);
    forall f | f in Declared(AGING.conditions) ensures !ValueOf(f, state, now).Missing? {
      assert f == SnapshotAgeSec;
    }
    assert Holds(AGING.conditions[0], state, now) <==> now > 60 * SECOND;
  }

  lemma OneRuleIsGood()
    ensures Good(ONE_RULE)
  {
    assert ConditionAccepted(Queue, AGING.conditions[0]);
    assert Accepted(AGING);
  }

  lemma AgedIsTicked(t: Tables)
    requires Silent(t)
    ensures Ticked(t, AGED, 0)
  {
    hide Good;
    assert AGING.conditions[0] in AGING.conditions;
  }

  lemma AgedMatchesFrom(t: Tables, c: Time, end: Time)
    requires Silent(t)
    ensures MatchesFrom(t, AGED, c, end, 60 * SECOND + 1)
  {
    hide Silent, ReadingFor;
    forall now ensures MatchesNow(t, AGED, now) <==> now > 60 * SECOND {
      AgingReading(t, now);
    }
  }

  // After the first line: the queue is known and nothing has happened.
  lemma FirstLine()
    ensures var t := IngestLine(ONE_RULE, FEED[0], 1).t;
      Silent(t) && t.watermark.None? && "1" in t.log && RowsOf(t.ledger, AGED) == []
  {
    hide ReadingFor, EvalPair, PairFits, Accepted, Affected;
    OneRuleIsGood();
    var t := Admit(ONE_RULE, FEED[0], 1);
    AdmitKeepsGood(ONE_RULE, FEED[0], 1);
    assert Classify(ONE_RULE, FEED[0]) == Projected(SubjectRef(Queue, "q"), 0);
    assert Silent(t);
    hide Admit, Classify, Good;
    var ps := OrderOf(Affected(t, SubjectRef(Queue, "q")));
    RunEvalsFrame(t, ps, 0, ByEvent);
    RunEvalsRows(t, ps, 0, ByEvent, AGED);
    RunEvalsKeepsGood(t, ps, 0, ByEvent);
    AgingReading(t, 0);
    EvaluationEffect(t, AGED, 0);
  }

  lemma TickKeepsInputs(t: Tables, now: Time)
    requires Good(t)
    ensures var after := OnTick(t, now).t;
      after == t.(ledger := after.ledger, counters := after.counters) && Good(after)
  {
    hide Good, RunEvals, DueSet;
    TickRows(t, DueSet(t), now);
    RunEvalsKeepsGood(t, OrderOf(DueSet(t)), now, ByTick);
  }

  lemma {:induction false} TicksKeepInputs(t: Tables, c: Time, end: Time, tick: int)
    requires tick > 0 && Good(t)
    ensures var after := RunActs(t, Ticks(TickTimes(c, end, tick)), false).t;
      after == t.(ledger := after.ledger, counters := after.counters) && Good(after)
    decreases end - c
  {
    hide Good, OnTick, RunActs, TickTimes, Ticks;
    TicksUnfold(t, c, end, tick);
    if c + tick <= end {
      TickKeepsInputs(t, c + tick);
      TicksKeepInputs(OnTick(t, c + tick).t, c + tick, end, tick);
    }
  }

  // A silent queue without an active episode, ticked from c to the thousandth second: an episode opens once the
  // snapshot is more than a minute old.
  lemma GapOpens(t: Tables, c: Time)
    requires Silent(t) && !HasActive(t, AGED) && 0 <= c <= 60 * SECOND
    ensures var after := RunActs(t, Ticks(TickTimes(c, 1000 * SECOND, HALF_MINUTE)), false).t;
      && Silent(after) && after == t.(ledger := after.ledger, counters := after.counters)
      && exists at | 60 * SECOND < at <= 90 * SECOND ::
           OpenSince(RowsOf(after.ledger, AGED), |RowsOf(t.ledger, AGED)|, at)
  {
    hide RunActs, Ticks, TickTimes, Good, MatchesFrom, Ticked, HasActive, OpenSince;
    AgedIsTicked(t);
    AgedMatchesFrom(t, c, 1000 * SECOND);
    TicksKeepInputs(t, c, 1000 * SECOND, HALF_MINUTE);
    var at := OpensInTime(t, AGED, 0, c, 1000 * SECOND, HALF_MINUTE, 60 * SECOND + 1);
  }

  lemma FeedActs()
    ensures Script(0, FEED, 1, HALF_MINUTE) == [Arrive(FEED[0], 1)]
      + (Ticks(TickTimes(0, 1000 * SECOND, HALF_MINUTE)) + [Arrive(FEED[1], 2)])
  {
    hide Script, Ticks;
    OneLine(0, FEED[0], 1, HALF_MINUTE);
    OneLine(0, FEED[1], 2, HALF_MINUTE);
    ScriptSplit(0, [FEED[0]], [FEED[1]], 1, HALF_MINUTE);
    assert FEED == [FEED[0]] + [FEED[1]];
    assert TickTimes(0, 0, HALF_MINUTE) == [];
    assert Ticks([]) == [];
  }

  // One pass over the feed: its first line, the gap, its last line.
  lemma FeedPass(t: Tables)
    ensures var first := Do(t, Arrive(FEED[0], 1), false).t;
      var gap := RunActs(first, Ticks(TickTimes(0, 1000 * SECOND, HALF_MINUTE)), false).t;
      RunActs(t, Script(0, FEED, 1, HALF_MINUTE), false).t == Do(gap, Arrive(FEED[1], 2), false).t
  {
    hide Do, RunActs, Script, Ticks, TickTimes;
    var ticks := Ticks(TickTimes(0, 1000 * SECOND, HALF_MINUTE));
    FeedActs();
    OneAct(t, Arrive(FEED[0], 1));
    var first := Do(t, Arrive(FEED[0], 1), false).t;
    RunActsSplit(t, [Arrive(FEED[0], 1)], ticks + [Arrive(FEED[1], 2)], false);
    RunActsSplit(first, ticks, [Arrive(FEED[1], 2)], false);
    OneAct(RunActs(first, ticks, false).t, Arrive(FEED[1], 2));
  }

  // What is durable when the replay of the feed is killed before it writes its watermark.
  ghost function Killed(): Tables {
    RunActs(ONE_RULE, Script(0, FEED, 1, HALF_MINUTE), false).t
  }

  lemma KilledState()
    ensures Silent(Killed()) && Killed().watermark.None? && AllLogged(Killed().log, FEED)
    ensures exists at | 60 * SECOND < at <= 90 * SECOND :: OpenSince(RowsOf(Killed().ledger, AGED), 0, at)
  {
    hide RunActs, Script, Ticks, TickTimes, OpenSince, IngestLine, Good;
    FirstLine();
    FeedPass(ONE_RULE);
    var first := IngestLine(ONE_RULE, FEED[0], 1).t;
    GapOpens(first, 0);
    var gap := RunActs(first, Ticks(TickTimes(0, 1000 * SECOND, HALF_MINUTE)), false).t;
    LoggedArrival(gap, FEED[1], 2);
    CountersStaySilent(gap, Killed().counters);
  }

  lemma CountersStaySilent(t: Tables, c: Counters)
    requires Silent(t)
    ensures Silent(t.(counters := c))
  {
    Runs.CountersKeepGood(t, c);
  }

  // The first tick of the rerun, half a minute in: the open episode is closed as recovered.
  lemma FirstTickResolves(t: Tables, at: Time)
    requires Silent(t) && OpenSince(RowsOf(t.ledger, AGED), 0, at)
    ensures var after := OnTick(t, HALF_MINUTE).t;
      && Silent(after) && !HasActive(after, AGED)
      && |RowsOf(after.ledger, AGED)| == 1 && ClosedAt(RowsOf(after.ledger, AGED), 0, HALF_MINUTE, Some(at))
  {
    hide OnTick, EvalPair, ReadingFor, Good, Ticked, ActiveAt;
    AgedIsTicked(t);
    TickEvaluates(t, AGED, 0, HALF_MINUTE);
    TickKeepsInputs(t, HALF_MINUTE);
    AgingReading(t, HALF_MINUTE);
    RowsFit(t, AGED);
    ActiveIsLast(AGING, AGED, RowsOf(t.ledger, AGED));
    TickResolvesIff(t, AGED, HALF_MINUTE);
    RowsFit(OnTick(t, HALF_MINUTE).t, AGED);
    ActiveIsLast(AGING, AGED, RowsOf(OnTick(t, HALF_MINUTE).t.ledger, AGED));
  }

  // Run again, the same feed walks its ticks over the final rows: thirty seconds in, the episode of the first pass is
  // reported recovered, before it opened, and later a second episode opens for the same silence. Nothing was lost but
  // the watermark.
  lemma KilledReplayReopens()
    ensures exists at | 60 * SECOND < at <= 90 * SECOND :: OpenSince(RowsOf(Killed().ledger, AGED), 0, at)
    ensures var rows := RowsOf(Replay.Replay(Killed(), FEED, HALF_MINUTE).t.ledger, AGED);
      && |rows| == 2
      && ClosedAt(rows[..1], 0, HALF_MINUTE, rows[0].episode.openedAt)
      && rows[0].episode.openedAt.Some? && rows[0].episode.openedAt.value > 60 * SECOND
      && rows[1].episode.state.Open? && rows[1].notes != [] && rows[1].notes[0].transition.Opened?
  {
    hide RunActs, Script, Ticks, TickTimes, IngestLine, Good, OnTick, Killed, ClosedAt, HasActive, EndClock;
    KilledState();
    var at: Time :| 60 * SECOND < at <= 90 * SECOND && OpenSince(RowsOf(Killed().ledger, AGED), 0, at);
    FeedPass(Killed());
    LoggedArrival(Killed(), FEED[0], 1);
    var first := Do(Killed(), Arrive(FEED[0], 1), false).t;
    CountersStaySilent(Killed(), first.counters);
    // The gap again: its first tick, then the others.
    TicksUnfold(first, 0, 1000 * SECOND, HALF_MINUTE);
    FirstTickResolves(first, at);
    var ticked := OnTick(first, HALF_MINUTE).t;
    GapOpens(ticked, HALF_MINUTE);
    var rest := Ticks(TickTimes(HALF_MINUTE, 1000 * SECOND, HALF_MINUTE));
    RunGoesForward(ticked, rest, AGED);
    var gap := RunActs(ticked, rest, false).t;
    LoggedArrival(gap, FEED[1], 2);
    ReopenedRows(ticked, gap, at);
  }

  lemma ReopenedRows(before: Tables, after: Tables, at: Time)
    requires ClosedAt(RowsOf(before.ledger, AGED), 0, HALF_MINUTE, Some(at)) && Silent(after)
    requires Forward(RowsOf(before.ledger, AGED), RowsOf(after.ledger, AGED))
    requires exists late :: OpenSince(RowsOf(after.ledger, AGED), 1, late)
    ensures var rows := RowsOf(after.ledger, AGED);
      && |rows| == 2 && ClosedAt(rows[..1], 0, HALF_MINUTE, Some(at)) && rows[0].episode.openedAt == Some(at)
      && rows[1].episode.state.Open? && rows[1].notes != [] && rows[1].notes[0].transition.Opened?
  {
    hide Good;
    var rows := RowsOf(after.ledger, AGED);
    RowsFit(after, AGED);
    RowAt(AGING, AGED, rows, 1);
    assert rows[..1] == RowsOf(before.ledger, AGED);
  }
}
