// What a crash costs: sending is at most once, evaluation after ingest is at most once, and ingest itself is not
// affected by when and how often evaluations run or die.
module Crashes {
  import opened Base
  import opened Domain
  import opened Rules
  import opened Episodes
  import opened Incidents
  import opened PairRuns
  import opened Engine
  import opened Ingest
  import opened Scheduling
  import opened ScanRuns
  import opened Runs

  /* ---------- Lost deliveries ---------- */

  // Nothing the channel received carries the notification's key.
  ghost predicate Missed(sent: seq<Delivery>, channel: nat, n: Notification) {
    forall d | d in sent && d.channel == channel :: KeyOf(d.note) != KeyOf(n)
  }

  lemma {:induction false} DeliveredNotes(notes: seq<Notification>, channels: nat, d: Delivery)
    ensures d in Deliveries(notes, channels) ==> d.note in notes
  {
    if notes != [] { DeliveredNotes(notes[1..], channels, d); }
  }

  lemma EvaluationRetainsAll(t: Tables, p: Pair, now: Time, trigger: Trigger, n: Notification)
    requires Good(t) && Committed(t.ledger, n)
    ensures Committed(EvaluateRule(t, p, now, trigger).t.ledger, n)
  {
    var q := n.episode.pair;
    EvaluationRetains(t, p, now);
    EvaluateShape(t, p, now, trigger);
    RetainsItself(RowsOf(t.ledger, q));
    hide EvaluateRule, EvalPair, Retains;
    CommittedStays(t.ledger, EvaluateRule(t, p, now, trigger).t.ledger, n);
  }

  lemma NothingIsResent(w: World, s: Step, channels: nat, channel: nat, n: Notification)
    requires Good(w.t) && Committed(w.t.ledger, n) && Missed(w.sent, channel, n)
    ensures var after := Apply(w, s, channels);
      Committed(after.t.ledger, n) && Missed(after.sent, channel, n)
  {
    hide Committed, Good;
    match s
    case Evaluation(p, now, trigger, cut) =>
      EvaluationRetains(w.t, p, now);
      EvaluationRetainsAll(w.t, p, now, trigger, n);
      var sends := EvalPair(w.t, p, now).sends;
      hide EvalPair, Deliveries;
      forall d | d in Apply(w, s, channels).sent && d.channel == channel ensures KeyOf(d.note) != KeyOf(n) {
        DeliveredNotes(sends, channels, d);
      }
    case Disabling(id, now) =>
      if id in w.t.rules {
        var q := n.episode.pair;
        ClosingRetains(RowsOf(w.t.ledger, q), now);
        RetainsItself(RowsOf(w.t.ledger, q));
        CommittedStays(w.t.ledger, DisableRule(w.t, id, now).value.ledger, n);
      }
    case _ =>
  }

  // A committed notification that a channel has missed stays missed by it in every later run.
  lemma {:induction false} NothingIsEverResent(w: World, steps: seq<Step>, channels: nat, channel: nat, n: Notification)
    requires Good(w.t) && SentOnce(w.t.ledger, w.sent) && Committed(w.t.ledger, n) && Missed(w.sent, channel, n)
    ensures var after := Run(w, steps, channels); Committed(after.t.ledger, n) && Missed(after.sent, channel, n)
  {
    hide Good, SentOnce, Apply, Committed, Missed;
    if steps != [] {
      var k := |steps| - 1;
      NothingIsEverResent(w, steps[..k], channels, channel, n);
      CrashSafety(w, steps[..k], channels);
      NothingIsResent(Run(w, steps[..k], channels), steps[k], channels, channel, n);
    }
  }

  // The step is an evaluation killed after its commit, with something to send and a channel not yet reached.
  predicate Loses(w: World, s: Step, channels: nat) {
    && s.Evaluation? && s.cut.AfterSending? && s.cut.k < channels
    && EvalPair(w.t, s.pair, s.now).sends != []
  }

  // Such a kill leaves a notification that is committed and that the channels from the k-th on have missed.
  lemma KillLoses(w: World, s: Step, channels: nat) returns (n: Notification)
    requires Good(w.t) && SentOnce(w.t.ledger, w.sent) && Loses(w, s, channels)
    ensures n in EvalPair(w.t, s.pair, s.now).sends
    ensures var killed := Apply(w, s, channels);
      Committed(killed.t.ledger, n) && forall c | s.cut.k <= c < channels :: Missed(killed.sent, c, n)
  {
    hide EvalPair, Committed, Good, Placed, Retains, Deliveries, PutRows, RowsOf;
    var p, sends := s.pair, EvalPair(w.t, s.pair, s.now).sends;
    n := sends[0];
    EvaluationRetains(w.t, p, s.now);
    assert sends == [n] && n in sends;
    EvaluateShape(w.t, p, s.now, s.trigger);
    PlacedPair(p, EvalPair(w.t, p, s.now).incidents, n);
    PlacedIsCommitted(p, Apply(w, s, channels).t.ledger, n);
    DeliveriesOfOne(s.cut, n, channels);
  }

  // Whatever runs afterwards, those channels never receive it: sending is at most once, not exactly once.
  lemma LostDeliveryStaysLost(w: World, s: Step, channels: nat, steps: seq<Step>) returns (n: Notification)
    requires Good(w.t) && SentOnce(w.t.ledger, w.sent) && Loses(w, s, channels)
    ensures n in EvalPair(w.t, s.pair, s.now).sends
    ensures var later := Run(Apply(w, s, channels), steps, channels);
      Committed(later.t.ledger, n) && forall c | s.cut.k <= c < channels :: Missed(later.sent, c, n)
  {
    hide Good, SentOnce, Apply, Committed, Missed, EvalPair, Run;
    n := KillLoses(w, s, channels);
    ApplyKeepsSafe(w, s, channels);
    forall c | s.cut.k <= c < channels
      ensures Missed(Run(Apply(w, s, channels), steps, channels).sent, c, n)
      ensures Committed(Run(Apply(w, s, channels), steps, channels).t.ledger, n)
    {
      NothingIsEverResent(Apply(w, s, channels), steps, channels, c, n);
    }
    NothingIsEverResent(Apply(w, s, channels), steps, channels, s.cut.k, n);
  }

  /* ---------- Exactly once ---------- */

  // Among what the channel received, exactly one delivery carries the notification's key, and it is the notification.
  ghost predicate ReceivedOnce(sent: seq<Delivery>, channel: nat, n: Notification) {
    exists i | 0 <= i < |sent| ::
      && sent[i] == Delivery(channel, n)
      && forall j | 0 <= j < |sent| && j != i :: sent[j].channel != channel || KeyOf(sent[j].note) != KeyOf(n)
  }

  // Every channel received every committed notification exactly once.
  ghost predicate ExactlyOnce(w: World, channels: nat) {
    forall n, c: nat | Committed(w.t.ledger, n) && c < channels :: ReceivedOnce(w.sent, c, n)
  }

  lemma OnceIsReceived(ledger: Ledger, sent: seq<Delivery>, channel: nat, n: Notification)
    requires SentOnce(ledger, sent)
    ensures ReceivedOnce(sent, channel, n) <==> Delivery(channel, n) in sent
    ensures Missed(sent, channel, n) ==> !ReceivedOnce(sent, channel, n)
  {
    if Delivery(channel, n) in sent {
      var i :| 0 <= i < |sent| && sent[i] == Delivery(channel, n);
      forall j | 0 <= j < |sent| && j != i
        ensures sent[j].channel != channel || KeyOf(sent[j].note) != KeyOf(n)
      {
        if j < i { assert sent[j].channel != sent[i].channel || KeyOf(sent[j].note) != KeyOf(sent[i].note); }
      }
    }
  }

  // An evaluation commits no notification but the ones it sends.
  lemma EvaluationGains(t: Tables, p: Pair, now: Time, trigger: Trigger, n: Notification)
    requires Good(t) && Committed(EvaluateRule(t, p, now, trigger).t.ledger, n)
    ensures Committed(t.ledger, n) || n in EvalPair(t, p, now).sends
  {
    EvaluateShape(t, p, now, trigger);
    hide EvaluateRule;
    var reading, rows := ReadingFor(t, p, now), RowsOf(t.ledger, p);
    if reading.Some? && n.episode.pair == p {
      RowsFit(t, p);
      RowGains(reading.value.0, p, rows, reading.value.1, n.episode.ordinal);
    }
  }

  lemma StepCommits(w: World, s: Step, channels: nat, n: Notification)
    requires Good(w.t) && Committed(Apply(w, s, channels).t.ledger, n)
    ensures Committed(w.t.ledger, n)
      || (s.Evaluation? && !s.cut.AfterCount? && n in EvalPair(w.t, s.pair, s.now).sends)
  {
    hide EvalPair, EvaluateRule, Deliveries, Good, Accepted;
    match s
    case Evaluation(p, now, trigger, cut) =>
      if !cut.AfterCount? { EvaluationGains(w.t, p, now, trigger, n); }
    case Admission(_, _) =>
      hide CountersAfter, LogAfter, Classify, QueuesAfter, AgentsAfter;
    case _ =>
  }

  // A step that is not killed short of a channel delivers what it commits.
  lemma StepDelivers(w: World, s: Step, channels: nat, n: Notification, c: nat)
    requires Good(w.t) && Committed(Apply(w, s, channels).t.ledger, n) && c < channels && !Loses(w, s, channels)
    requires Committed(w.t.ledger, n) ==> Delivery(c, n) in w.sent
    ensures Delivery(c, n) in Apply(w, s, channels).sent
  {
    StepCommits(w, s, channels, n);
    hide Committed, Good, EvalPair, Deliveries, ReadingFor;
    if Delivery(c, n) !in w.sent {
      var sends := EvalPair(w.t, s.pair, s.now).sends;
      EvaluationRetains(w.t, s.pair, s.now);
      assert sends == [n];
      DeliveriesOfOne(s.cut, n, channels);
      assert Fan(n, channels)[c] == Delivery(c, n);
    }
  }

  lemma StepKeepsExactlyOnce(w: World, s: Step, channels: nat)
    requires Good(w.t) && SentOnce(w.t.ledger, w.sent) && ExactlyOnce(w, channels) && !Loses(w, s, channels)
    ensures ExactlyOnce(Apply(w, s, channels), channels)
  {
    hide Good, SentOnce, Apply, Committed, ReceivedOnce, Loses;
    var after := Apply(w, s, channels);
    ApplyKeepsSafe(w, s, channels);
    forall n, c: nat | Committed(after.t.ledger, n) && c < channels ensures ReceivedOnce(after.sent, c, n) {
      OnceIsReceived(w.t.ledger, w.sent, c, n);
      StepDelivers(w, s, channels, n, c);
      OnceIsReceived(after.t.ledger, after.sent, c, n);
    }
  }

  // No step of the run is killed short of a channel with something to send.
  ghost predicate NothingLost(w: World, steps: seq<Step>, channels: nat) {
    forall i | 0 <= i < |steps| :: !Loses(Run(w, steps[..i], channels), steps[i], channels)
  }

  lemma {:induction false} NothingLostIsExactlyOnce(w: World, steps: seq<Step>, channels: nat)
    requires Good(w.t) && SentOnce(w.t.ledger, w.sent) && ExactlyOnce(w, channels) && NothingLost(w, steps, channels)
    ensures ExactlyOnce(Run(w, steps, channels), channels)
  {
    hide Good, SentOnce, Apply, ExactlyOnce, Loses;
    if steps != [] {
      var k := |steps| - 1;
      assert forall i | 0 <= i < k :: steps[..k][..i] == steps[..i];
      NothingLostIsExactlyOnce(w, steps[..k], channels);
      CrashSafety(w, steps[..k], channels);
      StepKeepsExactlyOnce(Run(w, steps[..k], channels), steps[k], channels);
    }
  }

  lemma LossIsFinal(w: World, steps: seq<Step>, channels: nat, i: nat)
    requires Good(w.t) && SentOnce(w.t.ledger, w.sent)
    requires i < |steps| && Loses(Run(w, steps[..i], channels), steps[i], channels)
    ensures !ExactlyOnce(Run(w, steps, channels), channels)
  {
    hide Good, SentOnce, Apply, Committed, Missed, EvalPair, ReceivedOnce;
    var before := Run(w, steps[..i], channels);
    CrashSafety(w, steps[..i], channels);
    var n := LostDeliveryStaysLost(before, steps[i], channels, steps[i + 1..]);
    RunOne(before, steps[i], steps[i + 1..], channels);
    RunSplit(w, steps[..i], [steps[i]] + steps[i + 1..], channels);
    assert steps[..i] + ([steps[i]] + steps[i + 1..]) == steps;
    var after, c := Run(w, steps, channels), steps[i].cut.k;
    CrashSafety(w, steps, channels);
    OnceIsReceived(after.t.ledger, after.sent, c, n);
  }

  // From a state in which every channel has every committed notification exactly once, a run keeps it so if and only
  // if no evaluation with something to send is killed between its commit and its last delivery.
  lemma DeliveredExactlyOnceIff(w: World, steps: seq<Step>, channels: nat)
    requires Good(w.t) && SentOnce(w.t.ledger, w.sent) && ExactlyOnce(w, channels)
    ensures ExactlyOnce(Run(w, steps, channels), channels) <==> NothingLost(w, steps, channels)
  {
    hide Good, SentOnce, Apply, ExactlyOnce, Loses;
    if NothingLost(w, steps, channels) {
      NothingLostIsExactlyOnce(w, steps, channels);
    } else {
      var i :| 0 <= i < |steps| && Loses(Run(w, steps[..i], channels), steps[i], channels);
      LossIsFinal(w, steps, channels, i);
    }
  }

  lemma NothingSentIsExactlyOnce(w: World, channels: nat)
    requires w.t.ledger == map[] && w.sent == []
    ensures SentOnce(w.t.ledger, w.sent) && ExactlyOnce(w, channels)
  {
  }

  predicate Undisturbed(s: Step) {
    s.Evaluation? ==> s.cut.Uncut?
  }

  lemma {:induction false} EvalStepsUndisturbed(ps: seq<Pair>, now: Time, trigger: Trigger)
    ensures forall s | s in EvalSteps(ps, now, trigger) :: Undisturbed(s)
  {
    if ps != [] { EvalStepsUndisturbed(ps[1..], now, trigger); }
  }

  lemma {:induction false} ActStepsUndisturbed(t: Tables, acts: seq<Act>)
    ensures forall s | s in AllStepsOf(t, acts) :: Undisturbed(s)
    decreases |acts|
  {
    hide Do;
    if acts != [] {
      ActStepsUndisturbed(Do(t, acts[0], false).t, acts[1..]);
      match acts[0]
      case Tick(now) => EvalStepsUndisturbed(OrderOf(DueSet(t)), now, ByTick);
      case Arrive(line, n) =>
        match Classify(t, line) {
          case Projected(ref, at) => EvalStepsUndisturbed(OrderOf(Affected(Admit(t, line, n), ref)), at, ByEvent);
          case _ =>
        }
    }
  }

  // In particular arrivals and ticks that run to their end deliver everything they commit, exactly once.
  lemma UndisturbedRunsDeliver(w: World, acts: seq<Act>, channels: nat)
    requires Good(w.t) && SentOnce(w.t.ledger, w.sent) && ExactlyOnce(w, channels)
    ensures var e := RunActs(w.t, acts, false);
      ExactlyOnce(World(e.t, w.sent + Deliveries(e.sends, channels)), channels)
  {
    hide Good, SentOnce, ExactlyOnce, Run, RunActs, AllStepsOf, EvalPair, Deliveries;
    var steps := AllStepsOf(w.t, acts);
    ActStepsUndisturbed(w.t, acts);
    ActsAreRuns(w, acts, channels);
    forall i | 0 <= i < |steps| ensures !Loses(Run(w, steps[..i], channels), steps[i], channels) {
      assert steps[i] in steps;
    }
    NothingLostIsExactlyOnce(w, steps, channels);
  }

  /* ---------- Lost evaluations ---------- */

  lemma KnownFromThenOn(t: Tables, line: Line, n: nat, m: nat)
    requires Classify(t, line).Projected?
    ensures var crashed := Admit(t, line, n);
      Classify(crashed, line) == Duplicate(false)
      && Admit(crashed, line, m) == crashed.(counters := Bump(crashed.counters, Duplicates))
  {
    hide QueuesAfter, AgentsAfter, Bump;
  }

  // The evaluation would find a match, or an active episode that is not already frozen with a declared fact missing.
  predicate Stirs(t: Tables, p: Pair, now: Time) {
    var reading, active := ReadingFor(t, p, now), GetActive(RowsOf(t.ledger, p));
    && reading.Some?
    && (reading.value.1.matched
        || (active.Some? && !(active.value.stale && Unfounded(reading.value.0, reading.value.1.missing))))
  }

  lemma AdvanceMovesIff(rule: Rule, e: Episode, reading: Reading)
    requires e.Valid() && e.Active()
    ensures var m := Advance(Some(e), reading.matched, reading.now, rule, e.id, reading.missing);
      m.Moved? && (m.episode != e <==> reading.matched || !(e.stale && Unfounded(rule, reading.missing)))
  {
    hide Unfounded;
  }

  lemma StepChangesIff(rule: Rule, p: Pair, rows: seq<Incident>, reading: Reading)
    requires RecipientAccepted(rule) && PairFits(rule, p, rows)
    ensures var step, active := StepPair(rule, p, rows, reading), GetActive(rows);
      && step.Some?
      && (step.value.incidents != rows <==>
            reading.matched || (active.Some? && !(active.value.stale && Unfounded(rule, reading.missing))))
  {
    hide StepPair, NotesFit, ActiveAt, Advance, Unfounded;
    StepShape(rule, p, rows, reading);
    ActiveIsLast(rule, p, rows);
    if GetActive(rows).Some? {
      var k := |rows| - 1;
      RowAt(rule, p, rows, k);
      AdvanceMovesIff(rule, rows[k].episode, reading);
      assert AdvanceOf(rule, p, rows, reading)
          == Advance(Some(rows[k].episode), reading.matched, reading.now, rule, rows[k].episode.id,
                     reading.missing) by {
        AdvanceIgnoresNewId(rows[k].episode, reading, rule, EpisodeId(p, |rows|));
      }
      var m, after := AdvanceOf(rule, p, rows, reading), StepPair(rule, p, rows, reading).value.incidents;
      if m.episode == rows[k].episode {
        UnmovedSendsNothing(rule, rows[k].episode, reading);
        assert NotesOf(rule, p.subject, m, reading) == [];
        assert after[k] == Incident(m.episode, rows[k].notes + []) == rows[k];
        assert after == rows[..k] + [rows[k]] == rows;
      } else {
        assert after[k].episode != rows[k].episode;
      }
    } else if reading.matched {
      assert |StepPair(rule, p, rows, reading).value.incidents| == |rows| + 1;
    }
  }

  lemma AdvanceIgnoresNewId(e: Episode, reading: Reading, rule: Rule, id: EpisodeId)
    requires e.Active() && e.id.pair == id.pair
    ensures Advance(Some(e), reading.matched, reading.now, rule, id, reading.missing)
         == Advance(Some(e), reading.matched, reading.now, rule, e.id, reading.missing)
  {
  }

  lemma UnmovedSendsNothing(rule: Rule, e: Episode, reading: Reading)
    requires e.Active() && Advance(Some(e), reading.matched, reading.now, rule, e.id, reading.missing).Moved?
    requires Advance(Some(e), reading.matched, reading.now, rule, e.id, reading.missing).episode == e
    ensures Advance(Some(e), reading.matched, reading.now, rule, e.id, reading.missing).transitions == []
  {
  }

  // An evaluation changes its pair's rows if and only if it stirs them.
  lemma TouchesIffStirs(t: Tables, p: Pair, now: Time)
    requires Good(t)
    ensures Touches(t, p, now) <==> Stirs(t, p, now)
  {
    hide StepPair, PairFits, ReadingFor;
    var reading := ReadingFor(t, p, now);
    if reading.Some? {
      RowsFit(t, p);
      StepChangesIff(reading.value.0, p, RowsOf(t.ledger, p), reading.value.1);
    }
  }

  // Killed between the ingest commit and the change callback, an event is known as a duplicate from then on and its
  // evaluation never happens: reading the line again gives the rows of an undisturbed ingest if and only if no
  // affected pair matches and every affected pair with an active episode is already frozen, a declared fact still
  // missing.
  lemma LostEvaluationIff(t: Tables, line: Line, n: nat, m: nat)
    requires Good(t) && Classify(t, line).Projected?
    ensures var killed := Admit(t, line, n);
      var again := IngestLine(killed, line, m);
      var ref, at := Classify(t, line).ref, Classify(t, line).at;
      && again == Effect(killed.(counters := Bump(killed.counters, Duplicates)), [])
      && (again.t.ledger == IngestLine(t, line, n).t.ledger
          <==> forall p | p in Affected(killed, ref) :: !Stirs(killed, p, at))
  {
    hide Classify, Affected, Touches, Stirs, Bump, RunEvals;
    var killed, ref, at := Admit(t, line, n), Classify(t, line).ref, Classify(t, line).at;
    AdmitKeepsGood(t, line, n);
    hide Good, Admit;
    KnownFromThenOn(t, line, n, m);
    UntouchedIff(killed, Affected(killed, ref), at);
    forall p | p in Affected(killed, ref) ensures Touches(killed, p, at) <==> Stirs(killed, p, at) {
      TouchesIffStirs(killed, p, at);
    }
  }

  lemma AdmitKeepsGood(t: Tables, line: Line, n: nat)
    requires Good(t)
    ensures Good(Admit(t, line, n))
  {
    hide CountersAfter, LogAfter, Classify, QueuesAfter, AgentsAfter, PairFits, Accepted;
  }

  // Evaluating a set of pairs leaves the episode tables as they are if and only if none of them is touched.
  lemma UntouchedIff(t: Tables, pairs: set<Pair>, at: Time)
    ensures RunEvals(t, OrderOf(pairs), at, ByEvent).t.ledger == t.ledger
            <==> forall p | p in pairs :: !Touches(t, p, at)
  {
    hide RunEvals, EvalPair, RowsOf;
    var ps := OrderOf(pairs);
    var after := RunEvals(t, ps, at, ByEvent).t.ledger;
    forall p
      ensures RowsOf(after, p) == (if p in pairs then EvalPair(t, p, at).incidents else RowsOf(t.ledger, p))
      ensures p in after <==> p in t.ledger || (p in pairs && Touches(t, p, at))
    {
      RunEvalsRows(t, ps, at, ByEvent, p);
      assert p in ps <==> p in Elements(ps);
    }
    if forall p | p in pairs :: !Touches(t, p, at) {
      assert after.Keys == t.ledger.Keys;
      SameLedger(after, t.ledger);
    } else {
      var p :| p in pairs && Touches(t, p, at);
      assert RowsOf(after, p) != RowsOf(t.ledger, p);
    }
  }

  /* ---------- Ingest within a run ---------- */

  function LinesOf(steps: seq<Step>): seq<Line> {
    if steps == [] then []
    else
      var last := steps[|steps| - 1];
      LinesOf(steps[..|steps| - 1]) + (if last.Admission? then [last.line] else [])
  }

  // Lines are numbered consecutively.
  ghost predicate Numbered(steps: seq<Step>, n: nat) {
    forall i | 0 <= i < |steps| && steps[i].Admission? :: steps[i].seqNo == n + |LinesOf(steps[..i])|
  }

  predicate IngestCounter(name: Counter) {
    !name.EvaluationsEvent? && !name.EvaluationsDue?
  }

  // The tables agree on everything ingest reads and writes.
  ghost predicate SameIngest(a: Tables, b: Tables) {
    && a.queues == b.queues && a.agents == b.agents && a.log == b.log
    && SameIngestCounts(a.counters, b.counters)
  }

  ghost predicate SameIngestCounts(a: Counters, b: Counters) {
    forall name | IngestCounter(name) :: Count(a, name) == Count(b, name)
  }

  lemma BumpSame(a: Counters, b: Counters, name: Counter)
    requires SameIngestCounts(a, b)
    ensures SameIngestCounts(Bump(a, name), Bump(b, name))
    ensures !IngestCounter(name) ==> SameIngestCounts(Bump(a, name), b)
  {
    forall x | IngestCounter(x) ensures Count(Bump(a, name), x) == Count(Bump(b, name), x) {
      assert Count(a, x) == Count(b, x);
    }
  }

  lemma AdmitSame(a: Tables, b: Tables, line: Line, n: nat)
    requires SameIngest(a, b)
    ensures SameIngest(Admit(a, line, n), Admit(b, line, n))
  {
    hide Admit;
    IngestIsLocal(a, b, line, n);
  }

  // Whatever evaluations, crashes, disablings and new rules come in between, the subject rows, the event log and the
  // ingest counters of a run are those of ingesting its lines alone.
  lemma {:induction false} IngestStandsAlone(w: World, steps: seq<Step>, channels: nat, n: nat)
    requires Numbered(steps, n)
    ensures SameIngest(Run(w, steps, channels).t, AdmitAll(w.t, LinesOf(steps), n))
  {
    hide Apply, Admit, SameIngest;
    if steps == [] {
      assert SameIngest(w.t, w.t) by { IngestItself(w.t); }
    } else {
      var k := |steps| - 1;
      var before, lines := Run(w, steps[..k], channels), LinesOf(steps[..k]);
      assert Numbered(steps[..k], n) by { NumberedPrefix(steps, n, k); }
      IngestStandsAlone(w, steps[..k], channels, n);
      if steps[k].Admission? {
        AdmitSame(before.t, AdmitAll(w.t, lines, n), steps[k].line, n + |lines|);
        var all := lines + [steps[k].line];
        assert all[..|lines|] == lines && all[|lines|] == steps[k].line;
        AdmissionStep(before, steps[k], channels);
      } else {
        assert lines + [] == lines;
        OtherStepsSame(before, steps[k], channels, AdmitAll(w.t, lines, n));
      }
    }
  }

  lemma IngestItself(t: Tables)
    ensures SameIngest(t, t)
  {
  }

  lemma NumberedPrefix(steps: seq<Step>, n: nat, k: nat)
    requires k <= |steps| && Numbered(steps, n)
    ensures Numbered(steps[..k], n)
  {
    forall i | 0 <= i < k && steps[..k][i].Admission?
      ensures steps[..k][i].seqNo == n + |LinesOf(steps[..k][..i])|
    {
      assert steps[..k][..i] == steps[..i];
    }
  }

  lemma AdmissionStep(w: World, s: Step, channels: nat)
    requires s.Admission?
    ensures Apply(w, s, channels).t == Admit(w.t, s.line, s.seqNo)
  {
  }

  lemma OtherStepsSame(w: World, s: Step, channels: nat, b: Tables)
    requires !s.Admission? && SameIngest(w.t, b)
    ensures SameIngest(Apply(w, s, channels).t, b)
  {
    hide EvalPair, SameIngestCounts, Deliveries, ClosePair, BumpBy;
    forall name { BumpSame(w.t.counters, b.counters, name); }
  }
}
