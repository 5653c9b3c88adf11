// Runs of the whole system in its smallest durable steps, with the process killed at any point of an evaluation:
// what the committed tables and the channels then have in common, and each pair's run inside the system's run.
module Runs {
  import opened Base
  import opened Domain
  import opened Rules
  import opened Episodes
  import opened Incidents
  import opened PairRuns
  import opened Engine
  import opened Ingest
  import opened Scheduling
  import opened ScanRuns

  // One notification reaching one channel.
  datatype Delivery = Delivery(channel: nat, note: Notification)

  function Fan(n: Notification, channels: nat): (ds: seq<Delivery>)
    ensures |ds| == channels && forall c | 0 <= c < channels :: ds[c] == Delivery(c, n)
  {
    seq(channels, c requires 0 <= c < channels => Delivery(c, n))
  }

  // Every notification to every channel, in order.
  function Deliveries(notes: seq<Notification>, channels: nat): seq<Delivery> {
    if notes == [] then [] else Fan(notes[0], channels) + Deliveries(notes[1..], channels)
  }

  // How far an evaluation got before the process was killed: to the end, up to the commit of its count (whatever it
  // had written inside the transaction is rolled back), or past the transaction but only k deliveries on.
  datatype Cut = Uncut | AfterCount | AfterSending(k: nat)

  datatype Step =
    | Evaluation(pair: Pair, now: Time, trigger: Trigger, cut: Cut)
    | Admission(line: Line, seqNo: nat)
    | Disabling(rule: string, now: Time)
    | Installing(id: string, content: Rule, enabled: bool)

  datatype World = World(t: Tables, sent: seq<Delivery>)

  function Delivered(cut: Cut, ds: seq<Delivery>): seq<Delivery> {
    match cut
    case Uncut => ds
    case AfterCount => []
    case AfterSending(k) => if k < |ds| then ds[..k] else ds
  }

  function Apply(w: World, s: Step, channels: nat): World {
    match s
    case Evaluation(p, now, trigger, cut) =>
      var e := EvaluateRule(w.t, p, now, trigger);
      World(if cut.AfterCount? then w.t.(counters := e.t.counters) else e.t,
            w.sent + Delivered(cut, Deliveries(e.sends, channels)))
    case Admission(line, n) => w.(t := Admit(w.t, line, n))
    case Disabling(id, now) =>
      var after := DisableRule(w.t, id, now);
      if after.Some? then w.(t := after.value) else w
    case Installing(id, rule, enabled) =>
      if id !in w.t.rules && Accepted(rule)
      then w.(t := w.t.(rules := w.t.rules[id := RuleRecord(rule, enabled, 1)])) else w
  }

  function Run(w: World, steps: seq<Step>, channels: nat): World {
    if steps == [] then w
    else Apply(Run(w, steps[..|steps| - 1], channels), steps[|steps| - 1], channels)
  }

  /* ---------- Crash safety ---------- */

  // The notification is a committed row of its episode.
  ghost predicate Committed(ledger: Ledger, n: Notification) {
    var rows := RowsOf(ledger, n.episode.pair);
    n.episode.ordinal < |rows| && n in rows[n.episode.ordinal].notes
  }

  // Everything delivered is committed, and no channel received the same notification key twice.
  ghost predicate SentOnce(ledger: Ledger, sent: seq<Delivery>) {
    && (forall d | d in sent :: Committed(ledger, d.note))
    && (forall i, j | 0 <= i < j < |sent| ::
          sent[i].channel != sent[j].channel || KeyOf(sent[i].note) != KeyOf(sent[j].note))
  }

  // Nothing with the key of n is committed.
  ghost predicate Unused(ledger: Ledger, n: Notification) {
    forall m | Committed(ledger, m) :: KeyOf(m) != KeyOf(n)
  }

  // Rows only ever gain notifications.
  ghost predicate Retains(before: seq<Incident>, after: seq<Incident>) {
    && |before| <= |after|
    && forall i | 0 <= i < |before| :: before[i].notes <= after[i].notes
  }

  // The notification is in the rows, under an episode of the pair.
  ghost predicate Placed(pair: Pair, rows: seq<Incident>, n: Notification) {
    n.episode.pair == pair && n.episode.ordinal < |rows| && n in rows[n.episode.ordinal].notes
  }

  ghost predicate KeyFree(rows: seq<Incident>, n: Notification) {
    n.episode.ordinal < |rows| ==> !HasKey(rows[n.episode.ordinal].notes, KeyOf(n))
  }

  lemma AppendedRow(pair: Pair, incs: seq<Incident>, inc: Incident, n: Notification)
    requires inc.notes == [] || inc.notes == [n]
    ensures Retains(incs, incs + [inc])
    ensures inc.notes == [n] && n.episode == EpisodeId(pair, |incs|) ==>
      Placed(pair, incs + [inc], n) && KeyFree(incs, n)
  {
    assert n in [n];
  }

  lemma RenewedRow(pair: Pair, incs: seq<Incident>, e: Episode, sends: seq<Notification>)
    requires incs != []
    ensures var k := |incs| - 1;
      var after := incs[..k] + [Renew(incs[k], e, sends)];
      && Retains(incs, after)
      && forall n | n in sends && n.episode == EpisodeId(pair, k) :: Placed(pair, after, n)
  {
  }

  lemma StepRetains(rule: Rule, pair: Pair, incs: seq<Incident>, r: Reading)
    requires RecipientAccepted(rule) && PairFits(rule, pair, incs)
    ensures var o := StepPair(rule, pair, incs, r);
      && o.Some? && Retains(incs, o.value.incidents)
      && |o.value.sends| <= 1
      && forall n | n in o.value.sends :: Placed(pair, o.value.incidents, n) && KeyFree(incs, n)
  {
    hide StepPair, NotesFit, Retains, Placed, ActiveAt;
    StepShape(rule, pair, incs, r);
    ActiveIsLast(rule, pair, incs);
    var m, k := AdvanceOf(rule, pair, incs, r), |incs| - 1;
    var sends := NotesOf(rule, pair.subject, m, r);
    if GetActive(incs).Some? {
      RowAt(rule, pair, incs, k);
      RowSurvives(rule, pair.subject, incs[k], r);
      assert m == Advance(Some(incs[k].episode), r.matched, r.now, rule, incs[k].episode.id, r.missing);
    } else if r.matched {
      NewRowFits(rule, pair.subject, EpisodeId(pair, |incs|), r);
    }
    hide PairFits, RowFits, Advance, AdvanceOf;
    if GetActive(incs).Some? {
      RenewedRow(pair, incs, m.episode, sends);
      hide Renew;
      forall n | n in sends ensures KeyFree(incs, n) {}
    } else if r.matched {
      var n := NoteFor(rule, m.episode, pair.subject, Opened, r);
      AppendedRow(pair, incs, Incident(m.episode, sends), if sends == [] then n else sends[0]);
    } else {
      assert Retains(incs, incs) by { RetainsItself(incs); }
    }
  }

  lemma RetainsItself(incs: seq<Incident>)
    ensures Retains(incs, incs)
  {
  }

  lemma EvaluationRetains(t: Tables, p: Pair, now: Time)
    requires Good(t)
    ensures var o := EvalPair(t, p, now);
      && Retains(RowsOf(t.ledger, p), o.incidents)
      && |o.sends| <= 1
      && forall n | n in o.sends :: Unused(t.ledger, n) && Placed(p, o.incidents, n)
  {
    var reading := ReadingFor(t, p, now);
    if reading.Some? {
      RowsFit(t, p);
      StepRetains(reading.value.0, p, RowsOf(t.ledger, p), reading.value.1);
      hide StepPair, PairFits, ReadingFor, Retains, Placed;
      forall n | n in EvalPair(t, p, now).sends ensures Unused(t.ledger, n) {
        assert KeyFree(RowsOf(t.ledger, p), n) && Placed(p, EvalPair(t, p, now).incidents, n);
        assert n.episode.pair == p by { PlacedPair(p, EvalPair(t, p, now).incidents, n); }
        forall m | Committed(t.ledger, m) ensures KeyOf(m) != KeyOf(n) {
          if m.episode == n.episode {
            var notes := RowsOf(t.ledger, p)[m.episode.ordinal].notes;
            var i :| 0 <= i < |notes| && notes[i] == m;
          }
        }
      }
    }
  }

  lemma PlacedPair(pair: Pair, rows: seq<Incident>, n: Notification)
    requires Placed(pair, rows, n)
    ensures n.episode.pair == pair
  {
  }

  lemma CommittedStays(a: Ledger, b: Ledger, n: Notification)
    requires Committed(a, n) && Retains(RowsOf(a, n.episode.pair), RowsOf(b, n.episode.pair))
    ensures Committed(b, n)
  {
    var i := n.episode.ordinal;
    var x, y := RowsOf(a, n.episode.pair)[i].notes, RowsOf(b, n.episode.pair)[i].notes;
    var k :| 0 <= k < |x| && x[k] == n;
    assert y[k] == n;
  }

  lemma DeliveriesOfOne(cut: Cut, n: Notification, channels: nat)
    ensures Deliveries([n], channels) == Fan(n, channels)
    ensures var ds := Delivered(cut, Deliveries([n], channels)); forall i | 0 <= i < |ds| :: ds[i] == Delivery(i, n)
  {
    assert [n][1..] == [];
    assert Fan(n, channels) + [] == Fan(n, channels);
  }

  lemma OldDeliveriesStay(before: Ledger, after: Ledger, sent: seq<Delivery>, p: Pair)
    requires SentOnce(before, sent)
    requires Retains(RowsOf(before, p), RowsOf(after, p))
    requires forall q | q != p :: RowsOf(after, q) == RowsOf(before, q)
    ensures SentOnce(after, sent)
  {
    forall d | d in sent ensures Committed(after, d.note) {
      if d.note.episode.pair == p { CommittedStays(before, after, d.note); }
    }
  }

  lemma EvaluationSendsOnce(w: World, p: Pair, now: Time, trigger: Trigger, cut: Cut, channels: nat)
    requires Good(w.t) && SentOnce(w.t.ledger, w.sent)
    ensures var after := Apply(w, Evaluation(p, now, trigger, cut), channels);
      SentOnce(after.t.ledger, after.sent)
  {
    hide EvalPair, Good, Unused, Retains, SentOnce, RowsOf, PutRows, Placed, Deliveries;
    var after := Apply(w, Evaluation(p, now, trigger, cut), channels);
    var e := EvaluateRule(w.t, p, now, trigger);
    assert e.sends == EvalPair(w.t, p, now).sends;
    EvaluationRetains(w.t, p, now);
    EvaluateShape(w.t, p, now, trigger);
    DeliveriesHead([], channels);
    hide EvaluateRule;
    if cut.AfterCount? || e.sends == [] {
      assert after.sent == w.sent;
      if !cut.AfterCount? { OldDeliveriesStay(w.t.ledger, after.t.ledger, w.sent, p); }
    } else {
      var n := e.sends[0];
      assert e.sends == [n] && n in e.sends;
      OldDeliveriesStay(w.t.ledger, after.t.ledger, w.sent, p);
      assert Committed(after.t.ledger, n) by { PlacedIsCommitted(p, after.t.ledger, n); }
      DeliveriesOfOne(cut, n, channels);
      hide Deliveries, Delivered, Committed;
      FreshDeliveries(w.t.ledger, after.t.ledger, w.sent, Delivered(cut, Deliveries([n], channels)), n);
    }
  }

  lemma PlacedIsCommitted(p: Pair, ledger: Ledger, n: Notification)
    requires Placed(p, RowsOf(ledger, p), n)
    ensures Committed(ledger, n)
  {
  }

  lemma FreshDeliveries(before: Ledger, after: Ledger, sent: seq<Delivery>, newest: seq<Delivery>, n: Notification)
    requires SentOnce(before, sent) && SentOnce(after, sent) && Unused(before, n)
    requires Committed(after, n) && forall i | 0 <= i < |newest| :: newest[i] == Delivery(i, n)
    ensures SentOnce(after, sent + newest)
  {
    hide Committed;
    forall i, j | 0 <= i < j < |sent + newest|
      ensures (sent + newest)[i].channel != (sent + newest)[j].channel
           || KeyOf((sent + newest)[i].note) != KeyOf((sent + newest)[j].note)
    {
      if i < |sent| <= j {
        assert sent[i] in sent;
        assert Committed(before, sent[i].note);
      }
    }
  }

  lemma ClosingRetains(incs: seq<Incident>, now: Time)
    ensures Retains(incs, ClosePair(incs, now))
  {
  }

  lemma DisablingSendsOnce(w: World, id: string, now: Time)
    requires SentOnce(w.t.ledger, w.sent) && id in w.t.rules
    ensures SentOnce(DisableRule(w.t, id, now).value.ledger, w.sent)
  {
    var after := DisableRule(w.t, id, now).value;
    forall d | d in w.sent ensures Committed(after.ledger, d.note) {
      var p := d.note.episode.pair;
      ClosingRetains(RowsOf(w.t.ledger, p), now);
      RetainsItself(RowsOf(w.t.ledger, p));
      CommittedStays(w.t.ledger, after.ledger, d.note);
    }
  }

  lemma ApplyKeepsSafe(w: World, s: Step, channels: nat)
    requires Good(w.t) && SentOnce(w.t.ledger, w.sent)
    ensures var after := Apply(w, s, channels); Good(after.t) && SentOnce(after.t.ledger, after.sent)
  {
    hide SentOnce, Accepted, PairFits, EvalPair, ClosePair;
    match s
    case Evaluation(p, now, trigger, cut) =>
      EvaluateKeepsGood(w.t, p, now, trigger);
      EvaluationSendsOnce(w, p, now, trigger, cut, channels);
      if cut.AfterCount? { CountersKeepGood(w.t, EvaluateRule(w.t, p, now, trigger).t.counters); }
    case Admission(line, n) =>
      hide CountersAfter, LogAfter, Classify, QueuesAfter, AgentsAfter;
    case Disabling(id, now) =>
      if id in w.t.rules {
        DisableKeepsGood(w.t, id, now);
        DisablingSendsOnce(w, id, now);
      }
    case Installing(id, rule, enabled) =>
  }

  lemma CountersKeepGood(t: Tables, c: Counters)
    requires Good(t)
    ensures Good(t.(counters := c))
  {
  }

  // Kill the process at any point of any evaluation, as often as you like: the committed rows of every pair agree
  // with each other (see PairFits), every delivery has a committed row, and no row reaches a channel twice.
  lemma {:induction false} CrashSafety(w: World, steps: seq<Step>, channels: nat)
    requires Good(w.t) && SentOnce(w.t.ledger, w.sent)
    ensures var after := Run(w, steps, channels); Good(after.t) && SentOnce(after.t.ledger, after.sent)
  {
    hide Good, SentOnce, Apply;
    if steps != [] {
      CrashSafety(w, steps[..|steps| - 1], channels);
      ApplyKeepsSafe(Run(w, steps[..|steps| - 1], channels), steps[|steps| - 1], channels);
    }
  }

  /* ---------- A pair's run inside the system's run ---------- */

  // What a step means for one pair.
  function Seen(t: Tables, s: Step, p: Pair): seq<PairStep> {
    match s
    case Evaluation(q, now, _, cut) =>
      if q == p && !cut.AfterCount? && ReadingFor(t, p, now).Some? then [Observe(ReadingFor(t, p, now).value.1)] else []
    case Disabling(id, now) => if id == p.rule && id in t.rules then [Close(now)] else []
    case _ => []
  }

  function History(w: World, steps: seq<Step>, channels: nat, p: Pair): seq<PairStep> {
    if steps == [] then []
    else
      var n := |steps| - 1;
      History(w, steps[..n], channels, p) + Seen(Run(w, steps[..n], channels).t, steps[n], p)
  }

  lemma RulesPersist(w: World, s: Step, channels: nat, id: string)
    requires id in w.t.rules
    ensures id in Apply(w, s, channels).t.rules && Apply(w, s, channels).t.rules[id].rule == w.t.rules[id].rule
  {
  }

  lemma EvaluationAsSeen(w: World, q: Pair, now: Time, trigger: Trigger, cut: Cut, channels: nat, p: Pair)
    ensures var s := Evaluation(q, now, trigger, cut);
      var seen := Seen(w.t, s, p);
      && |seen| <= 1
      && (p.rule !in w.t.rules ==> seen == [])
      && (p.rule in w.t.rules && seen != [] ==> Accepted(w.t.rules[p.rule].rule))
      && (p.rule in w.t.rules ==>
            RowsOf(Apply(w, s, channels).t.ledger, p) == if seen == [] then RowsOf(w.t.ledger, p)
              else StepOnce(w.t.rules[p.rule].rule, p, RowsOf(w.t.ledger, p), seen[0]))
      && (p.rule !in w.t.rules ==> RowsOf(Apply(w, s, channels).t.ledger, p) == RowsOf(w.t.ledger, p))
  {
    EvaluateShape(w.t, q, now, trigger);
    hide EvaluateRule, StepPair, Deliveries, Delivered;
  }

  lemma StepsAsSeen(w: World, s: Step, channels: nat, p: Pair)
    requires Good(w.t)
    requires p.rule !in w.t.rules ==> RowsOf(w.t.ledger, p) == []
    ensures var after := Apply(w, s, channels).t;
      var seen := Seen(w.t, s, p);
      && |seen| <= 1
      && (p.rule !in after.rules ==> seen == [])
      && (p.rule !in w.t.rules ==> seen == [])
      && (p.rule in w.t.rules ==>
            RowsOf(after.ledger, p) == if seen == [] then RowsOf(w.t.ledger, p)
                                       else StepOnce(w.t.rules[p.rule].rule, p, RowsOf(w.t.ledger, p), seen[0]))
      && (p.rule !in w.t.rules ==> RowsOf(after.ledger, p) == [])
  {
    hide StepPair, EvaluateRule, PairFits, Accepted;
    if p.rule in w.t.rules { RulesPersist(w, s, channels, p.rule); }
    match s
    case Evaluation(q, now, trigger, cut) =>
      EvaluationAsSeen(w, q, now, trigger, cut, channels, p);
      hide Seen;
    case Admission(line, n) =>
      hide CountersAfter, LogAfter, Classify, QueuesAfter, AgentsAfter;
    case Disabling(id, now) =>
      assert ClosePair([], now) == [];
    case Installing(id, rule, enabled) =>
  }

  lemma NothingSentYet(ledger: Ledger)
    ensures SentOnce(ledger, [])
  {
  }

  // From empty tables, the rows of a pair are exactly those of the pair automaton run on what the system's run
  // showed of that pair. Everything proved of pair runs therefore holds of every pair in every run of the system.
  lemma {:induction false} EveryPairRunsAlone(w: World, steps: seq<Step>, channels: nat, p: Pair)
    requires Good(w.t) && w.t.ledger == map[] && w.sent == []
    ensures var after := Run(w, steps, channels).t;
      && Good(after)
      && (p.rule in after.rules ==>
            RowsOf(after.ledger, p) == After(after.rules[p.rule].rule, p, History(w, steps, channels, p)))
      && (p.rule !in after.rules ==> RowsOf(after.ledger, p) == [] && History(w, steps, channels, p) == [])
  {
    hide Good, Apply, Seen, StepOnce, SentOnce;
    assert SentOnce(w.t.ledger, w.sent) by { NothingSentYet(w.t.ledger); }
    CrashSafety(w, steps, channels);
    if steps != [] {
      var n := |steps| - 1;
      EveryPairRunsAlone(w, steps[..n], channels, p);
      var before := Run(w, steps[..n], channels);
      var h, seen := History(w, steps[..n], channels, p), Seen(before.t, steps[n], p);
      if p.rule in before.t.rules { RulesPersist(before, steps[n], channels, p.rule); }
      StepsAsSeen(before, steps[n], channels, p);
      if seen == [] {
        assert h + seen == h;
      } else {
        assert seen == [seen[0]];
        assert (h + seen)[..|h + seen| - 1] == h;
      }
    }
  }

  /* ---------- Replays are runs ---------- */

  function EvalSteps(ps: seq<Pair>, now: Time, trigger: Trigger): seq<Step> {
    if ps == [] then [] else [Evaluation(ps[0], now, trigger, Uncut)] + EvalSteps(ps[1..], now, trigger)
  }

  lemma {:induction false} RunSplit(w: World, a: seq<Step>, b: seq<Step>, channels: nat)
    ensures Run(w, a + b, channels) == Run(Run(w, a, channels), b, channels)
  {
    hide Apply;
    if b == [] {
      assert a + b == a;
    } else {
      var n := |b| - 1;
      RunSplit(w, a, b[..n], channels);
      assert (a + b)[..|a + b| - 1] == a + b[..n];
    }
  }

  lemma RunOne(w: World, s: Step, rest: seq<Step>, channels: nat)
    ensures Run(w, [s] + rest, channels) == Run(Apply(w, s, channels), rest, channels)
  {
    hide Apply;
    RunSplit(w, [s], rest, channels);
    assert [s][..0] == [];
  }

  lemma DeliveriesHead(notes: seq<Notification>, channels: nat)
    ensures Deliveries(notes, channels) ==
      if notes == [] then [] else Fan(notes[0], channels) + Deliveries(notes[1..], channels)
  {
  }

  lemma {:induction false} DeliveriesSplit(a: seq<Notification>, b: seq<Notification>, channels: nat)
    ensures Deliveries(a + b, channels) == Deliveries(a, channels) + Deliveries(b, channels)
    decreases |a|
  {
    hide Deliveries, Fan;
    DeliveriesHead(a, channels);
    if a == [] {
      assert a + b == b;
    } else {
      DeliveriesSplit(a[1..], b, channels);
      DeliveriesHead(a + b, channels);
      assert (a + b)[0] == a[0] && (a + b)[1..] == a[1..] + b;
    }
  }

  lemma UncutEvaluation(w: World, p: Pair, now: Time, trigger: Trigger, channels: nat)
    ensures var e := EvaluateRule(w.t, p, now, trigger);
      Apply(w, Evaluation(p, now, trigger, Uncut), channels) == World(e.t, w.sent + Deliveries(e.sends, channels))
  {
  }

  lemma RunNothing(w: World, channels: nat)
    ensures Run(w, [], channels) == w
  {
  }

  // Sending in two parts.
  lemma SendInParts(sent: seq<Delivery>, a: seq<Notification>, b: seq<Notification>, channels: nat)
    ensures sent + Deliveries(a + b, channels) == (sent + Deliveries(a, channels)) + Deliveries(b, channels)
  {
    hide Deliveries;
    DeliveriesSplit(a, b, channels);
  }

  lemma {:induction false} EvalsAreRuns(w: World, ps: seq<Pair>, now: Time, trigger: Trigger, channels: nat)
    ensures var e := RunEvals(w.t, ps, now, trigger);
      Run(w, EvalSteps(ps, now, trigger), channels) == World(e.t, w.sent + Deliveries(e.sends, channels))
    decreases |ps|
  {
    hide EvaluateRule, Apply, Run;
    if ps == [] {
      RunNothing(w, channels);
      assert w.sent + [] == w.sent;
    } else {
      hide Deliveries;
      var first := EvaluateRule(w.t, ps[0], now, trigger);
      var s := Evaluation(ps[0], now, trigger, Uncut);
      var next := Apply(w, s, channels);
      UncutEvaluation(w, ps[0], now, trigger, channels);
      EvalsAreRuns(next, ps[1..], now, trigger, channels);
      RunOne(w, s, EvalSteps(ps[1..], now, trigger), channels);
      SendInParts(w.sent, first.sends, RunEvals(first.t, ps[1..], now, trigger).sends, channels);
    }
  }

  // The durable steps of one arrival or tick.
  ghost function StepsOf(t: Tables, act: Act): seq<Step> {
    match act
    case Tick(now) => EvalSteps(OrderOf(DueSet(t)), now, ByTick)
    case Arrive(line, n) =>
      [Admission(line, n)] + (
        match Classify(t, line)
        case Projected(ref, at) => EvalSteps(OrderOf(Affected(Admit(t, line, n), ref)), at, ByEvent)
        case _ => [])
  }

  lemma ActIsRun(w: World, act: Act, channels: nat)
    ensures var e := Do(w.t, act, false);
      Run(w, StepsOf(w.t, act), channels) == World(e.t, w.sent + Deliveries(e.sends, channels))
  {
    match act
    case Tick(now) => EvalsAreRuns(w, OrderOf(DueSet(w.t)), now, ByTick, channels);
    case Arrive(line, n) =>
      var admitted := w.(t := Admit(w.t, line, n));
      assert admitted == Apply(w, Admission(line, n), channels);
      hide Admit, Apply, Run;
      match Classify(w.t, line) {
        case Projected(ref, at) =>
          var ps := OrderOf(Affected(admitted.t, ref));
          EvalsAreRuns(admitted, ps, at, ByEvent, channels);
          RunOne(w, Admission(line, n), EvalSteps(ps, at, ByEvent), channels);
        case _ =>
          RunOne(w, Admission(line, n), [], channels);
          assert Run(admitted, [], channels) == admitted by { RunNothing(admitted, channels); }
          assert w.sent + [] == w.sent;
      }
  }

  ghost function AllStepsOf(t: Tables, acts: seq<Act>): seq<Step>
    decreases |acts|
  {
    if acts == [] then [] else StepsOf(t, acts[0]) + AllStepsOf(Do(t, acts[0], false).t, acts[1..])
  }

  // Arrivals and ticks, as the replay driver produces them, are runs of these steps.
  lemma {:induction false} ActsAreRuns(w: World, acts: seq<Act>, channels: nat)
    ensures var e := RunActs(w.t, acts, false);
      Run(w, AllStepsOf(w.t, acts), channels) == World(e.t, w.sent + Deliveries(e.sends, channels))
    decreases |acts|
  {
    hide Do, Run, StepsOf;
    if acts == [] {
      RunNothing(w, channels);
      assert w.sent + [] == w.sent;
    } else {
      hide Deliveries;
      var first := Do(w.t, acts[0], false);
      var next := World(first.t, w.sent + Deliveries(first.sends, channels));
      ActIsRun(w, acts[0], channels);
      ActsAreRuns(next, acts[1..], channels);
      RunSplit(w, StepsOf(w.t, acts[0]), AllStepsOf(first.t, acts[1..]), channels);
      SendInParts(w.sent, first.sends, RunActs(first.t, acts[1..], false).sends, channels);
    }
  }
}
