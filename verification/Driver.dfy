// The loops around an evaluation: event and tick triggers (app/engine/engine.py), the scan (app/scheduling/scan.py),
// ingest (app/ingest/pipeline.py), disabling (app/api/routes_rules.py) and the replay driver (app/cli/replay.py),
// each proved to do what its function on table values says and to be safe to kill at any moment.
module Driver {
  import opened Base
  import opened Domain
  import opened Facts
  import opened Rules
  import opened Episodes
  import opened Incidents
  import opened Engine
  import opened Ingest
  import opened Readings
  import opened Scheduling
  import opened Triggers
  import opened ScanRuns
  import opened Replay
  import opened Runs
  import opened Store
  import opened Service

  // The notifications were delivered to every channel, in some order.
  ghost predicate Handed(before: seq<Delivery>, notes: seq<Notification>, after: seq<Delivery>, channels: nat) {
    multiset(after) == multiset(before) + multiset(Deliveries(notes, channels))
  }

  lemma {:induction false} FanCount(n: Notification, channels: nat, d: Delivery)
    ensures multiset(Fan(n, channels))[d] == if d.note == n && d.channel < channels then 1 else 0
  {
    if channels > 0 {
      assert Fan(n, channels) == Fan(n, channels - 1) + [Delivery(channels - 1, n)];
      FanCount(n, channels - 1, d);
    }
  }

  // Every channel receives each notification as often as it was sent.
  lemma {:induction false} DeliveryCount(notes: seq<Notification>, channels: nat, d: Delivery)
    ensures multiset(Deliveries(notes, channels))[d] == if d.channel < channels then multiset(notes)[d.note] else 0
  {
    if notes != [] {
      assert notes == [notes[0]] + notes[1..];
      FanCount(notes[0], channels, d);
      DeliveryCount(notes[1..], channels, d);
    }
  }

  lemma DeliveriesIgnoreOrder(a: seq<Notification>, b: seq<Notification>, channels: nat)
    requires multiset(a) == multiset(b)
    ensures multiset(Deliveries(a, channels)) == multiset(Deliveries(b, channels))
  {
    forall d ensures multiset(Deliveries(a, channels))[d] == multiset(Deliveries(b, channels))[d] {
      DeliveryCount(a, channels, d);
      DeliveryCount(b, channels, d);
    }
  }

  // Every new delivery is of a notification stamped with the instant.
  ghost predicate StampedAt(before: seq<Delivery>, after: seq<Delivery>, at: Time) {
    forall d | d in after :: d in before || d.note.at == at
  }

  lemma HandedAt(before: seq<Delivery>, notes: seq<Notification>, after: seq<Delivery>, channels: nat, at: Time)
    requires Handed(before, notes, after, channels) && forall n | n in notes :: n.at == at
    ensures StampedAt(before, after, at)
  {
    forall d | d in after ensures d in before || d.note.at == at {
      DeliveryCount(notes, channels, d);
      assert multiset(after)[d] == multiset(before)[d] + multiset(Deliveries(notes, channels))[d];
      if d !in before { assert d.note in multiset(notes); }
    }
  }

  lemma HandedThen(a: seq<Delivery>, x: seq<Notification>, b: seq<Delivery>, y: seq<Notification>, c: seq<Delivery>,
                   channels: nat)
    requires Handed(a, x, b, channels) && Handed(b, y, c, channels)
    ensures Handed(a, x + y, c, channels)
  {
    DeliveriesSplit(x, y, channels);
    hide Deliveries;
  }

  /* ---------- Evaluations in a loop ---------- */

  lemma {:induction false} RunEvalsSnoc(t: Tables, ps: seq<Pair>, p: Pair, now: Time, trigger: Trigger)
    ensures var e := RunEvals(t, ps, now, trigger);
      var last := Engine.EvaluateRule(e.t, p, now, trigger);
      RunEvals(t, ps + [p], now, trigger) == Effect(last.t, e.sends + last.sends)
    decreases |ps|
  {
    hide Engine.EvaluateRule;
    if ps == [] {
      assert [] + [p] == [p] && [p][1..] == [];
    } else {
      var first := Engine.EvaluateRule(t, ps[0], now, trigger);
      RunEvalsSnoc(first.t, ps[1..], p, now, trigger);
      assert (ps + [p])[1..] == ps[1..] + [p];
    }
  }

  ghost function Reached(w0: World, done: seq<Pair>, now: Time, trigger: Trigger, channels: nat): World {
    var e := RunEvals(w0.t, done, now, trigger);
    World(e.t, w0.sent + Deliveries(e.sends, channels))
  }

  // The pairs done so far have been evaluated, and every durable state on the way is safe.
  ghost predicate Evaluated(deps: EngineDeps, w0: World, done: seq<Pair>, now: Time, trigger: Trigger)
    reads deps
  {
    deps.AtRest() && deps.Safe() && deps.Durable() == Reached(w0, done, now, trigger, deps.channels)
  }

  lemma ReachedNext(w0: World, done: seq<Pair>, p: Pair, now: Time, trigger: Trigger, channels: nat)
    ensures var w := Reached(w0, done, now, trigger, channels);
      var e := Engine.EvaluateRule(w.t, p, now, trigger);
      Reached(w0, done + [p], now, trigger, channels) == World(e.t, w.sent + Deliveries(e.sends, channels))
  {
    hide RunEvals, Engine.EvaluateRule, Deliveries;
    var e := RunEvals(w0.t, done, now, trigger);
    RunEvalsSnoc(w0.t, done, p, now, trigger);
    SendInParts(w0.sent, e.sends, Engine.EvaluateRule(e.t, p, now, trigger).sends, channels);
  }

  lemma ReachedNothing(w0: World, now: Time, trigger: Trigger, channels: nat)
    ensures Reached(w0, [], now, trigger, channels) == w0
  {
    assert w0.sent + [] == w0.sent;
  }

  lemma CutsStaySafe(before: seq<World>, after: seq<World>, p: Pair, now: Time, trigger: Trigger, channels: nat)
    requires before != [] && AllSafe(before) && before <= after
    requires forall i | |before| <= i < |after| ::
      LeftByCut(before[|before| - 1], after[i], p, now, trigger, channels)
    ensures AllSafe(after)
  {
    hide Apply, Good, SentOnce;
    var w0 := before[|before| - 1];
    assert SafeState(w0);
    forall i | 0 <= i < |after| ensures SafeState(after[i]) {
      if i < |before| {
        assert after[i] == before[i];
      } else {
        var cut :| after[i] == Apply(w0, Evaluation(p, now, trigger, cut), channels);
        ApplyKeepsSafe(w0, Evaluation(p, now, trigger, cut), channels);
      }
    }
  }

  lemma SafeLast(states: seq<World>)
    requires AllSafe(states) && states != []
    ensures Good(states[|states| - 1].t)
  {
    assert SafeState(states[|states| - 1]);
  }

  method EvaluateNext(deps: EngineDeps, ghost w0: World, ghost done: seq<Pair>, p: Pair, now: Time, trigger: Trigger)
    requires Evaluated(deps, w0, done, now, trigger)
    modifies deps
    ensures Evaluated(deps, w0, done + [p], now, trigger) && old(deps.trail) <= deps.trail
  {
    hide Reached, Engine.EvaluateRule, EvalPair, SentOnce, Deliveries, LeftByCut, Evaluates, Stored, RowsOf;
    hide SafeState, AllSafe, Good;
    ghost var before := deps.trail;
    SafeLast(before);
    var transitions, raised := Service.EvaluateRule(deps, p, now, trigger);
    assert !raised;
    CutsStaySafe(before, deps.trail, p, now, trigger, deps.channels);
    ReachedNext(w0, done, p, now, trigger, deps.channels);
  }

  // Whatever the order in which a set of pairs was evaluated.
  lemma EvaluatedAll(deps: EngineDeps, w0: World, done: seq<Pair>, pairs: set<Pair>, now: Time, trigger: Trigger)
    requires Evaluated(deps, w0, done, now, trigger)
    requires Distinct(done) && Elements(done) == pairs
    ensures var e := RunEvals(w0.t, OrderOf(pairs), now, trigger);
      deps.committed == e.t && Handed(w0.sent, e.sends, deps.sent, deps.channels)
  {
    EvaluationOrderIrrelevant(w0.t, done, OrderOf(pairs), now, trigger);
    DeliveriesIgnoreOrder(RunEvals(w0.t, done, now, trigger).sends,
                          RunEvals(w0.t, OrderOf(pairs), now, trigger).sends, deps.channels);
    hide RunEvals, Deliveries;
  }

  /* ---------- Triggers ---------- */

  // The rules table, or its enabled rows.
  method ListEnabled(deps: EngineDeps) returns (ids: seq<string>)
    ensures Distinct(ids) && forall id :: id in ids <==> Enabled(deps.working, id)
  {
    var all := Enumerate(deps.working.rules.Keys);
    ids := [];
    for i := 0 to |all|
      invariant Distinct(ids) && forall id :: id in ids <==> id in all[..i] && Enabled(deps.working, id)
    {
      assert all[..i + 1] == all[..i] + [all[i]] && all[i] in Elements(all) && all[i] !in all[..i];
      if deps.working.rules[all[i]].enabled { ids := ids + [all[i]]; }
    }
    assert all[..|all|] == all;
    assert forall id :: id in all <==> id in Elements(all);
  }

  method ResolveSelector(deps: EngineDeps, rule: Rule) returns (ids: seq<string>)
    ensures forall id :: id in ids <==> id in Selected(deps.working, rule)
    ensures rule.selector.Ids? ==> ids == rule.selector.ids
    ensures rule.subjectType.Queue? && !rule.selector.Ids? ==> forall id :: id in ids <==> id in deps.working.queues
    ensures rule.subjectType.Agent? && rule.selector.All? ==> forall id :: id in ids <==> id in deps.working.agents
    ensures rule.subjectType.Agent? && rule.selector.QueueMembership? ==>
      forall id :: id in ids <==>
        id in deps.working.agents && exists q :: q in rule.selector.queueIds && q in deps.working.agents[id].queueIds
  {
    if rule.selector.Ids? {
      assert forall id :: id in rule.selector.ids <==> id in Elements(rule.selector.ids);
      return rule.selector.ids;
    }
    if rule.subjectType.Queue? {
      ids := Enumerate(deps.working.queues.Keys);
      assert forall id :: id in ids <==> id in Elements(ids);
      return;
    }
    var all := Enumerate(deps.working.agents.Keys);
    assert forall id :: id in all <==> id in Elements(all);
    if rule.selector.All? { return all; }
    var wanted := Elements(rule.selector.queueIds);
    ids := [];
    for i := 0 to |all|
      invariant forall id :: id in ids <==>
        id in all[..i] && exists q | q in rule.selector.queueIds :: q in deps.working.agents[id].queueIds
    {
      assert all[..i + 1] == all[..i] + [all[i]] && all[i] in all;
      Overlap(rule.selector.queueIds, deps.working.agents[all[i]].queueIds);
      if wanted * Elements(deps.working.agents[all[i]].queueIds) != {} { ids := ids + [all[i]]; }
    }
    assert all[..|all|] == all;
  }

  // The affected pairs of the rules seen so far, each once.
  ghost predicate Covers(done: seq<Pair>, t: Tables, ref: SubjectRef, ids: seq<string>) {
    && Distinct(done)
    && forall p :: p in done <==> p in Affected(t, ref) && p.rule in ids
  }

  lemma CoversNext(done: seq<Pair>, t: Tables, ref: SubjectRef, ids: seq<string>, i: nat)
    requires i < |ids| && Distinct(ids) && Covers(done, t, ref, ids[..i])
    ensures var p := Pair(ids[i], ref.id);
      Covers(if p in Affected(t, ref) then done + [p] else done, t, ref, ids[..i + 1])
  {
    hide Affected;
    assert ids[..i + 1] == ids[..i] + [ids[i]];
    assert ids[i] !in ids[..i];
    forall p | p in Affected(t, ref) ensures p.subject == ref.id { AffectedMeans(t, ref, p); }
  }

  lemma SelectionUnmoved(w0: World, done: seq<Pair>, now: Time, trigger: Trigger, channels: nat)
    ensures var after := Reached(w0, done, now, trigger, channels).t;
      after.rules == w0.t.rules && forall rule :: Selected(after, rule) == Selected(w0.t, rule)
  {
    RunEvalsFrame(w0.t, done, now, trigger);
  }

  // on_event: the enabled rules of the subject's kind that select it, evaluated one by one.
  method OnEvent(deps: EngineDeps, ref: SubjectRef, now: Time)
    requires deps.AtRest() && deps.Safe()
    modifies deps
    ensures deps.AtRest() && deps.Safe() && old(deps.trail) <= deps.trail
    ensures var e := Scheduling.OnEvent(old(deps.committed), ref, now);
      deps.committed == e.t && Handed(old(deps.sent), e.sends, deps.sent, deps.channels)
  {
    ghost var w0 := deps.Durable();
    ghost var done: seq<Pair> := [];
    ReachedNothing(w0, now, ByEvent, deps.channels);
    var ids := ListEnabled(deps);
    hide Affected, Selected, Reached, AllSafe;
    for i := 0 to |ids|
      invariant Evaluated(deps, w0, done, now, ByEvent) && old(deps.trail) <= deps.trail
      invariant Covers(done, w0.t, ref, ids[..i])
    {
      assert ids[i] in ids;
      SelectionUnmoved(w0, done, now, ByEvent, deps.channels);
      CoversNext(done, w0.t, ref, ids, i);
      AffectedMeans(w0.t, ref, Pair(ids[i], ref.id));
      var record := deps.working.rules[ids[i]];
      if record.rule.subjectType != ref.kind { continue; }
      var candidates := ResolveSelector(deps, record.rule);
      if ref.id !in candidates { continue; }
      EvaluateNext(deps, w0, done, Pair(ids[i], ref.id), now, ByEvent);
      done := done + [Pair(ids[i], ref.id)];
    }
    assert ids[..|ids|] == ids;
    forall p | p in Affected(w0.t, ref) ensures p.rule in ids { AffectedMeans(w0.t, ref, p); }
    assert Elements(done) == Affected(w0.t, ref);
    EvaluatedAll(deps, w0, done, Affected(w0.t, ref), now, ByEvent);
  }

  // due: pairs with an active row, and the subjects selected by time-sensitive enabled rules.
  method Due(deps: EngineDeps) returns (due: seq<Pair>)
    requires Good(deps.working)
    ensures Distinct(due) && Elements(due) == DueSet(deps.working)
    ensures forall p :: p in due <==>
      || HasOpenOrPending(deps.working, p)
      || (p.rule in deps.working.rules && deps.working.rules[p.rule].enabled
          && ClockOnLeft(deps.working.rules[p.rule].rule)
          && p.subject in Selected(deps.working, deps.working.rules[p.rule].rule))
  {
    var pairs: set<Pair> := {};
    var active := deps.ListActive();
    for i := 0 to |active|
      invariant pairs == PairsOf(active[..i])
    {
      PairsGrow(active, i);
      pairs := pairs + {active[i].id.pair};
    }
    assert active[..|active|] == active;
    ActiveRowPairs(deps.working, active);
    var ids := ListEnabled(deps);
    for i := 0 to |ids|
      invariant forall p :: p in pairs <==>
        p in ActivePairs(deps.working) || (p in SelectedPairs(deps.working, true) && p.rule in ids[..i])
    {
      assert ids[..i + 1] == ids[..i] + [ids[i]] && ids[i] in ids;
      var rule := deps.working.rules[ids[i]].rule;
      if !TimeSensitive(rule) { continue; }
      var subjects := ResolveSelector(deps, rule);
      ghost var before := pairs;
      for k := 0 to |subjects|
        invariant forall p :: p in pairs <==> p in before || (p.rule == ids[i] && p.subject in subjects[..k])
      {
        assert subjects[..k + 1] == subjects[..k] + [subjects[k]];
        pairs := pairs + {Pair(ids[i], subjects[k])};
      }
      assert subjects[..|subjects|] == subjects;
    }
    assert ids[..|ids|] == ids;
    due := Enumerate(pairs);
    forall p { DueMeans(deps.working, p); }
    assert forall p :: p in due <==> p in Elements(due);
  }

  function PairsOf(rows: seq<Episode>): set<Pair> {
    set e | e in rows :: e.id.pair
  }

  lemma PairsGrow(rows: seq<Episode>, i: nat)
    requires i < |rows|
    ensures PairsOf(rows[..i + 1]) == PairsOf(rows[..i]) + {rows[i].id.pair}
  {
    assert rows[..i + 1] == rows[..i] + [rows[i]];
  }

  lemma ActiveRowPairs(t: Tables, rows: seq<Episode>)
    requires Good(t) && Elements(rows) == ActiveRows(t.ledger)
    ensures PairsOf(rows) == ActivePairs(t)
  {
    forall p ensures p in PairsOf(rows) <==> p in ActivePairs(t) {
      if p in PairsOf(rows) {
        var e :| e in rows && e.id.pair == p;
        assert e in Elements(rows);
        var q, i :| q in t.ledger && 0 <= i < |t.ledger[q]| && t.ledger[q][i].episode.Active()
                    && t.ledger[q][i].episode == e;
        assert q == p;
      }
      if p in ActivePairs(t) {
        var e := t.ledger[p][ActiveAt(t.ledger[p]).value].episode;
        assert e in ActiveRows(t.ledger);
        assert e in Elements(rows) && e.id.pair == p;
      }
    }
  }

  // on_tick: whatever order due returns.
  method OnTick(deps: EngineDeps, now: Time)
    requires deps.AtRest() && deps.Safe()
    modifies deps
    ensures deps.AtRest() && deps.Safe() && old(deps.trail) <= deps.trail
    ensures var e := Scheduling.OnTick(old(deps.committed), now);
      deps.committed == e.t && Handed(old(deps.sent), e.sends, deps.sent, deps.channels)
    ensures StampedAt(old(deps.sent), deps.sent, now)
  {
    ghost var w0 := deps.Durable();
    assert SafeState(w0);
    ReachedNothing(w0, now, ByTick, deps.channels);
    var pairs := Due(deps);
    hide Reached, AllSafe, DueSet;
    for i := 0 to |pairs|
      invariant Evaluated(deps, w0, pairs[..i], now, ByTick) && old(deps.trail) <= deps.trail
    {
      assert pairs[..i + 1] == pairs[..i] + [pairs[i]];
      EvaluateNext(deps, w0, pairs[..i], pairs[i], now, ByTick);
    }
    assert pairs[..|pairs|] == pairs;
    EvaluatedAll(deps, w0, pairs, DueSet(w0.t), now, ByTick);
    TickSendsAt(w0.t, now);
    HandedAt(w0.sent, Scheduling.OnTick(w0.t, now).sends, deps.sent, deps.channels, now);
  }

  /* ---------- Ingest ---------- */

  lemma AppendSafe(states: seq<World>, w: World)
    requires AllSafe(states) && SafeState(w)
    ensures AllSafe(states + [w])
  {
    hide SafeState;
  }

  // Up to the change callback: one transaction on the path the line takes.
  method Gauntlet(deps: EngineDeps, line: Line, seqNo: nat) returns (admission: Admission)
    requires deps.AtRest()
    modifies deps
    ensures deps.AtRest() && deps.sent == old(deps.sent) && deps.trail == old(deps.trail) + [deps.Durable()]
    ensures deps.committed == Admit(old(deps.committed), line, seqNo)
    ensures admission == Classify(old(deps.committed), line)
    ensures if Changes(old(deps.committed), line)
      then line.parsed.Some? && admission == Projected(SubjectOf(line.parsed.value), line.parsed.value.ts)
      else !admission.Projected?
  {
    ChangesAt(deps.committed, line);
    hide Changes;
    if line.parsed.None? {
      deps.Increment(ValidationFailures);
      deps.Commit();
      return Invalid;
    }
    var e := line.parsed.value;
    if e.eventId in deps.working.log {
      var mismatch := deps.working.log[e.eventId].payload != line.payload;
      deps.Increment(Duplicates);
      if mismatch { deps.Increment(DuplicatePayloadMismatch); }
      deps.Commit();
      return Duplicate(mismatch);
    }
    var ref := SubjectOf(e);
    var priorQueue := if ref.kind.Queue? then PriorQueue(deps.working, ref.id) else None;
    var priorAgent := if ref.kind.Agent? then PriorAgent(deps.working, ref.id) else None;
    var watermark := if priorQueue.Some? then Some(priorQueue.value.lastEventTs)
                     else if priorAgent.Some? then Some(priorAgent.value.lastEventTs) else None;
    if watermark.Some? && e.ts < watermark.value {
      deps.Increment(LateDrops);
      var logged := deps.AppendEvent(EventRecord(e, line.payload, seqNo));
      deps.Commit();
      return Late;
    }
    var disagreement := e.AdherenceCheck? && StateDisagreement(priorAgent, e);
    deps.Increment(EventsAccepted);
    if disagreement { deps.Increment(StateDisagreements); }
    var logged := deps.AppendEvent(EventRecord(e, line.payload, seqNo));
    if ref.kind.Queue? {
      deps.PutQueue(ApplySnapshot(priorQueue, e));
    } else if e.AdherenceCheck? {
      deps.PutAgent(e.agentId, ApplyAdherence(priorAgent, e));
    } else {
      deps.PutAgent(e.agentId, ApplyStateChange(priorAgent, e));
    }
    deps.Commit();
    return Projected(ref, e.ts);
  }

  // ingest_event with the engine's event trigger as its change callback.
  method IngestEvent(deps: EngineDeps, line: Line, seqNo: nat) returns (accepted: bool, changed: Option<SubjectRef>)
    requires deps.AtRest() && deps.Safe()
    modifies deps
    ensures deps.AtRest() && deps.Safe() && old(deps.trail) <= deps.trail
    ensures var e := IngestLine(old(deps.committed), line, seqNo);
      deps.committed == e.t && Handed(old(deps.sent), e.sends, deps.sent, deps.channels)
    ensures var admission := Classify(old(deps.committed), line);
      && (accepted <==> admission.Late? || admission.Projected?)
      && changed == if admission.Projected? then Some(SubjectOf(line.parsed.value)) else None
    ensures ArrivalStamps(old(deps.committed), line, old(deps.sent), deps.sent)
  {
    ghost var w0 := deps.Durable();
    assert SafeState(w0);
    var admission := Gauntlet(deps, line, seqNo);
    assert deps.Durable() == Apply(w0, Admission(line, seqNo), deps.channels);
    ApplyKeepsSafe(w0, Admission(line, seqNo), deps.channels);
    hide Admit, Classify, Good, SentOnce, Scheduling.OnEvent, Handed, ArrivalStamps, Changes, AllSafe;
    assert SafeState(deps.Durable());
    AppendSafe(old(deps.trail), deps.Durable());
    accepted, changed := admission.Late? || admission.Projected?, None;
    if admission.Projected? {
      assert admission.ref == SubjectOf(line.parsed.value) by { ProjectedSubject(w0.t, line); }
      OnEvent(deps, admission.ref, admission.at);
      changed := Some(admission.ref);
    } else {
      Handing(deps.sent, deps.channels);
    }
    HandedArrival(w0.t, line, seqNo, w0.sent, deps.sent, deps.channels);
  }

  // A line that changes its subject sends at the event's timestamp; any other sends nothing.
  ghost predicate ArrivalStamps(t: Tables, line: Line, before: seq<Delivery>, after: seq<Delivery>) {
    if Changes(t, line) then StampedAt(before, after, line.parsed.value.ts) else multiset(after) == multiset(before)
  }

  lemma HandedArrival(t: Tables, line: Line, seqNo: nat, before: seq<Delivery>, after: seq<Delivery>, channels: nat)
    requires Good(t) && Handed(before, IngestLine(t, line, seqNo).sends, after, channels)
    ensures ArrivalStamps(t, line, before, after)
  {
    hide IngestLine, Good, StampedAt;
    if Changes(t, line) {
      ArrivalSendsAt(t, line, seqNo);
      HandedAt(before, IngestLine(t, line, seqNo).sends, after, channels, line.parsed.value.ts);
    } else {
      OtherLinesEvaluateNothing(t, line, seqNo);
    }
  }

  /* ---------- Disabling ---------- */

  // The rows of the given pairs closed, as far as they belong to the rule.
  function Closed(ledger: Ledger, ruleId: string, pairs: set<Pair>, now: Time): Ledger {
    map p | p in ledger :: if p.rule == ruleId && p in pairs then ClosePair(ledger[p], now) else ledger[p]
  }

  lemma CloseLast(rule: Rule, p: Pair, rows: seq<Incident>, e: Episode, now: Time)
    requires PairFits(rule, p, rows) && e.Active() && exists i :: 0 <= i < |rows| && rows[i].episode == e
    ensures var closed := CloseRow(e, now);
      && UpdateRow(rows, closed) == ClosePair(rows, now)
      && UpdateRow(ClosePair(rows, now), closed) == ClosePair(rows, now)
  {
    hide RowFits;
    var i :| 0 <= i < |rows| && rows[i].episode == e;
    assert i == |rows| - 1 && e.id.ordinal == i;
    assert forall k | 0 <= k < i :: CloseOne(rows[k], now) == rows[k];
  }

  lemma CloseStored(t: Tables, e: Episode, now: Time)
    requires Good(t) && e in ActiveRows(t.ledger)
    ensures e.id.pair in t.ledger
    ensures var rows := t.ledger[e.id.pair];
      && UpdateRow(rows, CloseRow(e, now)) == ClosePair(rows, now)
      && UpdateRow(ClosePair(rows, now), CloseRow(e, now)) == ClosePair(rows, now)
  {
    var p, i :| p in t.ledger && 0 <= i < |t.ledger[p]| && t.ledger[p][i].episode.Active()
                && t.ledger[p][i].episode == e;
    CloseLast(t.rules[p.rule].rule, p, t.ledger[p], e, now);
    hide UpdateRow, ClosePair;
    assert e.id.pair == p;
  }

  // Closing one more active row closes its pair.
  lemma CloseOneMore(t: Tables, ruleId: string, pairs: set<Pair>, e: Episode, now: Time)
    requires Good(t) && e in ActiveRows(t.ledger)
    ensures var ledger := Closed(t.ledger, ruleId, pairs, now);
      && e.id.pair in ledger
      && Closed(t.ledger, ruleId, pairs + {e.id.pair}, now) ==
           if e.id.pair.rule == ruleId
           then ledger[e.id.pair := UpdateRow(ledger[e.id.pair], CloseRow(e, now))]
           else ledger
  {
    hide Good, UpdateRow, ClosePair, ActiveRows, CloseRow;
    CloseStored(t, e, now);
    var p := e.id.pair;
    var ledger, more := Closed(t.ledger, ruleId, pairs, now), Closed(t.ledger, ruleId, pairs + {p}, now);
    assert ledger.Keys == more.Keys == t.ledger.Keys;
    forall q | q in more && q != p ensures more[q] == ledger[q] {}
  }

  lemma NoActiveNothingToClose(rows: seq<Incident>, now: Time)
    requires ActiveAt(rows).None?
    ensures ClosePair(rows, now) == rows
  {
  }

  // Closing the active pairs closes all rows of the rule.
  lemma ClosedAll(t: Tables, ruleId: string, now: Time)
    requires ruleId in t.rules
    ensures Closed(t.ledger, ruleId, ActivePairs(t), now) == DisableRule(t, ruleId, now).value.ledger
    ensures Closed(t.ledger, ruleId, {}, now) == t.ledger
  {
    forall p | p in t.ledger && p !in ActivePairs(t) ensures ClosePair(t.ledger[p], now) == t.ledger[p] {
      NoActiveNothingToClose(t.ledger[p], now);
    }
    hide ClosePair, ActivePairs;
  }

  lemma SwitchedOffIsGood(t: Tables, ruleId: string)
    requires Good(t) && ruleId in t.rules
    ensures var record := t.rules[ruleId];
      Good(t.(rules := t.rules[ruleId := record.(enabled := false, version := record.version + 1)]))
  {
    hide PairFits, Accepted;
  }

  // Every active row of the rule updated in place: no transition, no notification.
  method CloseActiveSilently(deps: EngineDeps, ruleId: string, now: Time)
    requires Good(deps.working)
    modifies deps`working
    ensures deps.working == old(deps.working).(
      ledger := Closed(old(deps.working).ledger, ruleId, ActivePairs(old(deps.working)), now))
  {
    ghost var t := deps.working;
    var active := deps.ListActive();
    ActiveRowPairs(t, active);
    ghost var seen: set<Pair> := {};
    assert Closed(t.ledger, ruleId, {}, now) == t.ledger;
    assert active[..|active|] == active;
    hide Closed, Good, UpdateRow, ActiveRows, ActivePairs, CloseRow;
    for i := 0 to |active|
      invariant seen == PairsOf(active[..i])
      invariant deps.working == t.(ledger := Closed(t.ledger, ruleId, seen, now))
    {
      assert active[i] in Elements(active);
      PairsGrow(active, i);
      CloseOneMore(t, ruleId, seen, active[i], now);
      seen := seen + {active[i].id.pair};
      if active[i].id.pair.rule != ruleId { continue; }
      deps.UpdateEpisode(CloseRow(active[i], now));
    }
  }

  // disable_rule; false when there is no such rule.
  method Disable(deps: EngineDeps, ruleId: string, now: Time) returns (found: bool)
    requires deps.AtRest() && deps.Safe()
    modifies deps
    ensures deps.AtRest() && deps.Safe() && old(deps.trail) <= deps.trail
    ensures deps.sent == old(deps.sent)
    ensures var after := DisableRule(old(deps.committed), ruleId, now);
      && (found <==> after.Some?)
      && deps.committed == if found then after.value else old(deps.committed)
  {
    hide Good, SentOnce, Closed, AllSafe, SafeState, DisableRule, ActivePairs;
    ghost var w0 := deps.Durable();
    DisablingOutline(deps.trail, ruleId, now, deps.channels);
    if ruleId !in deps.working.rules { return false; }
    var record := deps.working.rules[ruleId];
    deps.UpdateRule(ruleId, record.(enabled := false, version := record.version + 1));
    CloseActiveSilently(deps, ruleId, now);
    deps.Commit();
    found := true;
  }

  lemma DisablingOutline(states: seq<World>, ruleId: string, now: Time, channels: nat)
    requires AllSafe(states) && states != []
    ensures var w := states[|states| - 1];
      && (ruleId in w.t.rules <==> DisableRule(w.t, ruleId, now).Some?)
      && (ruleId in w.t.rules ==>
            var record := w.t.rules[ruleId];
            var off := w.t.(rules := w.t.rules[ruleId := record.(enabled := false, version := record.version + 1)]);
            && Good(off)
            && DisableRule(w.t, ruleId, now)
               == Some(off.(ledger := Closed(off.ledger, ruleId, ActivePairs(off), now)))
            && AllSafe(states + [World(DisableRule(w.t, ruleId, now).value, w.sent)]))
  {
    var w := states[|states| - 1];
    assert SafeState(w);
    if ruleId in w.t.rules {
      SwitchedOffIsGood(w.t, ruleId);
      ClosedAll(w.t, ruleId, now);
      ApplyKeepsSafe(w, Disabling(ruleId, now), channels);
      hide Good, SentOnce, Closed, AllSafe, ClosePair;
      AppendSafe(states, World(DisableRule(w.t, ruleId, now).value, w.sent));
    }
  }

  /* ---------- Replay ---------- */

  // Doing what is left now leads to the tables, and in all the deliveries, that doing everything at the start did.
  ghost predicate LeadsTo(t0: Tables, s0: seq<Delivery>, all: seq<Act>, t: Tables, s: seq<Delivery>, left: seq<Act>,
                          channels: nat)
  {
    var whole, rest := RunActs(t0, all, false), RunActs(t, left, false);
    && rest.t == whole.t
    && multiset(s) + multiset(Deliveries(rest.sends, channels))
       == multiset(s0) + multiset(Deliveries(whole.sends, channels))
  }

  lemma Proceed(t0: Tables, s0: seq<Delivery>, all: seq<Act>, t: Tables, s: seq<Delivery>, done: seq<Act>,
                left: seq<Act>, now: seq<Delivery>, channels: nat)
    requires LeadsTo(t0, s0, all, t, s, done + left, channels)
    requires Handed(s, RunActs(t, done, false).sends, now, channels)
    ensures LeadsTo(t0, s0, all, RunActs(t, done, false).t, now, left, channels)
  {
    hide RunActs, Deliveries;
    RunActsSplit(t, done, left, false);
    var first := RunActs(t, done, false);
    DeliveriesSplit(first.sends, RunActs(first.t, left, false).sends, channels);
  }

  lemma Departing(t: Tables, s: seq<Delivery>, all: seq<Act>, channels: nat)
    ensures LeadsTo(t, s, all, t, s, all, channels)
  {
  }

  lemma Arrived(t0: Tables, s0: seq<Delivery>, all: seq<Act>, t: Tables, s: seq<Delivery>, channels: nat)
    requires LeadsTo(t0, s0, all, t, s, [], channels)
    ensures t == RunActs(t0, all, false).t && Handed(s0, RunActs(t0, all, false).sends, s, channels)
  {
  }

  lemma NoTicksLeft(c: Time, target: Time, tick: int)
    requires tick > 0 && c + tick > target
    ensures Ticks(TickTimes(c, target, tick)) == []
  {
  }

  // The clock walks to the target in tick-sized steps, ticking the engine at each.
  method StepTo(deps: EngineDeps, clock: ManualClock, target: Time, tick: int)
    requires tick > 0 && deps.AtRest() && deps.Safe()
    modifies deps, clock
    ensures deps.AtRest() && deps.Safe() && old(deps.trail) <= deps.trail
    ensures var e := RunActs(old(deps.committed), Ticks(TickTimes(old(clock.now), target, tick)), false);
      deps.committed == e.t && Handed(old(deps.sent), e.sends, deps.sent, deps.channels)
    ensures if old(clock.now) <= target then 0 <= target - clock.now < tick else clock.now == old(clock.now)
  {
    hide LeadsTo, RunActs, TickTimes, Ticks, Scheduling.OnTick, AllSafe, Handed;
    ghost var c, t0, s0 := clock.now, deps.committed, deps.sent;
    ghost var all := Ticks(TickTimes(c, target, tick));
    Departing(t0, s0, all, deps.channels);
    while clock.now + tick <= target
      invariant deps.AtRest() && deps.Safe() && old(deps.trail) <= deps.trail
      invariant if c <= target then c <= clock.now <= target else clock.now == c
      invariant LeadsTo(t0, s0, all, deps.committed, deps.sent, Ticks(TickTimes(clock.now, target, tick)),
                        deps.channels)
      decreases target - clock.now
    {
      ghost var before, sent := deps.committed, deps.sent;
      FirstTick(clock.now, target, tick);
      clock.Advance(tick);
      OnTick(deps, clock.now);
      OneAct(before, Tick(clock.now));
      Proceed(t0, s0, all, before, sent, [Tick(clock.now)], Ticks(TickTimes(clock.now, target, tick)), deps.sent,
              deps.channels);
    }
    NoTicksLeft(clock.now, target, tick);
    Arrived(t0, s0, all, deps.committed, deps.sent, deps.channels);
  }

  // Two runs one after the other are one run.
  lemma HandedInTurn(t: Tables, a: seq<Act>, b: seq<Act>, s0: seq<Delivery>, s1: seq<Delivery>, s2: seq<Delivery>,
                     channels: nat)
    requires Handed(s0, RunActs(t, a, false).sends, s1, channels)
    requires Handed(s1, RunActs(RunActs(t, a, false).t, b, false).sends, s2, channels)
    ensures RunActs(t, a + b, false).t == RunActs(RunActs(t, a, false).t, b, false).t
    ensures Handed(s0, RunActs(t, a + b, false).sends, s2, channels)
  {
    hide RunActs, Handed;
    RunActsSplit(t, a, b, false);
    HandedThen(s0, RunActs(t, a, false).sends, s1, RunActs(RunActs(t, a, false).t, b, false).sends, s2, channels);
  }

  // One line of the file: the clock only ever moves forward, and ticks on its way; the line is ingested regardless.
  method ReplayLine(deps: EngineDeps, clock: ManualClock, line: Line, seqNo: nat, tick: int)
    requires tick > 0 && deps.AtRest() && deps.Safe()
    modifies deps, clock
    ensures deps.AtRest() && deps.Safe() && old(deps.trail) <= deps.trail
    ensures clock.now == EndClock(old(clock.now), [line])
    ensures var e := RunActs(old(deps.committed), Script(old(clock.now), [line], seqNo, tick), false);
      deps.committed == e.t && Handed(old(deps.sent), e.sends, deps.sent, deps.channels)
  {
    ghost var t0, s0, ticks := deps.committed, deps.sent, Ticks(TickTimes(clock.now, line.ts, tick));
    OneLine(clock.now, line, seqNo, tick);
    hide RunActs, TickTimes, Ticks, AllSafe, IngestLine, Script, Handed;
    if line.ts >= clock.now {
      StepTo(deps, clock, line.ts, tick);
      clock.Set(line.ts);
    }
    ghost var t1, s1 := deps.committed, deps.sent;
    OneAct(t1, Arrive(line, seqNo));
    var accepted, changed := IngestEvent(deps, line, seqNo);
    if line.ts >= old(clock.now) {
      HandedInTurn(t0, ticks, [Arrive(line, seqNo)], s0, s1, deps.sent, deps.channels);
    }
  }

  lemma ScriptHead(c: Time, lines: seq<Line>, i: nat, tick: int)
    requires tick > 0 && i < |lines|
    ensures Script(c, lines[i..], i + 1, tick)
         == Script(c, [lines[i]], i + 1, tick) + Script(EndClock(c, [lines[i]]), lines[i + 1..], i + 2, tick)
    ensures EndClock(c, lines[i..]) == EndClock(EndClock(c, [lines[i]]), lines[i + 1..])
  {
    assert lines[i..] == [lines[i]] + lines[i + 1..];
    ScriptSplit(c, [lines[i]], lines[i + 1..], i + 1, tick);
  }

  method ReplayLines(deps: EngineDeps, clock: ManualClock, lines: seq<Line>, tick: int)
    requires tick > 0 && deps.AtRest() && deps.Safe()
    modifies deps, clock
    ensures deps.AtRest() && deps.Safe() && old(deps.trail) <= deps.trail
    ensures clock.now == EndClock(old(clock.now), lines)
    ensures var e := RunActs(old(deps.committed), Script(old(clock.now), lines, 1, tick), false);
      deps.committed == e.t && Handed(old(deps.sent), e.sends, deps.sent, deps.channels)
  {
    hide LeadsTo, RunActs, AllSafe, Script, EndClock, Handed;
    ghost var c, t0, s0 := clock.now, deps.committed, deps.sent;
    ghost var all := Script(c, lines, 1, tick);
    Departing(t0, s0, all, deps.channels);
    assert lines[0..] == lines;
    for i := 0 to |lines|
      invariant deps.AtRest() && deps.Safe() && old(deps.trail) <= deps.trail
      invariant EndClock(clock.now, lines[i..]) == EndClock(c, lines)
      invariant LeadsTo(t0, s0, all, deps.committed, deps.sent, Script(clock.now, lines[i..], i + 1, tick),
                        deps.channels)
    {
      ghost var before, sent, own := deps.committed, deps.sent, Script(clock.now, [lines[i]], i + 1, tick);
      ScriptHead(clock.now, lines, i, tick);
      ReplayLine(deps, clock, lines[i], i + 1, tick);
      Proceed(t0, s0, all, before, sent, own, Script(clock.now, lines[i + 1..], i + 2, tick), deps.sent, deps.channels);
    }
    NoLinesLeft(clock.now, lines[|lines|..], |lines| + 1, tick);
    Arrived(t0, s0, all, deps.committed, deps.sent, deps.channels);
  }

  lemma NoLinesLeft(c: Time, lines: seq<Line>, n: nat, tick: int)
    requires tick > 0 && lines == []
    ensures Script(c, lines, n, tick) == [] && EndClock(c, lines) == c
  {
  }

  lemma WatermarkIsSafe(states: seq<World>, at: Time)
    requires AllSafe(states) && states != []
    ensures var w := states[|states| - 1];
      AllSafe(states + [w.(t := w.t.(watermark := Some(at)))])
  {
    assert SafeState(states[|states| - 1]);
    hide Accepted, PairFits, SentOnce;
  }

  // replay: the clock starts at the file's first timestamp or the persisted watermark, whichever is later, and where
  // it ends is persisted.
  method ReplayFile(deps: EngineDeps, lines: seq<Line>, tick: int)
    requires tick > 0 && deps.AtRest() && deps.Safe()
    modifies deps
    ensures deps.AtRest() && deps.Safe() && old(deps.trail) <= deps.trail
    ensures var e := Replay.Replay(old(deps.committed), lines, tick);
      deps.committed == e.t && Handed(old(deps.sent), e.sends, deps.sent, deps.channels)
  {
    hide RunActs, Script, EndClock, Handed, AllSafe;
    Handing(deps.sent, deps.channels);
    if lines == [] { return; }
    var watermark := deps.working.watermark;
    var clock := new ManualClock(if watermark.Some? then Max(lines[0].ts, watermark.value) else lines[0].ts);
    assert clock.now == StartClock(deps.committed, lines);
    ReplayLines(deps, clock, lines, tick);
    WatermarkIsSafe(deps.trail, clock.now);
    deps.WriteWatermark(clock.now);
    deps.Commit();
  }

  lemma Handing(sent: seq<Delivery>, channels: nat)
    ensures Handed(sent, [], sent, channels)
  {
  }

  // Two deployments in the same state: one replays a prefix and then the whole file, the other the whole file once.
  // They end with the same tables, but for the counters of what was read twice, and the same deliveries.
  method ResumeBesideClean(a: EngineDeps, b: EngineDeps, p: seq<Line>, s: seq<Line>, tick: int)
    requires a != b && tick > 0 && a.AtRest() && a.Safe() && b.AtRest() && b.Safe()
    requires a.committed == b.committed && multiset(a.sent) == multiset(b.sent) && a.channels == b.channels
    modifies a, b
    ensures a.AtRest() && a.Safe() && b.AtRest() && b.Safe()
    ensures a.committed == b.committed.(counters := a.committed.counters)
    ensures var log := Replay.Replay(old(a.committed), p, tick).t.log;
      forall name ::
        Count(a.committed.counters, name) == Count(b.committed.counters, name) + Reread(log, p, name)
    ensures multiset(a.sent) == multiset(b.sent)
  {
    hide Replay.Replay, Handed, AllSafe, Reread;
    ghost var t, sa, sb := a.committed, a.sent, b.sent;
    ReplayFile(a, p, tick);
    ghost var mid, first := a.sent, Replay.Replay(t, p, tick);
    ReplayFile(a, p + s, tick);
    ReplayFile(b, p + s, tick);
    Resumption(t, p, s, tick);
    ghost var again, clean := Replay.Replay(first.t, p + s, tick).sends, Replay.Replay(t, p + s, tick).sends;
    HandedThen(sa, first.sends, mid, again, a.sent, a.channels);
    SameDeliveries(sa, first.sends + again, a.sent, sb, clean, b.sent, a.channels);
  }

  lemma SameDeliveries(a0: seq<Delivery>, x: seq<Notification>, a: seq<Delivery>, b0: seq<Delivery>,
                       y: seq<Notification>, b: seq<Delivery>, channels: nat)
    requires Handed(a0, x, a, channels) && Handed(b0, y, b, channels)
    requires multiset(a0) == multiset(b0) && multiset(x) == multiset(y)
    ensures multiset(a) == multiset(b)
  {
    DeliveriesIgnoreOrder(x, y, channels);
    hide Deliveries;
  }
}
