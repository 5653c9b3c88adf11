// The engine as it runs (app/engine/engine.py): reading, writing and sending step by step, proved to do what the
// functions on table values say, and to leave a sound durable state whenever the process dies.
module Service {
  import opened Base
  import opened Domain
  import opened Facts
  import opened Rules
  import opened Evaluation
  import opened Episodes
  import opened Incidents
  import opened Engine
  import opened Ingest
  import opened Readings
  import opened Scheduling
  import opened Runs
  import opened Store

  // A durable state that some way of killing the evaluation leaves behind.
  ghost predicate LeftByCut(w0: World, w: World, p: Pair, now: Time, trigger: Trigger, channels: nat) {
    exists cut :: w == Apply(w0, Evaluation(p, now, trigger, cut), channels)
  }

  /* ---------- One evaluation ---------- */

  // Rule and subject row reloaded, rule validated, conditions evaluated, message rendered.
  method Read(deps: EngineDeps, p: Pair, now: Time) returns (r: Option<(Rule, Reading)>, raised: bool)
    ensures r == ReadingFor(deps.working, p, now)
    ensures Good(deps.working) ==> !raised
    ensures forall s | Good(deps.working) && Stored(deps.working, p, s) ::
      r.Some? && r.value.0 == deps.working.rules[p.rule].rule && ReadsAs(r.value.0, p.subject, s, now, r.value.1)
  {
    forall s | Good(deps.working) && Stored(deps.working, p, s) {
      ReadingMeans(deps.working, p, now, s);
    }
    hide Good, ReadsAs, Stored;
    if p.rule !in deps.working.rules || !deps.working.rules[p.rule].enabled { return None, false; }
    var rule := deps.working.rules[p.rule].rule;
    var error, declared := Validate(rule);
    if error.Some? { return None, true; }
    var state := StateFor(deps.working, rule.subjectType, p.subject);
    if state.None? { return None, false; }
    TypeSoundness(rule, state.value, now, p.subject);
    var result := RunEvaluator(rule, state.value, now);
    var body := Render(rule.template, p.subject, result.value.snapshot);
    var reading := Reading(now, result.value.matched, result.value.missing, result.value.snapshot, body.value);
    return Some((rule, reading)), false;
  }

  // What is left to notify now completes what was to be notified at the start.
  ghost predicate Completes(rule: Rule, p: Pair, e: Episode, reading: Reading, rows0: seq<Incident>,
                            trs: seq<Transition>, rows: seq<Incident>, left: seq<Transition>,
                            pending: seq<Notification>)
    requires RecipientAccepted(rule)
  {
    var all, rest := Notify(rule, p, rows0, e, trs, reading), Notify(rule, p, rows, e, left, reading);
    && (rest.None? <==> all.None?)
    && (rest.Some? ==> all.value.0 == rest.value.0 && all.value.1 == pending + rest.value.1)
  }

  lemma CompletesNext(rule: Rule, p: Pair, e: Episode, reading: Reading, rows0: seq<Incident>, trs: seq<Transition>,
                      rows: seq<Incident>, left: seq<Transition>, pending: seq<Notification>)
    requires RecipientAccepted(rule)
    requires Completes(rule, p, e, reading, rows0, trs, rows, left, pending)
    ensures left == [] ==> Notify(rule, p, rows0, e, trs, reading) == Some((rows, pending))
    ensures left != [] ==>
      var n := NoteFor(rule, e, p.subject, left[0], reading);
      var r := Incidents.InsertIfAbsent(rows, n);
      && n.episode == e.id
      && (r.None? ==> Notify(rule, p, rows0, e, trs, reading).None?)
      && (r.Some? ==> r.value.0 != [] && Completes(rule, p, e, reading, rows0, trs, r.value.0, left[1..],
                                                   if r.value.1 then pending + [n] else pending))
  {
    if left == [] {
      assert pending + [] == pending;
    } else {
      var n := NoteFor(rule, e, p.subject, left[0], reading);
      var r := Incidents.InsertIfAbsent(rows, n);
      hide NoteFor, HasKey;
      if r.Some? {
        var rest := Notify(rule, p, r.value.0, e, left[1..], reading);
        if rest.Some? {
          assert pending + ([n] + rest.value.1) == (pending + [n]) + rest.value.1;
          assert [] + rest.value.1 == rest.value.1;
        }
      }
    }
  }

  lemma CompletesAll(rule: Rule, p: Pair, e: Episode, reading: Reading, rows: seq<Incident>, trs: seq<Transition>)
    requires RecipientAccepted(rule)
    ensures Completes(rule, p, e, reading, rows, trs, rows, trs, [])
  {
    hide Notify;
  }

  // The notification rows of the transitions, inside the open transaction.
  method Persist(deps: EngineDeps, rule: Rule, p: Pair, e: Episode, trs: seq<Transition>, reading: Reading)
      returns (sends: Option<seq<Notification>>)
    requires RecipientAccepted(rule) && e.id.pair == p
    modifies deps`working
    ensures var r := Notify(rule, p, RowsOf(old(deps.working).ledger, p), e, trs, reading);
      if r.None? then sends.None?
      else && sends == Some(r.value.1)
           && RowsOf(deps.working.ledger, p) == r.value.0
           && SameOutside(old(deps.working), deps.working, p)
  {
    hide Notify, Incidents.InsertIfAbsent, NoteFor, SameOutside, Completes;
    ghost var before, rows0 := deps.working, RowsOf(deps.working.ledger, p);
    sends := Some([]);
    SameItself(before, p);
    CompletesAll(rule, p, e, reading, rows0, trs);
    assert trs[0..] == trs;
    for i := 0 to |trs|
      invariant SameOutside(before, deps.working, p) && sends.Some?
      invariant Completes(rule, p, e, reading, rows0, trs, RowsOf(deps.working.ledger, p), trs[i..], sends.value)
    {
      CompletesNext(rule, p, e, reading, rows0, trs, RowsOf(deps.working.ledger, p), trs[i..], sends.value);
      assert trs[i..][0] == trs[i] && trs[i..][1..] == trs[i + 1..];
      ghost var current := deps.working;
      var n := NoteFor(rule, e, p.subject, trs[i], reading);
      var inserted := deps.InsertIfAbsent(n);
      if inserted.None? { return None; }
      WriteOutside(before, current, p, RowsOf(deps.working.ledger, p));
      if inserted.value { sends := Some(sends.value + [n]); }
    }
    CompletesNext(rule, p, e, reading, rows0, trs, RowsOf(deps.working.ledger, p), trs[|trs|..], sends.value);
  }

  // Everything but the rows of one pair is the same.
  ghost predicate SameOutside(a: Tables, b: Tables, p: Pair) {
    && b == a.(ledger := b.ledger)
    && (forall q | q != p :: RowsOf(b.ledger, q) == RowsOf(a.ledger, q) && (q in b.ledger <==> q in a.ledger))
    && (p in a.ledger ==> p in b.ledger)
    && (p in b.ledger && (p in a.ledger ==> a.ledger[p] != []) ==> b.ledger[p] != [])
  }

  lemma SameItself(a: Tables, p: Pair)
    ensures SameOutside(a, a, p)
  {
  }

  lemma WriteOutside(a: Tables, b: Tables, p: Pair, rows: seq<Incident>)
    requires SameOutside(a, b, p) && rows != []
    ensures SameOutside(a, b.(ledger := b.ledger[p := rows]), p)
  {
  }

  lemma OutsideIsPut(a: Tables, b: Tables, p: Pair)
    requires SameOutside(a, b, p)
    ensures b == a.(ledger := PutRows(a.ledger, p, RowsOf(b.ledger, p)))
  {
    var put := PutRows(a.ledger, p, RowsOf(b.ledger, p));
    assert b.ledger.Keys == put.Keys;
    SameLedger(b.ledger, put);
  }

  lemma AdvanceKeepsPair(prior: Option<Episode>, matched: bool, now: Time, rule: Rule, id: EpisodeId,
                         missing: seq<FactName>)
    requires Advance(prior, matched, now, rule, id, missing).Moved?
    ensures Advance(prior, matched, now, rule, id, missing).episode.id.pair == id.pair
  {
  }

  // The episode row: created when there was no active one and there is one now, otherwise updated.
  method WriteRow(deps: EngineDeps, p: Pair, e: Episode)
    requires e.id.pair == p
    modifies deps`working
    ensures WriteEpisode(RowsOf(old(deps.working).ledger, p), e) == Some(RowsOf(deps.working.ledger, p))
    ensures SameOutside(old(deps.working), deps.working, p)
  {
    var rows := RowsOf(deps.working.ledger, p);
    if GetActive(rows).None? {
      if !e.state.Clear? {
        var ok := deps.CreateEpisode(e);
        assert ok;
      }
    } else {
      deps.UpdateEpisode(e);
    }
  }

  // Active row reloaded and advanced; episode row and notification rows written in one transaction.
  method Transact(deps: EngineDeps, rule: Rule, p: Pair, reading: Reading)
      returns (o: Option<(seq<Transition>, seq<Notification>)>)
    requires deps.AtRest() && RecipientAccepted(rule)
    modifies deps
    ensures deps.AtRest() && deps.sent == old(deps.sent)
    ensures var step := StepPair(rule, p, RowsOf(old(deps.committed).ledger, p), reading);
      if step.None? then o.None? && deps.committed == old(deps.committed) && deps.trail == old(deps.trail)
      else && o == Some((step.value.transitions, step.value.sends))
           && deps.committed == old(deps.committed).(
                ledger := PutRows(old(deps.committed).ledger, p, step.value.incidents))
           && deps.trail == old(deps.trail) + [deps.Durable()]
  {
    hide Notify, Advance, WriteEpisode, SameOutside, ActiveAt;
    var rows := RowsOf(deps.working.ledger, p);
    var prior := GetActive(rows);
    if prior.Some? && !prior.value.Valid() { return None; }
    var m := Advance(prior, reading.matched, reading.now, rule, EpisodeId(p, |rows|), reading.missing);
    if m.Refused? { return None; }
    AdvanceKeepsPair(prior, reading.matched, reading.now, rule, EpisodeId(p, |rows|), reading.missing);
    WriteRow(deps, p, m.episode);
    ghost var written := deps.working;
    var sends := Persist(deps, rule, p, m.episode, m.transitions, reading);
    if sends.None? {
      deps.Rollback();
      return None;
    }
    OutsideThrough(old(deps.working), written, deps.working, p);
    OutsideIsPut(old(deps.working), deps.working, p);
    deps.Commit();
    o := Some((m.transitions, sends.value));
  }

  lemma OutsideThrough(a: Tables, b: Tables, c: Tables, p: Pair)
    requires SameOutside(a, b, p) && SameOutside(b, c, p)
    ensures SameOutside(a, c, p)
  {
  }

  // evaluate_rule. It has the effect of the function of the same name, raises nothing on good tables, and whenever it
  // is killed leaves one of the durable states its cuts describe.
  method EvaluateRule(deps: EngineDeps, p: Pair, now: Time, trigger: Trigger)
      returns (transitions: seq<Transition>, raised: bool)
    requires deps.AtRest()
    modifies deps
    ensures deps.AtRest() && old(deps.trail) <= deps.trail
    ensures var e := Engine.EvaluateRule(old(deps.committed), p, now, trigger);
      deps.Durable() == World(e.t, old(deps.sent) + Deliveries(e.sends, deps.channels))
    ensures transitions == EvalPair(old(deps.committed), p, now).transitions
    ensures Good(old(deps.committed)) ==> !raised
    ensures forall s | Good(old(deps.committed)) && Stored(old(deps.committed), p, s) ::
      p.rule in deps.committed.rules
      && Evaluates(deps.committed.rules[p.rule].rule, RowsOf(old(deps.committed).ledger, p), s, now,
                   RowsOf(deps.committed.ledger, p), transitions)
    ensures forall i | |old(deps.trail)| <= i < |deps.trail| ::
      LeftByCut(old(deps.Durable()), deps.trail[i], p, now, trigger, deps.channels)
  {
    hide LeftByCut, PartlySent, Deliveries, Engine.EvaluateRule, EvalPair, ReadingFor, StepPair, PutRows, Good;
    hide Stored, Evaluates, RowsOf;
    ghost var w0 := deps.Durable();
    StoredEvaluates(w0.t, p, now, trigger);
    EvaluationOutline(w0, p, now, trigger, deps.channels);
    deps.Increment(CounterOf(trigger));
    deps.Commit();
    CutAtCount(w0, p, now, trigger, deps.channels);
    var r;
    r, raised := Read(deps, p, now);
    if r.None? { return [], raised; }
    if Good(w0.t) { ReadThenStep(w0.t, p, now); }
    var o := Transact(deps, r.value.0, p, r.value.1);
    if o.None? { return [], true; }
    transitions := o.value.0;
    ghost var counted := deps.trail;
    SendAll(deps, o.value.1);
    forall i | |counted| - 1 <= i < |deps.trail|
      ensures LeftByCut(w0, deps.trail[i], p, now, trigger, deps.channels)
    {
      NothingSent(w0.sent, Deliveries(o.value.1, deps.channels), deps.committed);
      CutWhileSending(w0, deps.trail[i], p, now, trigger, deps.channels);
    }
  }

  lemma ReadThenStep(t: Tables, p: Pair, now: Time)
    requires Good(t) && ReadingFor(t, p, now).Some?
    ensures var r := ReadingFor(t, p, now).value; StepPair(r.0, p, RowsOf(t.ledger, p), r.1).Some?
  {
    NothingRaises(t, p, now);
  }

  // The cases of an evaluation: nothing but the count, or the pair's rows and the sends too.
  lemma EvaluationOutline(w0: World, p: Pair, now: Time, trigger: Trigger, channels: nat)
    ensures var t1 := w0.t.(counters := Bump(w0.t.counters, CounterOf(trigger)));
      var r, rows := ReadingFor(w0.t, p, now), RowsOf(w0.t.ledger, p);
      var step := if r.None? then None else StepPair(r.value.0, p, rows, r.value.1);
      var e, transitions := Engine.EvaluateRule(w0.t, p, now, trigger), EvalPair(w0.t, p, now).transitions;
      && w0.sent + Deliveries([], channels) == w0.sent
      && if step.None? then e == Effect(t1, []) && transitions == []
         else && e == Effect(t1.(ledger := PutRows(w0.t.ledger, p, step.value.incidents)), step.value.sends)
              && transitions == step.value.transitions
  {
    hide ReadingFor, StepPair;
  }

  lemma StoredEvaluates(t: Tables, p: Pair, now: Time, trigger: Trigger)
    ensures var after := Engine.EvaluateRule(t, p, now, trigger).t;
      forall s | Good(t) && Stored(t, p, s) ::
        p.rule in after.rules
        && Evaluates(after.rules[p.rule].rule, RowsOf(t.ledger, p), s, now,
                     RowsOf(after.ledger, p), EvalPair(t, p, now).transitions)
  {
    EvaluateShape(t, p, now, trigger);
    hide Good, Evaluates, EvalPair, Engine.EvaluateRule, RowsOf;
    var after := Engine.EvaluateRule(t, p, now, trigger).t;
    forall s | Good(t) && Stored(t, p, s)
      ensures Evaluates(after.rules[p.rule].rule, RowsOf(t.ledger, p), s, now,
                        RowsOf(after.ledger, p), EvalPair(t, p, now).transitions)
    {
      EvaluationMeans(t, p, now, s);
    }
  }

  lemma CutAtCount(w0: World, p: Pair, now: Time, trigger: Trigger, channels: nat)
    ensures var t1 := w0.t.(counters := Bump(w0.t.counters, CounterOf(trigger)));
      && LeftByCut(w0, World(t1, w0.sent), p, now, trigger, channels)
      && ReadingFor(t1, p, now) == ReadingFor(w0.t, p, now)
      && (Good(w0.t) ==> Good(t1))
  {
    var t1 := w0.t.(counters := Bump(w0.t.counters, CounterOf(trigger)));
    assert w0.sent + [] == w0.sent;
    assert World(t1, w0.sent) == Apply(w0, Evaluation(p, now, trigger, AfterCount), channels);
    assert forall kind, id :: StateFor(t1, kind, id) == StateFor(w0.t, kind, id);
  }

  // On the way to delivering everything in ds.
  ghost predicate PartlySent(w: World, t: Tables, sent: seq<Delivery>, ds: seq<Delivery>) {
    w.t == t && sent <= w.sent <= sent + ds
  }

  lemma DeliveriesAround(notes: seq<Notification>, k: nat, channels: nat)
    requires k < |notes|
    ensures Deliveries(notes[..k + 1], channels) == Deliveries(notes[..k], channels) + Fan(notes[k], channels)
    ensures Deliveries(notes, channels)
         == Deliveries(notes[..k + 1], channels) + Deliveries(notes[k + 1..], channels)
  {
    hide Deliveries;
    DeliveriesSplit(notes[..k], [notes[k]], channels);
    assert notes[..k] + [notes[k]] == notes[..k + 1];
    DeliveriesOfOne(Uncut, notes[k], channels);
    DeliveriesSplit(notes[..k + 1], notes[k + 1..], channels);
    assert notes[..k + 1] + notes[k + 1..] == notes;
  }

  lemma PrefixOf<T>(a: seq<T>, b: seq<T>, c: seq<T>, d: seq<T>, j: nat)
    requires j <= |c|
    ensures a <= (a + b) + c[..j] <= a + ((b + c) + d)
  {
    assert a + ((b + c) + d) == ((a + b) + c[..j]) + (c[j..] + d);
  }

  // Any part of the deliveries may have been made when the process dies.
  lemma CutWhileSending(w0: World, w: World, p: Pair, now: Time, trigger: Trigger, channels: nat)
    requires var e := Engine.EvaluateRule(w0.t, p, now, trigger);
      PartlySent(w, e.t, w0.sent, Deliveries(e.sends, channels))
    ensures LeftByCut(w0, w, p, now, trigger, channels)
  {
    var e := Engine.EvaluateRule(w0.t, p, now, trigger);
    var ds, k := Deliveries(e.sends, channels), |w.sent| - |w0.sent|;
    assert w.sent == w0.sent + Delivered(AfterSending(k), ds);
    assert w == Apply(w0, Evaluation(p, now, trigger, AfterSending(k)), channels);
  }

  lemma NothingSent(sent: seq<Delivery>, ds: seq<Delivery>, t: Tables)
    ensures PartlySent(World(t, sent), t, sent, ds)
  {
  }

  method SendAll(deps: EngineDeps, notes: seq<Notification>)
    requires deps.AtRest()
    modifies deps`sent, deps`trail
    ensures deps.AtRest() && old(deps.trail) <= deps.trail
    ensures deps.sent == old(deps.sent) + Deliveries(notes, deps.channels)
    ensures forall i | |old(deps.trail)| <= i < |deps.trail| ::
      PartlySent(deps.trail[i], deps.committed, old(deps.sent), Deliveries(notes, deps.channels))
  {
    hide Deliveries, PartlySent;
    ghost var t, sent := deps.committed, deps.sent;
    NoDeliveries(sent, deps.channels);
    assert notes[..0] == [];
    for k := 0 to |notes|
      invariant deps.committed == t && deps.AtRest() && old(deps.trail) <= deps.trail
      invariant deps.sent == sent + Deliveries(notes[..k], deps.channels)
      invariant forall i | |old(deps.trail)| <= i < |deps.trail| ::
        PartlySent(deps.trail[i], t, sent, Deliveries(notes, deps.channels))
    {
      DeliveriesAround(notes, k, deps.channels);
      ghost var before := deps.trail;
      deps.DispatchSend(notes[k]);
      forall i | |before| <= i < |deps.trail|
        ensures PartlySent(deps.trail[i], t, sent, Deliveries(notes, deps.channels))
      {
        PartOfFan(t, sent, notes, k, deps.channels, i - |before| + 1);
      }
    }
    assert notes[..|notes|] == notes;
  }

  lemma NoDeliveries(sent: seq<Delivery>, channels: nat)
    ensures sent + Deliveries([], channels) == sent
  {
  }

  // k notifications delivered, and the next one to the first j channels.
  lemma PartOfFan(t: Tables, sent: seq<Delivery>, notes: seq<Notification>, k: nat, channels: nat, j: nat)
    requires k < |notes| && j <= channels
    ensures var now := (sent + Deliveries(notes[..k], channels)) + Fan(notes[k], channels)[..j];
      PartlySent(World(t, now), t, sent, Deliveries(notes, channels))
  {
    hide Deliveries;
    DeliveriesAround(notes, k, channels);
    PrefixOf(sent, Deliveries(notes[..k], channels), Fan(notes[k], channels), Deliveries(notes[k + 1..], channels), j);
  }
}
