// Whole runs of one pair: any sequence of evaluations and silent closings, from no rows at all.
module PairRuns {
  import opened Base
  import opened Domain
  import opened Facts
  import opened Rules
  import opened Evaluation
  import opened Episodes
  import opened Incidents

  datatype PairStep = Observe(reading: Reading) | Close(at: Time)

  function TimeOf(s: PairStep): Time {
    if s.Observe? then s.reading.now else s.at
  }

  function StepOnce(rule: Rule, pair: Pair, incs: seq<Incident>, s: PairStep): seq<Incident>
    requires RecipientAccepted(rule)
  {
    match s
    case Observe(r) =>
      var o := StepPair(rule, pair, incs, r);
      if o.Some? then o.value.incidents else incs
    case Close(now) => ClosePair(incs, now)
  }

  // The rows after a run.
  function After(rule: Rule, pair: Pair, steps: seq<PairStep>): seq<Incident>
    requires RecipientAccepted(rule)
  {
    if steps == [] then []
    else StepOnce(rule, pair, After(rule, pair, steps[..|steps| - 1]), steps[|steps| - 1])
  }

  lemma {:induction false} AfterFits(rule: Rule, pair: Pair, steps: seq<PairStep>)
    requires RecipientAccepted(rule)
    ensures PairFits(rule, pair, After(rule, pair, steps))
  {
    if steps != [] {
      var n := |steps| - 1;
      AfterFits(rule, pair, steps[..n]);
      var before := After(rule, pair, steps[..n]);
      match steps[n]
      case Observe(r) => StepKeepsPair(rule, pair, before, r);
      case Close(now) => CloseKeepsPair(rule, pair, before, now);
    }
  }

  // The run seen through its active row alone.
  function NextActive(rule: Rule, id: EpisodeId, active: Option<Episode>, s: PairStep): Option<Episode> {
    match s
    case Close(_) => None
    case Observe(r) =>
      var m := Advance(active, r.matched, r.now, rule, id, r.missing);
      if m.Moved? && m.episode.Active() then Some(m.episode) else None
  }

  ghost predicate ActiveFits(rule: Rule, pair: Pair, active: Option<Episode>) {
    active.Some? ==>
      var e := active.value;
      && e.Active() && e.Valid() && e.id.pair == pair
      && (e.state.Pending? ==> !e.stale && rule.forDurationSec > 0)
  }

  lemma ActiveAfter(rule: Rule, pair: Pair, steps: seq<PairStep>)
    requires RecipientAccepted(rule) && steps != []
    ensures var n := |steps| - 1;
      var before := After(rule, pair, steps[..n]);
      && ActiveFits(rule, pair, GetActive(before))
      && GetActive(After(rule, pair, steps)) == NextActive(rule, EpisodeId(pair, |before|), GetActive(before), steps[n])
  {
    var n := |steps| - 1;
    var before, after := After(rule, pair, steps[..n]), After(rule, pair, steps);
    AfterFits(rule, pair, steps[..n]);
    AfterFits(rule, pair, steps);
    ActiveIsLast(rule, pair, before);
    ActiveIsLast(rule, pair, after);
    if GetActive(before).Some? { assert RowFits(rule, before[|before| - 1]); }
    match steps[n]
    case Observe(r) => StepShape(rule, pair, before, r);
    case Close(now) => CloseKeepsPair(rule, pair, before, now);
  }

  /* ---------- Reminder rate ---------- */

  lemma {:induction false} SpacingAddsUp(rule: Rule, notes: seq<Notification>, k: nat)
    requires k < |notes|
    requires forall i | 0 < i <= k :: notes[i].at - notes[i - 1].at >= rule.cooldownSec * SECOND
    ensures k * (rule.cooldownSec * SECOND) <= notes[k].at - notes[0].at
  {
    if k > 0 {
      SpacingAddsUp(rule, notes, k - 1);
      var c := rule.cooldownSec * SECOND;
      assert k * c == (k - 1) * c + c;
    }
  }

  // Whatever the order of the clock readings, an opened episode has sent at most one reminder per cooldown since
  // it opened, and none at all when the cooldown is zero.
  lemma ReminderRate(rule: Rule, pair: Pair, steps: seq<PairStep>, i: nat)
    requires RecipientAccepted(rule) && i < |After(rule, pair, steps)|
    requires After(rule, pair, steps)[i].episode.openedAt.Some?
    ensures var e := After(rule, pair, steps)[i].episode;
      && e.lastNotifiedAt.Some?
      && e.notifySeq * (rule.cooldownSec * SECOND) <= e.lastNotifiedAt.value - e.openedAt.value
      && (rule.cooldownSec == 0 ==> e.notifySeq == 0)
  {
    AfterFits(rule, pair, steps);
    var inc := After(rule, pair, steps)[i];
    assert RowFits(rule, inc);
    SpacingAddsUp(rule, inc.notes, inc.episode.notifySeq);
  }

  // In every run, each opened episode's notification rows are, in insertion order, OPENED/0, REMINDER/1 up to
  // notifySeq, and then at most one RESOLVED/0 (only on a closed row); an unopened episode has none.
  lemma NotificationScript(rule: Rule, pair: Pair, steps: seq<PairStep>, i: nat)
    requires RecipientAccepted(rule) && i < |After(rule, pair, steps)|
    ensures var inc := After(rule, pair, steps)[i];
      var e, k := inc.episode, inc.episode.notifySeq;
      && e.id == EpisodeId(pair, i)
      && (e.openedAt.None? ==> inc.notes == [])
      && (e.openedAt.Some? ==>
            && (|inc.notes| == k + 1 || (|inc.notes| == k + 2 && e.state.Clear?))
            && (forall j | 0 <= j < |inc.notes| :: KeyOf(inc.notes[j]) ==
                  if j == 0 then NoteKey(e.id, Opened, 0)
                  else if j <= k then NoteKey(e.id, Reminder, j)
                  else NoteKey(e.id, Resolved, 0)))
  {
    AfterFits(rule, pair, steps);
    assert RowFits(rule, After(rule, pair, steps)[i]);
  }

  /* ---------- The automaton's edges ---------- */

  // A cleared episode is kept while nothing matches, and a match starts anew as from none.
  lemma ClearedEpisodesAreDone(rule: Rule, e: Episode, now: Time, id: EpisodeId, missing: seq<FactName>)
    requires e.state.Clear? && e.id.pair == id.pair
    ensures Advance(Some(e), false, now, rule, id, missing) == Moved(e, [])
    ensures Advance(Some(e), true, now, rule, id, missing) == Advance(None, true, now, rule, id, missing)
  {
  }

  // A stored row is rejected when loaded exactly when it lacks an instant its state needs, or is frozen without being
  // open or without saying since when; and the automaton never makes such a row of one that loads.
  lemma LoadRejectsIff(e: Episode)
    ensures !e.Valid() <==>
      || (e.state == Pending && e.firstTrueAt == None)
      || (e.state == Open && (e.openedAt == None || e.lastNotifiedAt == None))
      || (e.stale && (e.state != Open || e.staleSince == None))
  {
  }

  lemma AdvanceKeepsValid(rule: Rule, prior: Option<Episode>, matched: bool, now: Time, id: EpisodeId,
                          missing: seq<FactName>)
    requires prior.Some? ==> prior.value.Valid() && prior.value.id.pair == id.pair
    ensures var m := Advance(prior, matched, now, rule, id, missing); m.Moved? && m.episode.Valid()
  {
  }

  // Advancing is refused exactly for another pair's episode, or one that lacks the instant its state needs.
  lemma AdvanceRefusesIff(rule: Rule, prior: Option<Episode>, matched: bool, now: Time, id: EpisodeId,
                          missing: seq<FactName>)
    ensures Advance(prior, matched, now, rule, id, missing).Refused? <==>
      && prior.Some?
      && var e := prior.value;
         || e.id.pair != id.pair
         || (e.state.Pending? && e.firstTrueAt.None?)
         || (e.state.Open? && matched && rule.cooldownSec > 0 && e.lastNotifiedAt.None?)
    ensures prior.Some? && prior.value.Valid() && prior.value.id.pair == id.pair ==>
      Advance(prior, matched, now, rule, id, missing).Moved?
  {
  }

  /* ---------- What a notification says ---------- */

  // The notification reports the evaluation: its instant, facts and message, to the recipient the rule names.
  ghost predicate Reports(rule: Rule, subject: string, n: Notification, s: PairStep) {
    && s.Observe?
    && n.at == s.reading.now && n.facts == s.reading.facts && n.body == s.reading.body
    && n.recipientKind == rule.recipient.kind
    && (n.recipientKind.Author? ==> n.recipientTarget == rule.createdBy)
    && (n.recipientKind.SubjectAgent? ==> n.recipientTarget == subject)
    && (n.recipientKind.Channel? ==> Some(n.recipientTarget) == rule.recipient.target)
    && (n.transition.Resolved? <==> !s.reading.matched)
    && (n.transition.Resolved? ==> !Unfounded(rule, s.reading.missing))
  }

  lemma SendsReport(rule: Rule, pair: Pair, incs: seq<Incident>, r: Reading)
    requires RecipientAccepted(rule) && PairFits(rule, pair, incs)
    ensures StepPair(rule, pair, incs, r).Some?
    ensures forall n | n in StepPair(rule, pair, incs, r).value.sends :: Reports(rule, pair.subject, n, Observe(r))
  {
    hide StepPair, NotesFit, ActiveAt;
    StepShape(rule, pair, incs, r);
  }

  lemma RowGains(rule: Rule, pair: Pair, incs: seq<Incident>, r: Reading, i: nat)
    requires RecipientAccepted(rule) && PairFits(rule, pair, incs)
    requires i < |StepOnce(rule, pair, incs, Observe(r))|
    ensures var step := StepPair(rule, pair, incs, r);
      && step.Some?
      && StepOnce(rule, pair, incs, Observe(r)) == step.value.incidents
      && forall n | n in step.value.incidents[i].notes :: (i < |incs| && n in incs[i].notes) || n in step.value.sends
  {
    hide StepPair, PairFits, Advance, ActiveAt, NotesOf;
    ActiveIsLast(rule, pair, incs);
    StepShape(rule, pair, incs, r);
  }

  // Every notification row reports one evaluation of its pair: OPENED and REMINDER a match, RESOLVED a non-match on
  // which no fact of the rule was missing.
  lemma {:induction false} NotificationsReport(rule: Rule, pair: Pair, steps: seq<PairStep>, i: nat, n: Notification)
      returns (k: nat)
    requires RecipientAccepted(rule)
    requires i < |After(rule, pair, steps)| && n in After(rule, pair, steps)[i].notes
    ensures k < |steps| && Reports(rule, pair.subject, n, steps[k])
  {
    hide Reports;
    var m := |steps| - 1;
    var before := After(rule, pair, steps[..m]);
    AfterFits(rule, pair, steps[..m]);
    if steps[m].Observe? {
      RowGains(rule, pair, before, steps[m].reading, i);
      SendsReport(rule, pair, before, steps[m].reading);
    }
    if i < |before| && n in before[i].notes {
      k := NotificationsReport(rule, pair, steps[..m], i, n);
    } else {
      k := m;
    }
  }

  /* ---------- Continuity before opening ---------- */

  predicate Matching(s: PairStep) {
    s.Observe? && s.reading.matched
  }

  // Where the unbroken block of matching evaluations at the end of the run begins.
  function BlockStart(steps: seq<PairStep>): (j: nat)
    ensures j <= |steps|
  {
    if steps == [] then 0
    else if Matching(steps[|steps| - 1]) then BlockStart(steps[..|steps| - 1])
    else |steps|
  }

  lemma {:induction false} BlockIsUnbroken(steps: seq<PairStep>)
    ensures forall i | BlockStart(steps) <= i < |steps| :: Matching(steps[i])
    ensures BlockStart(steps) > 0 ==> !Matching(steps[BlockStart(steps) - 1])
  {
    if steps != [] && Matching(steps[|steps| - 1]) {
      var n := |steps| - 1;
      BlockIsUnbroken(steps[..n]);
      forall i | BlockStart(steps) <= i < |steps| ensures Matching(steps[i]) {
        if i < n { assert Matching(steps[..n][i]); }
      }
    }
  }

  // A pending row's clock started at the beginning of the current block; without an active row there is no block.
  lemma {:induction false} PendingClock(rule: Rule, pair: Pair, steps: seq<PairStep>)
    requires RecipientAccepted(rule)
    ensures var active := GetActive(After(rule, pair, steps));
      && (active.None? ==> BlockStart(steps) == |steps|)
      && (active.Some? && active.value.state.Pending? ==>
            BlockStart(steps) < |steps| && active.value.firstTrueAt == Some(TimeOf(steps[BlockStart(steps)])))
  {
    hide After, ActiveAt, Unfounded;
    if steps == [] {
      assert GetActive(After(rule, pair, steps)).None? by { NoStepsNoActive(rule, pair); }
    } else {
      var n := |steps| - 1;
      PendingClock(rule, pair, steps[..n]);
      ActiveAfter(rule, pair, steps);
      var j := BlockStart(steps[..n]);
      if j < n { assert steps[..n][j] == steps[j]; }
    }
  }

  // When OPENED is emitted, the pair's evaluations from the one at first_true_at up to this one form an unbroken
  // matching block, begun after a non-matching step (or the start), and at least for_duration_sec long.
  lemma OpenedOnlyAfterContinuousTruth(rule: Rule, pair: Pair, steps: seq<PairStep>)
    requires RecipientAccepted(rule) && steps != [] && steps[|steps| - 1].Observe?
    requires var n := |steps| - 1;
      var o := StepPair(rule, pair, After(rule, pair, steps[..n]), steps[n].reading);
      o.Some? && Opened in o.value.transitions
    ensures var n, j := |steps| - 1, BlockStart(steps);
      var active := GetActive(After(rule, pair, steps));
      && j <= n && (forall i | j <= i <= n :: Matching(steps[i]))
      && (j > 0 ==> !Matching(steps[j - 1]))
      && active.Some? && active.value.state.Open?
      && active.value.firstTrueAt == Some(TimeOf(steps[j]))
      && active.value.openedAt == Some(TimeOf(steps[n]))
      && TimeOf(steps[n]) - TimeOf(steps[j]) >= rule.forDurationSec * SECOND
  {
    var n := |steps| - 1;
    var before := After(rule, pair, steps[..n]);
    assert AdvanceOf(rule, pair, before, steps[n].reading).transitions
        == StepPair(rule, pair, before, steps[n].reading).value.transitions by {
      AfterFits(rule, pair, steps[..n]);
      StepShape(rule, pair, before, steps[n].reading);
    }
    ActiveAfter(rule, pair, steps);
    PendingClock(rule, pair, steps[..n]);
    BlockIsUnbroken(steps);
    var j := BlockStart(steps[..n]);
    if j < n { assert steps[..n][j] == steps[j]; }
  }

  /* ---------- Conservation of evaluations ---------- */

  // Matching evaluations that concerned the k-th episode: after a matching evaluation the last row is the active
  // one, so the evaluation concerned episode k exactly when k is then the last.
  function MatchedFor(rule: Rule, pair: Pair, steps: seq<PairStep>, k: nat): nat
    requires RecipientAccepted(rule)
  {
    if steps == [] then 0
    else
      var n := |steps| - 1;
      MatchedFor(rule, pair, steps[..n], k)
      + (if Matching(steps[n]) && |After(rule, pair, steps)| == k + 1 then 1 else 0)
  }

  function Accounted(rule: Rule, e: Episode): nat {
    1 + e.suppressed + e.notifySeq + (if e.openedAt.Some? && rule.forDurationSec > 0 then 1 else 0)
  }

  lemma AdvanceAccounts(rule: Rule, pair: Pair, e: Episode, id: EpisodeId, r: Reading)
    requires ActiveFits(rule, pair, Some(e)) && id.pair == pair
    requires e.state.Pending? ==> e.openedAt.None? && e.notifySeq == 0
    requires e.state.Open? ==> e.openedAt.Some?
    ensures var m := Advance(Some(e), r.matched, r.now, rule, id, r.missing);
      m.Moved? && Accounted(rule, m.episode) == Accounted(rule, e) + if r.matched then 1 else 0
  {
  }

  lemma StepAccounts(rule: Rule, pair: Pair, incs: seq<Incident>, r: Reading, k: nat)
    requires RecipientAccepted(rule) && PairFits(rule, pair, incs)
    ensures var after := StepOnce(rule, pair, incs, Observe(r));
      && |incs| <= |after| <= |incs| + 1
      && (k < |incs| ==> Accounted(rule, after[k].episode) == Accounted(rule, incs[k].episode)
                         + if r.matched && |after| == k + 1 then 1 else 0)
      && (k >= |incs| ==> (k < |after| <==> r.matched && |after| == k + 1))
      && (|incs| <= k < |after| ==> Accounted(rule, after[k].episode) == 1)
  {
    hide StepPair, Advance, PairFits, NotesFit, ActiveAt;
    ActiveIsLast(rule, pair, incs);
    StepShape(rule, pair, incs, r);
    if GetActive(incs).Some? {
      RowAt(rule, pair, incs, |incs| - 1);
      AdvanceAccounts(rule, pair, incs[|incs| - 1].episode, EpisodeId(pair, |incs|), r);
    } else if r.matched {
      NewEpisodeAccounts(rule, EpisodeId(pair, |incs|), r);
    }
  }

  lemma NewEpisodeAccounts(rule: Rule, id: EpisodeId, r: Reading)
    requires r.matched
    ensures var m := Advance(None, r.matched, r.now, rule, id, r.missing);
      m.Moved? && Accounted(rule, m.episode) == 1
  {
  }

  // Every matching evaluation is accounted for on the episode it concerned: the one that created it, the one that
  // opened it out of PENDING, each reminder, and each suppressed evaluation; there are no others.
  lemma {:induction false} EvaluationsConserved(rule: Rule, pair: Pair, steps: seq<PairStep>, k: nat)
    requires RecipientAccepted(rule)
    ensures var incs := After(rule, pair, steps);
      MatchedFor(rule, pair, steps, k) == if k < |incs| then Accounted(rule, incs[k].episode) else 0
  {
    if steps != [] {
      var n := |steps| - 1;
      var before := After(rule, pair, steps[..n]);
      EvaluationsConserved(rule, pair, steps[..n], k);
      match steps[n]
      case Observe(r) =>
        AfterFits(rule, pair, steps[..n]);
        StepAccounts(rule, pair, before, r, k);
      case Close(now) =>
        if k < |before| { assert After(rule, pair, steps)[k] == CloseOne(before[k], now); }
    }
  }

  /* ---------- Freezing and resolving ---------- */

  predicate Freezing(rule: Rule, s: PairStep) {
    s.Observe? && !s.reading.matched && Unfounded(rule, s.reading.missing)
  }

  // Where the unbroken block of unfounded non-matches at the end of the run begins.
  function FreezeStart(rule: Rule, steps: seq<PairStep>): (j: nat)
    ensures j <= |steps|
  {
    if steps == [] then 0
    else if Freezing(rule, steps[|steps| - 1]) then FreezeStart(rule, steps[..|steps| - 1])
    else |steps|
  }

  lemma {:induction false} FreezeIsUnbroken(rule: Rule, steps: seq<PairStep>)
    ensures forall i | FreezeStart(rule, steps) <= i < |steps| :: Freezing(rule, steps[i])
    ensures FreezeStart(rule, steps) > 0 ==> !Freezing(rule, steps[FreezeStart(rule, steps) - 1])
  {
    if steps != [] && Freezing(rule, steps[|steps| - 1]) {
      var n := |steps| - 1;
      FreezeIsUnbroken(rule, steps[..n]);
      forall i | FreezeStart(rule, steps) <= i < |steps| ensures Freezing(rule, steps[i]) {
        if i < n { assert Freezing(rule, steps[..n][i]); }
      }
    }
  }

  lemma NoStepsNoActive(rule: Rule, pair: Pair)
    requires RecipientAccepted(rule)
    ensures GetActive(After(rule, pair, [])).None?
  {
  }

  // In every run an open row is stale exactly while unfounded non-matches last, and stale_since is the instant of
  // the first one of the current streak.
  lemma {:induction false} StaleSinceFirstFreeze(rule: Rule, pair: Pair, steps: seq<PairStep>)
    requires RecipientAccepted(rule)
    ensures var active := GetActive(After(rule, pair, steps));
      active.Some? && active.value.state.Open? ==>
        && (active.value.stale <==> FreezeStart(rule, steps) < |steps|)
        && (active.value.stale ==> active.value.staleSince == Some(TimeOf(steps[FreezeStart(rule, steps)])))
  {
    hide After, ActiveAt, Unfounded;
    if steps == [] {
      assert GetActive(After(rule, pair, steps)).None? by { NoStepsNoActive(rule, pair); }
    } else {
      var n := |steps| - 1;
      StaleSinceFirstFreeze(rule, pair, steps[..n]);
      ActiveAfter(rule, pair, steps);
      var j := FreezeStart(rule, steps[..n]);
      if j < n { assert steps[..n][j] == steps[j]; }
    }
  }

  // Facts the evaluator reports missing are always facts the rule depends on.
  lemma MissingFactsAreDriving(rule: Rule, state: SubjectState, now: Time)
    requires Evaluate(rule, state, now).Some?
    ensures var missing := Evaluate(rule, state, now).value.missing;
      && (forall f | f in missing :: f in Declared(rule.conditions))
      && (Unfounded(rule, missing) <==> missing != [])
  {
    MissingMeaning(rule.conditions, state, now);
    var missing := Evaluate(rule, state, now).value.missing;
    if missing != [] { assert missing[0] in missing; }
  }

  // Evaluating an accepted rule on an open episode: RESOLVED is emitted exactly when every comparison had both
  // its facts and some comparison was false; the episode freezes exactly when some comparison is unknown; and a
  // Kleene-unknown condition therefore never resolves.
  lemma ResolveIsFounded(rule: Rule, state: SubjectState, now: Time, e: Episode)
    requires Accepted(rule) && KindOf(state) == rule.subjectType
    requires e.Valid() && e.state.Open?
    ensures Evaluate(rule, state, now).Some?
    ensures var r := Evaluate(rule, state, now).value;
      var m := FromOpen(e, r.matched, now, rule, r.missing);
      var cs := rule.conditions;
      && m.Moved?
      && (Resolved in m.transitions <==>
            (forall f | f in Declared(cs) :: !ValueOf(f, state, now).Missing?) && Kleene(cs, state, now).No?)
      && (m.episode.stale <==> exists i | 0 <= i < |cs| :: KleeneOne(cs[i], state, now).Maybe?)
      && (Kleene(cs, state, now).Maybe? ==>
            m.transitions == [] && m.episode.state.Open? && m.episode.stale
            && m.episode.staleSince == if e.stale then e.staleSince else Some(now))
  {
    TypeSoundness(rule, state, now, "");
    MissingMeaning(rule.conditions, state, now);
    MissingIffSomeUnknown(rule.conditions, state, now);
    MatchedIsKleeneTrue(rule.conditions, state, now);
    MissingFactsAreDriving(rule, state, now);
    KleeneMeaning(rule.conditions, state, now);
    var missing := Evaluate(rule, state, now).value.missing;
    if missing != [] { assert missing[0] in missing; }
  }

  // Freezing is more cautious than Kleene logic: a condition list that is Kleene-false still freezes the episode
  // when some other fact is missing.
  lemma KleeneFalseMayFreeze(e: Episode, q: QueueState, now: Time)
    requires e.Valid() && e.state.Open?
    requires q.ticketsWaiting == Some(0) && q.volumeForecastNext15m.None?
    ensures var cs := [Condition(TicketsWaiting, Gt, Literal(Num(20.0))),
                       Condition(VolumeForecastNext15m, Gt, Literal(Num(1.0)))];
      var rule := Rule("", Queue, All, cs, 0, 0, Recipient(Author, None), [], "");
      var r := Evaluate(rule, QueueRow(q), now);
      && Accepted(rule) && r.Some? && Kleene(cs, QueueRow(q), now).No?
      && FromOpen(e, r.value.matched, now, rule, r.value.missing).episode.stale
  {
    var cs := [Condition(TicketsWaiting, Gt, Literal(Num(20.0))),
               Condition(VolumeForecastNext15m, Gt, Literal(Num(1.0)))];
    var rule := Rule("", Queue, All, cs, 0, 0, Recipient(Author, None), [], "");
    hide EvaluateAll, Kleene;
    var state := QueueRow(q);
    assert KleeneOne(cs[0], state, now).No?;
    assert KleeneOne(cs[1], state, now).Maybe?;
    assert Accepted(rule);
    KleeneMeaning(cs, state, now);
    ResolveIsFounded(rule, state, now, e);
  }

  /* ---------- Order of an episode's instants ---------- */

  ghost predicate ClockOrdered(steps: seq<PairStep>) {
    forall i, j | 0 <= i <= j < |steps| :: TimeOf(steps[i]) <= TimeOf(steps[j])
  }

  predicate InstantsOrdered(e: Episode) {
    && (e.openedAt.Some? && e.firstTrueAt.Some? ==> e.firstTrueAt.value <= e.openedAt.value)
    && (e.openedAt.Some? && e.lastNotifiedAt.Some? ==> e.openedAt.value <= e.lastNotifiedAt.value)
    && (e.closedAt.Some? && e.lastNotifiedAt.Some? ==> e.lastNotifiedAt.value <= e.closedAt.value)
  }

  predicate NotLaterThan(e: Episode, now: Time) {
    && (e.firstTrueAt.Some? ==> e.firstTrueAt.value <= now)
    && (e.lastNotifiedAt.Some? ==> e.lastNotifiedAt.value <= now)
  }

  ghost predicate Settled(e: Episode, now: Time) {
    InstantsOrdered(e) && NotLaterThan(e, now) && (e.Active() ==> e.closedAt.None?)
  }

  ghost predicate AllSettled(incs: seq<Incident>, now: Time) {
    forall i | 0 <= i < |incs| :: Settled(incs[i].episode, now)
  }

  lemma AdvanceKeepsOrder(rule: Rule, e: Option<Episode>, id: EpisodeId, t: Time, r: Reading)
    requires t <= r.now && (e.Some? ==> Settled(e.value, t) && e.value.Valid())
    ensures var m := Advance(e, r.matched, r.now, rule, id, r.missing);
      m.Moved? ==> Settled(m.episode, r.now)
  {
  }

  lemma StepKeepsOrder(rule: Rule, pair: Pair, incs: seq<Incident>, t: Time, s: PairStep, i: nat)
    requires RecipientAccepted(rule) && PairFits(rule, pair, incs) && t <= TimeOf(s)
    requires AllSettled(incs, t)
    requires i < |StepOnce(rule, pair, incs, s)|
    ensures Settled(StepOnce(rule, pair, incs, s)[i].episode, TimeOf(s))
  {
    match s
    case Observe(r) =>
      ActiveIsLast(rule, pair, incs);
      StepShape(rule, pair, incs, r);
      if GetActive(incs).Some? { assert RowFits(rule, incs[|incs| - 1]); }
      AdvanceKeepsOrder(rule, GetActive(incs), EpisodeId(pair, |incs|), t, r);
      if i < |incs| - 1 { assert StepOnce(rule, pair, incs, s)[i] == incs[i]; }
    case Close(now) =>
      assert ClosePair(incs, now)[i] == CloseOne(incs[i], now);
  }

  lemma {:induction false} OrderedRunSettles(rule: Rule, pair: Pair, steps: seq<PairStep>)
    requires RecipientAccepted(rule) && ClockOrdered(steps) && steps != []
    ensures AllSettled(After(rule, pair, steps), TimeOf(steps[|steps| - 1]))
  {
    var n := |steps| - 1;
    var before, s := After(rule, pair, steps[..n]), steps[n];
    var t := TimeOf(steps[if n > 0 then n - 1 else n]);
    assert t <= TimeOf(s);
    assert AllSettled(before, t) by {
      if n > 0 {
        OrderedRunSettles(rule, pair, steps[..n]);
        assert steps[..n][n - 1] == steps[n - 1];
      }
    }
    AfterFits(rule, pair, steps[..n]);
    forall i | 0 <= i < |StepOnce(rule, pair, before, s)|
      ensures Settled(StepOnce(rule, pair, before, s)[i].episode, TimeOf(s))
    {
      StepKeepsOrder(rule, pair, before, t, s, i);
    }
  }

  // When a pair is stepped in clock order, an episode is not closed before it last notified. (The order of its other
  // instants needs no clock order: OpenedInOrder.)
  lemma ClosedInClockOrder(rule: Rule, pair: Pair, steps: seq<PairStep>, i: nat)
    requires RecipientAccepted(rule) && ClockOrdered(steps) && i < |After(rule, pair, steps)|
    ensures var e := After(rule, pair, steps)[i].episode;
      e.closedAt.Some? && e.lastNotifiedAt.Some? ==> e.lastNotifiedAt.value <= e.closedAt.value
  {
    OrderedRunSettles(rule, pair, steps);
    assert Settled(After(rule, pair, steps)[i].episode, TimeOf(steps[|steps| - 1]));
  }

  // True of an episode whatever the clock does.
  predicate OpensInOrder(e: Episode) {
    e.openedAt.Some? ==>
      && e.firstTrueAt.Some? && e.firstTrueAt.value <= e.openedAt.value
      && e.lastNotifiedAt.Some? && e.openedAt.value <= e.lastNotifiedAt.value
  }

  lemma AdvanceOpensInOrder(rule: Rule, e: Option<Episode>, id: EpisodeId, r: Reading)
    requires e.Some? ==> OpensInOrder(e.value) && (e.value.state.Open? ==> e.value.openedAt.Some?)
    ensures var m := Advance(e, r.matched, r.now, rule, id, r.missing);
      m.Moved? ==> OpensInOrder(m.episode) || (e.Some? && e.value.state.Pending? && e.value.openedAt.Some?)
  {
  }

  lemma StepOpensInOrder(rule: Rule, pair: Pair, incs: seq<Incident>, s: PairStep, i: nat)
    requires RecipientAccepted(rule) && PairFits(rule, pair, incs)
    requires forall k | 0 <= k < |incs| :: OpensInOrder(incs[k].episode)
    requires i < |StepOnce(rule, pair, incs, s)|
    ensures OpensInOrder(StepOnce(rule, pair, incs, s)[i].episode)
  {
    hide StepPair, Advance, ActiveAt, NotesFit;
    match s
    case Observe(r) =>
      ActiveIsLast(rule, pair, incs);
      StepShape(rule, pair, incs, r);
      if GetActive(incs).Some? { RowAt(rule, pair, incs, |incs| - 1); }
      AdvanceOpensInOrder(rule, GetActive(incs), EpisodeId(pair, |incs|), r);
    case Close(now) =>
      assert ClosePair(incs, now)[i] == CloseOne(incs[i], now);
  }

  // In every run, in clock order or not, first_true_at <= opened_at <= last_notified_at for every opened episode.
  lemma {:induction false} OpenedInOrder(rule: Rule, pair: Pair, steps: seq<PairStep>, i: nat)
    requires RecipientAccepted(rule) && i < |After(rule, pair, steps)|
    ensures OpensInOrder(After(rule, pair, steps)[i].episode)
  {
    var n := |steps| - 1;
    var before := After(rule, pair, steps[..n]);
    AfterFits(rule, pair, steps[..n]);
    forall k | 0 <= k < |before| ensures OpensInOrder(before[k].episode) {
      OpenedInOrder(rule, pair, steps[..n], k);
    }
    StepOpensInOrder(rule, pair, before, steps[n], i);
  }

  // A step leaves closed rows alone; a row it leaves inactive keeps its instants and is closed at the step's own.
  lemma StepCloses(rule: Rule, pair: Pair, incs: seq<Incident>, s: PairStep, i: nat)
    requires RecipientAccepted(rule) && PairFits(rule, pair, incs)
    requires var after := StepOnce(rule, pair, incs, s);
      i < |after| && !after[i].episode.Active() && after[i].episode.openedAt.Some?
    ensures i < |incs|
    ensures var e, f := incs[i].episode, StepOnce(rule, pair, incs, s)[i].episode;
      if e.Active()
      then e.state.Open? && f.closedAt == Some(TimeOf(s))
           && f.openedAt == e.openedAt && f.lastNotifiedAt == e.lastNotifiedAt
      else f == e
  {
    hide StepPair, ActiveAt, NotesFit;
    match s
    case Observe(r) =>
      ActiveIsLast(rule, pair, incs);
      StepShape(rule, pair, incs, r);
      if GetActive(incs).Some? {
        RowAt(rule, pair, incs, |incs| - 1);
      } else if r.matched {
        NewRowFits(rule, pair.subject, EpisodeId(pair, |incs|), r);
      }
    case Close(now) =>
      assert ClosePair(incs, now)[i] == CloseOne(incs[i], now);
      if incs[i].episode.Active() { RowAt(rule, pair, incs, i); }
  }

  // Every closed episode that was opened has one closing step, and it is closed no earlier than it opened (than it
  // last notified) if and only if that step's instant is not before the open row's opened_at (last_notified_at).
  lemma {:induction false} ClosedInOrderIff(rule: Rule, pair: Pair, steps: seq<PairStep>, i: nat) returns (j: nat)
    requires RecipientAccepted(rule) && i < |After(rule, pair, steps)|
    requires var e := After(rule, pair, steps)[i].episode; e.openedAt.Some? && !e.Active()
    ensures j < |steps| && i < |After(rule, pair, steps[..j])|
    ensures var row, e := After(rule, pair, steps[..j])[i].episode, After(rule, pair, steps)[i].episode;
      && row.state.Open? && row.openedAt.Some? && row.lastNotifiedAt.Some?
      && e.closedAt == Some(TimeOf(steps[j])) && e.lastNotifiedAt.Some?
      && (e.openedAt.value <= e.closedAt.value <==> row.openedAt.value <= TimeOf(steps[j]))
      && (e.lastNotifiedAt.value <= e.closedAt.value <==> row.lastNotifiedAt.value <= TimeOf(steps[j]))
  {
    var n := |steps| - 1;
    var before := After(rule, pair, steps[..n]);
    AfterFits(rule, pair, steps[..n]);
    StepCloses(rule, pair, before, steps[n], i);
    if before[i].episode.Active() {
      j := n;
      RowAt(rule, pair, before, i);
    } else {
      j := ClosedInOrderIff(rule, pair, steps[..n], i);
      assert steps[..n][..j] == steps[..j] && steps[..n][j] == steps[j];
    }
  }

  // Without clock order it fails: an accepted event older than the clock closes an episode before it opened.
  lemma ClosedBeforeOpened(rule: Rule, pair: Pair)
    requires RecipientAccepted(rule) && rule.forDurationSec == 0
    ensures var steps := [Observe(Reading(10, true, [], map[], [])), Observe(Reading(5, false, [], map[], []))];
      var incs := After(rule, pair, steps);
      |incs| == 1 && incs[0].episode.openedAt == Some(10) && incs[0].episode.closedAt == Some(5)
  {
    var s0, s1 := Observe(Reading(10, true, [], map[], [])), Observe(Reading(5, false, [], map[], []));
    assert [s0, s1][..1] == [s0] && [s0][..0] == [];
    var first := After(rule, pair, [s0]);
    assert |first| == 1 && first[0].episode == NewEpisode(EpisodeId(pair, 0), Open, Some(10), Some(10)) by {
      assert After(rule, pair, [s0][..0]) == [];
      AfterFits(rule, pair, []);
      StepShape(rule, pair, [], s0.reading);
    }
    AfterFits(rule, pair, [s0]);
    ActiveIsLast(rule, pair, first);
    hide StepPair, After;
    assert After(rule, pair, [s0, s1]) == StepOnce(rule, pair, first, s1) by { AfterTwo(rule, pair, s0, s1); }
    StepShape(rule, pair, first, s1.reading);
  }

  lemma AfterTwo(rule: Rule, pair: Pair, s0: PairStep, s1: PairStep)
    requires RecipientAccepted(rule)
    ensures After(rule, pair, [s0, s1]) == StepOnce(rule, pair, After(rule, pair, [s0]), s1)
  {
    assert [s0, s1][..1] == [s0];
  }
}
