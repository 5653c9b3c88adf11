// When agent rows converge. Queue rows do whatever the order of arrival (see QueuesConverge); an agent row drops an
// overtaken event for good, and agrees with the timestamp-ordered one exactly when what it drops does not matter.
module AgentOrder {
  import opened Base
  import opened Domain
  import opened Engine
  import opened Ingest
  import opened SubjectRows

  // The agent's first-write events, in order of arrival.
  ghost function Own(lines: seq<Line>, id: string): seq<Event> {
    Concerning(FirstWrites(lines), SubjectRef(Agent, id))
  }

  ghost predicate InOrder(es: seq<Event>) {
    forall i, j | 0 <= i < j < |es| :: es[i].ts <= es[j].ts
  }

  ghost predicate TimesDistinct(es: seq<Event>) {
    forall x, y | x in es && y in es && x.ts == y.ts :: x == y
  }

  // The event arrives before every later-stamped one.
  ghost predicate OnTime(es: seq<Event>, e: Event) {
    exists j | 0 <= j < |es| :: es[j] == e && forall i | 0 <= i < j :: es[i].ts <= e.ts
  }

  ghost predicate Latest(es: seq<Event>, kind: Kind, e: Event) {
    e in es && Is(e, kind) && forall x | x in es && Is(x, kind) :: x.ts <= e.ts
  }

  // The greatest-timestamp event of the kind, if there is one, arrives before every later-stamped event.
  ghost predicate LatestOnTime(es: seq<Event>, kind: Kind) {
    forall e | Latest(es, kind, e) :: OnTime(es, e)
  }

  /* ---------- Records ---------- */

  lemma {:induction false} RecordsAreOnTime(es: seq<Event>, e: Event)
    ensures e in Records(es) <==> OnTime(es, e)
    ensures OnTime(es, e) ==> e in es
  {
    if es != [] {
      var k := |es| - 1;
      var front := es[..k];
      RecordsAreOnTime(front, e);
      if OnTime(front, e) {
        var j :| 0 <= j < k && front[j] == e && forall i | 0 <= i < j :: front[i].ts <= e.ts;
        assert es[j] == e;
        forall i | 0 <= i < j ensures es[i].ts <= e.ts { assert front[i] == es[i]; }
        assert OnTime(es, e);
      }
      if OnTime(es, e) {
        var j :| 0 <= j < |es| && es[j] == e && forall i | 0 <= i < j :: es[i].ts <= e.ts;
        if j < k {
          assert front[j] == e;
          assert OnTime(front, e);
        }
      }
    }
  }

  lemma {:induction false} RecordsInOrder(es: seq<Event>)
    ensures InOrder(Records(es))
  {
    if es != [] {
      var k := |es| - 1;
      RecordsInOrder(es[..k]);
      var front := Records(es[..k]);
      forall i | 0 <= i < |front| && Records(es) != front ensures front[i].ts <= es[k].ts {
        RecordsBelong(es[..k], front[i]);
        var j :| 0 <= j < k && es[..k][j] == front[i];
        assert es[j] == front[i];
      }
    }
  }

  lemma InOrderPrefix(es: seq<Event>, k: nat)
    requires k <= |es| && InOrder(es)
    ensures InOrder(es[..k])
  {
  }

  lemma {:induction false} InOrderAllRecords(es: seq<Event>)
    requires InOrder(es)
    ensures Records(es) == es
  {
    if es != [] {
      var k := |es| - 1;
      var front := es[..k];
      assert InOrder(front) by { InOrderPrefix(es, k); }
      InOrderAllRecords(front);
      assert forall i | 0 <= i < k :: es[i].ts <= es[k].ts;
      hide InOrder;
      assert es == front + [es[k]];
    }
  }

  lemma InOrderOnTime(es: seq<Event>, kind: Kind)
    requires InOrder(es)
    ensures LatestOnTime(es, kind)
  {
    InOrderAllRecords(es);
    forall e | Latest(es, kind, e) ensures OnTime(es, e) { RecordsAreOnTime(es, e); }
  }

  lemma {:induction false} LatestExists(es: seq<Event>, kind: Kind) returns (g: Option<Event>)
    ensures g.Some? ==> Latest(es, kind, g.value)
    ensures g.None? ==> forall x | x in es :: !Is(x, kind)
  {
    g := None;
    if es != [] {
      var k := |es| - 1;
      g := LatestExists(es[..k], kind);
      assert forall x | x in es :: x in es[..k] || x == es[k];
      if Is(es[k], kind) && (g.None? || g.value.ts <= es[k].ts) { g := Some(es[k]); }
    }
  }

  lemma {:induction false} LastOfOrdered(rs: seq<Event>, kind: Kind, g: Event)
    requires InOrder(rs) && Latest(rs, kind, g) && TimesDistinct(rs)
    ensures Last(rs, kind) == Some(g)
  {
    var k := |rs| - 1;
    var j :| 0 <= j < |rs| && rs[j] == g;
    if Is(rs[k], kind) {
      assert rs[k] in rs && rs[j].ts <= rs[k].ts;
    } else {
      assert rs[..k][j] == g;
      assert forall i | 0 <= i < k :: rs[..k][i] == rs[i];
      LastOfOrdered(rs[..k], kind, g);
    }
  }

  // The row remembers the latest event of a kind if and only if that event was on time.
  lemma LastIsLatestIff(es: seq<Event>, kind: Kind, g: Event)
    requires TimesDistinct(es) && Latest(es, kind, g)
    ensures Last(Records(es), kind) == Some(g) <==> OnTime(es, g)
  {
    RecordsAreOnTime(es, g);
    if OnTime(es, g) {
      RecordsInOrder(es);
      forall x | x in Records(es) ensures x in es { RecordsBelong(es, x); }
      LastOfOrdered(Records(es), kind, g);
    }
  }

  // Of two arrivals of the same events, the second with its latest on time, both remember the same event of the kind
  // if and only if the first has its latest on time too.
  lemma SameLastIff(es: seq<Event>, fs: seq<Event>, kind: Kind)
    requires TimesDistinct(es) && (forall e :: e in es <==> e in fs) && LatestOnTime(fs, kind)
    ensures Last(Records(es), kind) == Last(Records(fs), kind) <==> LatestOnTime(es, kind)
    ensures Last(Records(es), kind).Some? && Last(Records(fs), kind).Some?
            && Last(Records(es), kind).value.ts == Last(Records(fs), kind).value.ts
            ==> Last(Records(es), kind) == Last(Records(fs), kind)
  {
    var a, b := Last(Records(es), kind), Last(Records(fs), kind);
    if a.Some? { RecordsBelong(es, a.value); }
    if b.Some? { RecordsBelong(fs, b.value); }
    var g := LatestExists(es, kind);
    if g.Some? {
      assert Latest(fs, kind, g.value);
      LastIsLatestIff(es, kind, g.value);
      LastIsLatestIff(fs, kind, g.value);
      assert forall e | Latest(es, kind, e) :: e.ts == g.value.ts;
    }
  }

  /* ---------- Rows ---------- */

  lemma SameOwn(xs: seq<Line>, ys: seq<Line>, id: string)
    requires IdsConsistent(xs) && forall l :: l in xs <==> l in ys
    ensures forall e :: e in Own(xs, id) <==> e in Own(ys, id)
    ensures forall e | e in Own(xs, id) :: SubjectOf(e) == SubjectRef(Agent, id)
  {
    var ref := SubjectRef(Agent, id);
    forall e ensures Carries(xs, e) <==> Carries(ys, e) {
      if Carries(xs, e) { var l :| l in xs && l.parsed == Some(e); assert l in ys; }
      if Carries(ys, e) { var l :| l in ys && l.parsed == Some(e); assert l in xs; }
    }
    forall e
      ensures e in Own(xs, id) <==> e in Own(ys, id)
      ensures e in Own(xs, id) ==> SubjectOf(e) == ref
    {
      ConcerningMembers(FirstWrites(xs), ref, e);
      ConcerningMembers(FirstWrites(ys), ref, e);
      FirstWritesAreCarried(xs, e);
      FirstWritesAreCarried(ys, e);
    }
  }

  // What a check says of the violation.
  function Verdict(check: Option<Event>): Option<Option<Time>>
    requires check.Some? ==> check.value.AdherenceCheck?
  {
    if check.Some? && check.value.inViolation then Some(check.value.violationStartedAt) else None
  }

  // Two rows that remember the same agent's events, the last event of both the same.
  lemma RowsAgreeIff(a: AgentState, rs: seq<Event>, b: AgentState, ss: seq<Event>)
    requires rs != [] && (forall i | 0 <= i < |rs| :: !rs[i].QueueSnapshot?) && Remembers(a, rs)
    requires ss != [] && (forall i | 0 <= i < |ss| :: !ss[i].QueueSnapshot?) && Remembers(b, ss)
    requires rs[|rs| - 1] == ss[|ss| - 1] && rs[0].agentId == ss[0].agentId
    requires var x, y := Last(rs, Change), Last(ss, Change);
      x.Some? && y.Some? && x.value.ts == y.value.ts ==> x == y
    ensures a.agentId == b.agentId && a.queueIds == b.queueIds && a.lastEventTs == b.lastEventTs
    ensures a.stateEnteredAt == b.stateEnteredAt <==> Last(rs, Change) == Last(ss, Change)
    ensures a == b <==>
      Last(rs, Change) == Last(ss, Change) && Verdict(Last(rs, Check)) == Verdict(Last(ss, Check))
  {
    hide NormalizeAgentState, Last;
  }

  lemma EmptyTogether(es: seq<Event>, fs: seq<Event>)
    requires forall e :: e in es <==> e in fs
    ensures es == [] <==> fs == []
  {
    if es != [] { assert es[0] in fs; }
    if fs != [] { assert fs[0] in es; }
  }

  lemma LastRecord(es: seq<Event>) returns (last: Event)
    requires es != []
    ensures Records(es) != [] && Records(es)[|Records(es)| - 1] == last && Records(es)[0] in es
    ensures last in es && forall e | e in es :: e.ts <= last.ts
  {
    LastRecordIsLatest(es);
    last := Records(es)[|Records(es)| - 1];
    RecordsBelong(es, Records(es)[0]);
  }

  lemma SameLastRecord(es: seq<Event>, fs: seq<Event>)
    requires es != [] && TimesDistinct(es) && forall e :: e in es <==> e in fs
    ensures fs != [] && Records(es) != [] && Records(fs) != []
    ensures Records(es)[|Records(es)| - 1] == Records(fs)[|Records(fs)| - 1]
    ensures Records(es)[0] in es && Records(fs)[0] in es
  {
    hide Records;
    EmptyTogether(es, fs);
    var x := LastRecord(es);
    var y := LastRecord(fs);
    assert x in fs && y in es && x.ts == y.ts;
  }

  // Two inputs with the same lines, in any order and with any redelivery; equal ids mean equal events, and no two
  // events of the agent have the same timestamp. The second has the agent's latest state change and latest check on
  // time, as it has in particular when it is ordered by timestamp (InOrderOnTime). Then the agent's queues and
  // watermark agree; the state's entry time agrees if and only if the first input has its latest state change on
  // time; and the rows agree if and only if, besides, both remember the same verdict.
  lemma AgentRowsAgreeIff(t: Tables, xs: seq<Line>, ys: seq<Line>, n: nat, id: string)
    requires NothingIngested(t) && IdsConsistent(xs) && forall l :: l in xs <==> l in ys
    requires TimesDistinct(Own(xs, id))
    requires LatestOnTime(Own(ys, id), Change) && LatestOnTime(Own(ys, id), Check)
    ensures var a, b, own := AdmitAll(t, xs, n).agents, AdmitAll(t, ys, n).agents, Own(xs, id);
      && (id in a <==> id in b)
      && (id in a ==>
            && a[id].queueIds == b[id].queueIds && a[id].lastEventTs == b[id].lastEventTs
            && (a[id].stateEnteredAt == b[id].stateEnteredAt <==> LatestOnTime(own, Change))
            && (LatestOnTime(own, Change) ==> a[id].currentState == b[id].currentState)
            && (LatestOnTime(own, Check) ==>
                  a[id].violationActive == b[id].violationActive
                  && a[id].violationStartedAt == b[id].violationStartedAt)
            && (a[id] == b[id] <==>
                  LatestOnTime(own, Change)
                  && Verdict(Last(Records(own), Check)) == Verdict(Last(Records(Own(ys, id)), Check))))
  {
    hide LatestOnTime, TimesDistinct, Records, Concerning, FirstWrites, Last;
    var own, other := Own(xs, id), Own(ys, id);
    SameOwn(xs, ys, id);
    SameLastIff(own, other, Change);
    SameLastIff(own, other, Check);
    AgentRowAfterIngest(t, xs, n, id);
    AgentRowAfterIngest(t, ys, n, id);
    OwnRecords(own);
    OwnRecords(other);
    EmptyTogether(own, other);
    if own != [] {
      SameLastRecord(own, other);
      RowsAgreeIff(AdmitAll(t, xs, n).agents[id], Records(own), AdmitAll(t, ys, n).agents[id], Records(other));
    }
  }

  lemma OwnRecords(es: seq<Event>)
    ensures Records(es) == [] <==> es == []
  {
    if es != [] { LastRecordIsLatest(es); }
  }

  // In particular: latest state change and latest check on time in both, equal rows.
  lemma AgentsConverge(t: Tables, xs: seq<Line>, ys: seq<Line>, n: nat, id: string)
    requires NothingIngested(t) && IdsConsistent(xs) && forall l :: l in xs <==> l in ys
    requires TimesDistinct(Own(xs, id))
    requires LatestOnTime(Own(xs, id), Change) && LatestOnTime(Own(xs, id), Check)
    requires LatestOnTime(Own(ys, id), Change) && LatestOnTime(Own(ys, id), Check)
    ensures var a, b := AdmitAll(t, xs, n).agents, AdmitAll(t, ys, n).agents;
      (id in a <==> id in b) && (id in a ==> a[id] == b[id])
  {
    AgentRowsAgreeIff(t, xs, ys, n, id);
    SameOwn(xs, ys, id);
    SameLastIff(Own(xs, id), Own(ys, id), Check);
  }

  /* ---------- Lateness ---------- */

  // No line of the agent is late.
  ghost predicate NoneLate(t: Tables, lines: seq<Line>, n: nat, id: string) {
    forall i | 0 <= i < |lines| ::
      Classify(AdmitAll(t, lines[..i], n), lines[i]).Late? ==> !Concerns(lines[i], id)
  }

  lemma OneMoreLine(t: Tables, lines: seq<Line>, n: nat, id: string)
    requires NothingIngested(t) && lines != []
    ensures var k := |lines| - 1;
      var before, line, own := AdmitAll(t, lines[..k], n), lines[k], Own(lines[..k], id);
      if IsNew(before, line, id)
      then Own(lines, id) == own + [line.parsed.value]
           && (Classify(before, line).Late? <==> exists e :: e in own && e.ts > line.parsed.value.ts)
      else Own(lines, id) == own && (Concerns(line, id) ==> !Classify(before, line).Late?)
  {
    hide Fold, Records, Concerning, AdmitAll, InStep, FirstWrites, Classify, HasId, Concerns, NothingIngested;
    var k, ref := |lines| - 1, SubjectRef(Agent, id);
    var before, line, own := AdmitAll(t, lines[..k], n), lines[k], Own(lines[..k], id);
    IngestIsAFold(t, lines[..k], n);
    InStepMeans(before, FirstWrites(lines[..k]), ref);
    FirstWritesNext(lines, ref);
    LateMeans(before, line);
    ConcernsMeans(line, id);
    if IsNew(before, line, id) { LatestIsLater(own, before, line); }
  }

  predicate Concerns(line: Line, id: string) {
    line.parsed.Some? && SubjectOf(line.parsed.value) == SubjectRef(Agent, id)
  }

  // A first-write event of the agent.
  predicate IsNew(t: Tables, line: Line, id: string) {
    Concerns(line, id) && line.parsed.value.eventId !in t.log
  }

  lemma ConcernsMeans(line: Line, id: string)
    ensures Concerns(line, id) <==> line.parsed.Some? && SubjectOf(line.parsed.value) == SubjectRef(Agent, id)
  {
  }

  lemma FirstWritesNext(lines: seq<Line>, ref: SubjectRef)
    requires lines != []
    ensures var line, before := lines[|lines| - 1], FirstWrites(lines[..|lines| - 1]);
      Concerning(FirstWrites(lines), ref) == Concerning(before, ref)
        + (if line.parsed.Some? && !HasId(before, line.parsed.value.eventId) && SubjectOf(line.parsed.value) == ref
           then [line.parsed.value] else [])
  {
    hide HasId;
    var line, before := lines[|lines| - 1], FirstWrites(lines[..|lines| - 1]);
    if line.parsed.Some? { AppendFilters(before, line.parsed.value, ref); }
  }

  lemma LateMeans(t: Tables, line: Line)
    ensures Classify(t, line).Late? <==>
      && line.parsed.Some? && line.parsed.value.eventId !in t.log
      && var w := WatermarkOf(t, SubjectOf(line.parsed.value)); w.Some? && line.parsed.value.ts < w.value
  {
  }

  lemma LatestIsLater(own: seq<Event>, t: Tables, line: Line)
    requires line.parsed.Some?
    requires var ref := SubjectOf(line.parsed.value); RowInStep(StateFor(t, ref.kind, ref.id), own)
    ensures var w, at := WatermarkOf(t, SubjectOf(line.parsed.value)), line.parsed.value.ts;
      (w.Some? && at < w.value) <==> exists e :: e in own && e.ts > at
  {
    hide Fold, Records;
    var w, at := WatermarkOf(t, SubjectOf(line.parsed.value)), line.parsed.value.ts;
    if w.Some? && at < w.value {
      var i :| 0 <= i < |own| && own[i].ts == w.value;
      assert own[i] in own;
    }
  }

  lemma InStepMeans(t: Tables, es: seq<Event>, ref: SubjectRef)
    requires InStep(t, es)
    ensures RowInStep(StateFor(t, ref.kind, ref.id), Concerning(es, ref)) && forall id :: id in t.log <==> HasId(es, id)
  {
  }

  // Nothing of the agent is late if and only if its events arrive in order.
  lemma {:induction false} NoneLateIffInOrder(t: Tables, lines: seq<Line>, n: nat, id: string)
    requires NothingIngested(t)
    ensures NoneLate(t, lines, n, id) <==> InOrder(Own(lines, id))
  {
    hide Classify, Admit, Concerning;
    if lines == [] {
      assert Own(lines, id) == [] by { NoLinesNoEvents(id); }
    } else {
      var k := |lines| - 1;
      NoneLateIffInOrder(t, lines[..k], n, id);
      OneMoreLine(t, lines, n, id);
      NoneLateFront(t, lines, n, id);
      InOrderFront(Own(lines[..k], id), Own(lines, id));
    }
  }

  lemma NoLinesNoEvents(id: string)
    ensures Own([], id) == []
  {
  }

  lemma NoneLateFront(t: Tables, lines: seq<Line>, n: nat, id: string)
    requires lines != []
    ensures var k := |lines| - 1;
      var late := Classify(AdmitAll(t, lines[..k], n), lines[k]).Late?;
      NoneLate(t, lines, n, id)
      <==> NoneLate(t, lines[..k], n, id) && (late ==> !Concerns(lines[k], id))
  {
    hide Classify, AdmitAll;
    var k := |lines| - 1;
    assert forall i | 0 <= i < k :: lines[..k][..i] == lines[..i] && lines[..k][i] == lines[i];
  }

  lemma InOrderFront(front: seq<Event>, es: seq<Event>)
    ensures es != [] && es == front + [es[|es| - 1]] ==>
      (InOrder(es) <==> InOrder(front) && !exists e :: e in front && e.ts > es[|es| - 1].ts)
  {
    if es != [] && es == front + [es[|es| - 1]] {
      var k := |es| - 1;
      assert forall i | 0 <= i < k :: front[i] == es[i] && front[i] in front;
      if InOrder(es) {
        assert front == es[..k];
        InOrderPrefix(es, k);
        forall e | e in front ensures e.ts <= es[k].ts {
          var i :| 0 <= i < |front| && front[i] == e;
        }
      }
      if InOrder(front) && !exists e :: e in front && e.ts > es[k].ts {
        forall i, j | 0 <= i < j < |es| ensures es[i].ts <= es[j].ts {
          if j == k { assert front[i] in front; }
        }
      }
    }
  }

  // So an agent none of whose events is late, in either order, has the same row.
  lemma NothingLateConverges(t: Tables, xs: seq<Line>, ys: seq<Line>, n: nat, id: string)
    requires NothingIngested(t) && IdsConsistent(xs) && forall l :: l in xs <==> l in ys
    requires TimesDistinct(Own(xs, id)) && NoneLate(t, xs, n, id) && NoneLate(t, ys, n, id)
    ensures var a, b := AdmitAll(t, xs, n).agents, AdmitAll(t, ys, n).agents;
      (id in a <==> id in b) && (id in a ==> a[id] == b[id])
  {
    NoneLateIffInOrder(t, xs, n, id);
    NoneLateIffInOrder(t, ys, n, id);
    InOrderOnTime(Own(xs, id), Change);
    InOrderOnTime(Own(xs, id), Check);
    InOrderOnTime(Own(ys, id), Change);
    InOrderOnTime(Own(ys, id), Check);
    AgentsConverge(t, xs, ys, n, id);
  }
}
