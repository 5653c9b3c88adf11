// What the engine is given to work on (EngineDeps of app/engine/engine.py): a database connection with its
// transaction boundary (app/storage/db.py), the tables' write operations (app/storage/sqlite), the counters
// (app/ingest/counters.py), the channels (app/routing/dispatcher.py); and the replay clock (app/clock.py).
module Store {
  import opened Base
  import opened Domain
  import opened Rules
  import opened Episodes
  import opened Incidents
  import opened Engine
  import opened Runs

  // The rows of a result set, in whatever order the database produces them.
  method Enumerate<T(==)>(s: set<T>) returns (xs: seq<T>)
    ensures Distinct(xs) && Elements(xs) == s
  {
    xs := [];
    var rest := s;
    while rest != {}
      invariant Distinct(xs) && Elements(xs) !! rest && Elements(xs) + rest == s
    {
      var x :| x in rest;
      assert Elements(xs + [x]) == Elements(xs) + {x};
      xs, rest := xs + [x], rest - {x};
    }
  }

  class ManualClock {
    var now: Time

    constructor (start: Time)
      ensures now == start
    {
      now := start;
    }

    method Set(when: Time)
      modifies this
      ensures now == when
    {
      now := when;
    }

    method Advance(span: int)
      modifies this
      ensures now == old(now) + span
    {
      now := now + span;
    }
  }

  // All pending and open rows.
  function ActiveRows(ledger: Ledger): set<Episode> {
    set p, i | p in ledger && 0 <= i < |ledger[p]| && ledger[p][i].episode.Active() :: ledger[p][i].episode
  }

  ghost predicate AllSafe(states: seq<World>) {
    forall i | 0 <= i < |states| :: SafeState(states[i])
  }

  ghost predicate SafeState(w: World) {
    Good(w.t) && SentOnce(w.t.ledger, w.sent)
  }

  class EngineDeps {
    const channels: nat
    var working: Tables            // what this connection sees: committed rows and its own open transaction
    var committed: Tables          // what survives the process
    var sent: seq<Delivery>        // what the channels have received
    ghost var trail: seq<World>    // every durable state so far: what a crash at that moment leaves behind

    ghost function Durable(): World
      reads this
    {
      World(committed, sent)
    }

    // No transaction is open.
    ghost predicate AtRest()
      reads this
    {
      working == committed && trail != [] && trail[|trail| - 1] == Durable()
    }

    // A crash at any moment so far leaves good tables and deliveries that are committed and made once.
    ghost predicate Safe()
      reads this
    {
      AllSafe(trail)
    }

    constructor (t: Tables, channels: nat)
      ensures AtRest() && committed == t && sent == [] && this.channels == channels
      ensures Good(t) ==> Safe()
    {
      this.channels := channels;
      working, committed, sent, trail := t, t, [], [World(t, [])];
    }

    /* ---------- The transaction boundary ---------- */

    method Commit()
      modifies this`committed, this`trail
      ensures committed == working
      ensures trail == old(trail) + [Durable()]
    {
      committed := working;
      trail := trail + [World(committed, sent)];
    }

    method Rollback()
      modifies this`working
      ensures working == committed
    {
      working := committed;
    }

    /* ---------- Table operations, none of which commits ---------- */

    method Increment(name: Counter)
      modifies this`working
      ensures working == old(working).(counters := Bump(old(working).counters, name))
    {
      working := working.(counters := working.counters[name := Count(working.counters, name) + 1]);
    }

    // False when the primary key rejects the row.
    method AppendEvent(record: EventRecord) returns (ok: bool)
      modifies this`working
      ensures ok <==> record.event.eventId !in old(working).log
      ensures working == if ok then old(working).(log := old(working).log[record.event.eventId := record])
                         else old(working)
    {
      ok := record.event.eventId !in working.log;
      if ok { working := working.(log := working.log[record.event.eventId := record]); }
    }

    method ListActive() returns (episodes: seq<Episode>)
      ensures Distinct(episodes)
      ensures forall e :: e in episodes <==>
        exists p, i :: p in working.ledger && 0 <= i < |working.ledger[p]| && working.ledger[p][i].episode == e
                       && e.Active()
    {
      episodes := Enumerate(ActiveRows(working.ledger));
      assert forall e :: e in episodes <==> e in Elements(episodes);
    }

    // False when the unique index on active rows rejects the row.
    method CreateEpisode(e: Episode) returns (ok: bool)
      modifies this`working
      ensures var rows := RowsOf(old(working).ledger, e.id.pair);
        && (ok <==> !(e.Active() && GetActive(rows).Some?))
        && working == if ok then old(working).(ledger := old(working).ledger[e.id.pair := rows + [Incident(e, [])]])
                      else old(working)
    {
      var rows := CreateRow(RowsOf(working.ledger, e.id.pair), e);
      ok := rows.Some?;
      if ok { working := working.(ledger := working.ledger[e.id.pair := rows.value]); }
    }

    method UpdateEpisode(e: Episode)
      modifies this`working
      ensures working == if e.id.pair in old(working).ledger
        then old(working).(ledger := old(working).ledger[e.id.pair := UpdateRow(old(working).ledger[e.id.pair], e)])
        else old(working)
    {
      if e.id.pair in working.ledger {
        working := working.(ledger := working.ledger[e.id.pair := UpdateRow(working.ledger[e.id.pair], e)]);
      }
    }

    // Whether a row was inserted; None when the foreign key rejects it.
    method InsertIfAbsent(n: Notification) returns (inserted: Option<bool>)
      modifies this`working
      ensures var r := Incidents.InsertIfAbsent(RowsOf(old(working).ledger, n.episode.pair), n);
        if r.None? then inserted.None? && working == old(working)
        else && inserted == Some(r.value.1)
             && working == old(working).(ledger := old(working).ledger[n.episode.pair := r.value.0])
    {
      var r := Incidents.InsertIfAbsent(RowsOf(working.ledger, n.episode.pair), n);
      if r.None? { return None; }
      working := working.(ledger := working.ledger[n.episode.pair := r.value.0]);
      inserted := Some(r.value.1);
    }

    method UpdateRule(id: string, record: RuleRecord)
      modifies this`working
      ensures working == if id in old(working).rules then old(working).(rules := old(working).rules[id := record])
                         else old(working)
    {
      if id in working.rules { working := working.(rules := working.rules[id := record]); }
    }

    method WriteWatermark(at: Time)
      modifies this`working
      ensures working == old(working).(watermark := Some(at))
    {
      working := working.(watermark := Some(at));
    }

    method PutQueue(row: QueueState)
      modifies this`working
      ensures working == old(working).(queues := old(working).queues[row.queueId := row])
    {
      working := working.(queues := working.queues[row.queueId := row]);
    }

    // The row is stored under the id it was read with.
    method PutAgent(id: string, row: AgentState)
      modifies this`working
      ensures working == old(working).(agents := old(working).agents[id := row])
    {
      working := working.(agents := working.agents[id := row]);
    }

    /* ---------- Channels ---------- */

    // One notification to every channel, in order; each delivery is durable the moment it is made.
    method DispatchSend(n: Notification)
      modifies this`sent, this`trail
      ensures sent == old(sent) + Fan(n, channels)
      ensures old(trail) <= trail && |trail| == |old(trail)| + channels
      ensures forall i | |old(trail)| <= i < |trail| ::
        trail[i] == World(committed, old(sent) + Fan(n, channels)[..i - |old(trail)| + 1])
    {
      for c := 0 to channels
        invariant sent == old(sent) + Fan(n, channels)[..c]
        invariant old(trail) <= trail && |trail| == |old(trail)| + c
        invariant forall i | |old(trail)| <= i < |trail| ::
          trail[i] == World(committed, old(sent) + Fan(n, channels)[..i - |old(trail)| + 1])
      {
        sent := sent + [Delivery(c, n)];
        assert Fan(n, channels)[..c + 1] == Fan(n, channels)[..c] + [Delivery(c, n)];
        trail := trail + [World(committed, sent)];
      }
      assert Fan(n, channels)[..channels] == Fan(n, channels);
    }
  }
}
