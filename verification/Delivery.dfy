/**
 The analytics sink and its tables together (internal/analytics/sink.go), when a commit may take
 effect without being acknowledged: the sink then keeps the batch and flushes it again.
 */
module Delivery {
  import opened Wrappers
  import opened Summaries
  import Sink

  /** How a flush ends: stored and known to be, not stored, or stored although an error came back. */
  datatype Outcome = Acknowledged | Refused | Unacknowledged

  datatype Happening = Arrival(e: Event, outcome: Outcome) | Timer(outcome: Outcome)

  /**
   The sink, the tables, and what went into them. high is how many received events had arrived at
   the last flush that took effect; landed holds the events that reached the tables, each once and
   in order of arrival; again those that a later flush brought a second time.
   */
  datatype State = State(sink: Sink.State<Event>, db: Database, high: nat, landed: seq<Event>, again: seq<Event>)

  function Later(a: nat, b: nat): nat {
    if a <= b then b else a
  }

  /** The events of the buffer that no flush has brought to the tables before. */
  function New(s: State): seq<Event> {
    var from := Later(s.high, |s.sink.fate|);
    if from <= |s.sink.received| then s.sink.received[from..] else []
  }

  /** Those that an unacknowledged flush has brought there already. */
  function Old(s: State): seq<Event> {
    if |s.sink.fate| <= s.high <= |s.sink.received| then s.sink.received[|s.sink.fate|..s.high] else []
  }

  function Flushed(c: Sink.Config, s: State, outcome: Outcome): State {
    var sink := Sink.Flush(c, s.sink, outcome.Acknowledged?);
    if outcome.Refused? then s.(sink := sink)
    else State(sink, Project(s.db, s.sink.buf), |s.sink.received|, s.landed + New(s), s.again + Old(s))
  }

  function Next(c: Sink.Config, s: State, h: Happening): State {
    match h
    case Arrival(e, outcome) =>
      var t := s.(sink := Sink.Append(c, s.sink, e));
      if |t.sink.buf| >= c.batchSize then Flushed(c, t, outcome) else t
    case Timer(outcome) =>
      if s.sink.buf == [] then s else Flushed(c, s, outcome)
  }

  function RunAll(c: Sink.Config, db: Database, hs: seq<Happening>): State {
    if hs == [] then State(Sink.Empty(), db, 0, [], [])
    else Next(c, RunAll(c, db, hs[..|hs| - 1]), hs[|hs| - 1])
  }

  // ---- What every run keeps -----------------------------------------------------------

  ghost predicate EndsWith(s: seq<Event>, tail: seq<Event>) {
    |tail| <= |s| && s[|s| - |tail|..] == tail
  }

  /** The tables hold the landed events as if each had been flushed once; only the counters also saw the others. */
  ghost predicate Delivered(start: Database, s: State) {
    && s.db.events == InsertAll(start.events, s.landed)
    && s.db.jobs == JobAll(start.jobs, s.landed)
    && forall node, c :: Counted(start, s, node, c)
  }

  ghost predicate Counted(start: Database, s: State, node: string, c: Counter) {
    Reading(s.db.nodes, node, c) == Reading(start.nodes, node, c) + Tally(s.landed, node, c) + Tally(s.again, node, c)
  }

  /** What the sink knows to be stored, and what it holds of an unacknowledged flush, has all landed. */
  ghost predicate NoneMissing(s: State) {
    multiset(s.sink.stored) + multiset(Old(s)) <= multiset(s.landed)
  }

  ghost predicate Inv(c: Sink.Config, start: Database, s: State) {
    && Sink.Accounted(s.sink) && |s.sink.buf| <= c.bufferLimit
    && s.high <= |s.sink.received| && EndsWith(s.landed, Old(s))
    && multiset(s.landed) <= multiset(s.sink.received[..s.high]) && NoneMissing(s)
    && Delivered(start, s)
  }

  lemma {:induction false} TallySplit(a: seq<Event>, b: seq<Event>, node: string, c: Counter)
    ensures Tally(a + b, node, c) == Tally(a, node, c) + Tally(b, node, c)
    decreases |a|
  {
    if a == [] {
      assert a + b == b;
    } else {
      assert (a + b)[0] == a[0] && (a + b)[1..] == a[1..] + b;
      TallySplit(a[1..], b, node, c);
    }
  }

  /** Flushing the end of what has landed again changes neither events nor job rows. */
  lemma ReplayOfTheEnd(start: Database, landed: seq<Event>, tail: seq<Event>, more: seq<Event>)
    requires EndsWith(landed, tail)
    ensures InsertAll(InsertAll(start.events, landed), tail + more) == InsertAll(start.events, landed + more)
    ensures JobAll(JobAll(start.jobs, landed), tail + more) == JobAll(start.jobs, landed + more)
  {
    var head := landed[..|landed| - |tail|];
    assert landed == head + tail;
    JobAllSplit(start.jobs, head, tail);
    JobSummaryReplay(JobAll(start.jobs, head), tail);
    JobAllSplit(JobAll(start.jobs, landed), tail, more);
    JobAllSplit(start.jobs, landed, more);
    var stored := InsertAll(start.events, landed);
    EventsAreStoredOnce(start.events, landed);
    forall e | e in tail ensures e.id in stored {
      assert e in landed;
    }
    NothingNewToInsert(stored, tail);
    InsertAllSplit(stored, tail, more);
    InsertAllSplit(start.events, landed, more);
  }

  lemma BatchIsOldThenNew(s: State)
    requires Sink.Accounted(s.sink) && s.high <= |s.sink.received|
    ensures s.sink.buf == Old(s) + New(s)
  {
  }

  lemma FlushDelivers(c: Sink.Config, start: Database, s: State, outcome: Outcome)
    requires Inv(c, start, s) && c.bufferLimit > 0 && !outcome.Refused?
    ensures Delivered(start, Flushed(c, s, outcome))
  {
    BatchIsOldThenNew(s);
    ReplayOfTheEnd(start, s.landed, Old(s), New(s));
    var t := Flushed(c, s, outcome);
    forall node, c' ensures Counted(start, t, node, c') {
      assert Counted(start, s, node, c');
      CountersAreExact(s.db.nodes, s.sink.buf, node, c');
      TallySplit(Old(s), New(s), node, c');
      TallySplit(s.landed, New(s), node, c');
      TallySplit(s.again, Old(s), node, c');
    }
  }

  lemma NewFits(received: seq<Event>, landed: seq<Event>, high: nat, from: nat)
    requires high <= from <= |received| && multiset(landed) <= multiset(received[..high])
    ensures multiset(landed + received[from..]) <= multiset(received)
  {
    assert received == received[..high] + received[high..from] + received[from..];
  }

  lemma EndsWithMore(s: seq<Event>, tail: seq<Event>, more: seq<Event>)
    requires EndsWith(s, tail)
    ensures EndsWith(s + more, tail + more)
  {
    var head := s[..|s| - |tail|];
    assert s == head + tail;
    assert s + more == head + (tail + more);
  }

  /** A flush that took effect makes the whole batch known to be stored, or old. */
  lemma BatchIsKeptTrackOf(c: Sink.Config, s: State, outcome: Outcome)
    requires Sink.Accounted(s.sink) && 0 < c.bufferLimit && |s.sink.buf| <= c.bufferLimit && !outcome.Refused?
    ensures var t := Flushed(c, s, outcome);
            if outcome.Acknowledged? then Old(t) == [] && t.sink.stored == s.sink.stored + s.sink.buf
            else Old(t) == s.sink.buf && t.sink.stored == s.sink.stored
  {
  }

  /** After a flush that took effect, the whole buffer is old, if the sink still has it. */
  lemma FlushEndsWithOld(c: Sink.Config, start: Database, s: State, outcome: Outcome)
    requires Inv(c, start, s) && c.bufferLimit > 0 && !outcome.Refused?
    ensures EndsWith(Flushed(c, s, outcome).landed, Old(Flushed(c, s, outcome)))
  {
    BatchIsKeptTrackOf(c, s, outcome);
    BatchIsOldThenNew(s);
    EndsWithMore(s.landed, Old(s), New(s));
  }

  lemma FlushLandsOnce(c: Sink.Config, start: Database, s: State, outcome: Outcome)
    requires Inv(c, start, s) && c.bufferLimit > 0 && !outcome.Refused?
    ensures var t := Flushed(c, s, outcome); multiset(t.landed) <= multiset(t.sink.received[..t.high])
  {
    var received := s.sink.received;
    assert |s.sink.fate| <= |received|;
    NewFits(received, s.landed, s.high, Later(s.high, |s.sink.fate|));
    assert received[..|received|] == received;
  }

  lemma FlushMissesNone(c: Sink.Config, start: Database, s: State, outcome: Outcome)
    requires Inv(c, start, s) && c.bufferLimit > 0 && !outcome.Refused?
    ensures NoneMissing(Flushed(c, s, outcome))
  {
    BatchIsOldThenNew(s);
    BatchIsKeptTrackOf(c, s, outcome);
    MissesNone(s.sink.stored, Old(s), New(s), s.landed);
    var t := Flushed(c, s, outcome);
    assert t.landed == s.landed + New(s);
  }

  lemma MissesNone(stored: seq<Event>, before: seq<Event>, more: seq<Event>, landed: seq<Event>)
    requires multiset(stored) + multiset(before) <= multiset(landed)
    ensures multiset(stored + (before + more)) <= multiset(landed + more)
    ensures multiset(stored) + multiset(before + more) <= multiset(landed + more)
  {
  }

  lemma FlushKeepsInv(c: Sink.Config, start: Database, s: State, outcome: Outcome)
    requires Inv(c, start, s) && c.bufferLimit > 0
    ensures Inv(c, start, Flushed(c, s, outcome))
  {
    Sink.FlushKeeps(c, s.sink, outcome.Acknowledged?);
    if outcome.Refused? {
      var t := Flushed(c, s, outcome);
      assert t.sink.received == s.sink.received && t.sink.fate == s.sink.fate;
      forall node, c' ensures Counted(start, t, node, c') {
        assert Counted(start, s, node, c');
      }
    } else {
      FlushDelivers(c, start, s, outcome);
      FlushEndsWithOld(c, start, s, outcome);
      FlushLandsOnce(c, start, s, outcome);
      FlushMissesNone(c, start, s, outcome);
    }
  }

  /** An eviction takes the oldest of the old events, if there are any. */
  lemma AppendMovesOld(c: Sink.Config, s: State, e: Event)
    requires c.bufferLimit > 0 && Sink.Accounted(s.sink) && s.high <= |s.sink.received|
    ensures var t := s.(sink := Sink.Append(c, s.sink, e));
            Old(t) == Old(s) || (Old(s) != [] && Old(t) == Old(s)[1..])
  {
    var t := s.(sink := Sink.Append(c, s.sink, e));
    if |s.sink.fate| < s.high && |t.sink.fate| > |s.sink.fate| {
      assert Old(t) == Old(s)[1..];
    } else {
      assert Old(t) == Old(s);
    }
  }

  lemma FewerOld(landed: seq<Event>, stored: seq<Event>, was: seq<Event>, now: seq<Event>)
    requires EndsWith(landed, was) && multiset(stored) + multiset(was) <= multiset(landed)
    requires now == was || (was != [] && now == was[1..])
    ensures EndsWith(landed, now) && multiset(stored) + multiset(now) <= multiset(landed)
  {
    if now != was {
      assert was == [was[0]] + now;
    }
  }

  lemma AppendKeepsInv(c: Sink.Config, start: Database, s: State, e: Event)
    requires Inv(c, start, s) && c.bufferLimit > 0
    ensures Inv(c, start, s.(sink := Sink.Append(c, s.sink, e)))
  {
    Sink.AppendKeeps(c, s.sink, e);
    var t := s.(sink := Sink.Append(c, s.sink, e));
    assert t.sink.received[..s.high] == s.sink.received[..s.high];
    AppendMovesOld(c, s, e);
    FewerOld(s.landed, s.sink.stored, Old(s), Old(t));
    forall node, c' ensures Counted(start, t, node, c') {
      assert Counted(start, s, node, c');
    }
  }

  lemma NothingDelivered(c: Sink.Config, start: Database)
    requires c.bufferLimit > 0
    ensures Inv(c, start, State(Sink.Empty(), start, 0, [], []))
  {
    var s := State(Sink.Empty(), start, 0, [], []);
    forall node, c' ensures Counted(start, s, node, c') {
    }
    assert s.sink.received[..0] == [];
  }

  lemma NextKeepsInv(c: Sink.Config, start: Database, s: State, h: Happening)
    requires Inv(c, start, s) && c.bufferLimit > 0
    ensures Inv(c, start, Next(c, s, h))
  {
    match h
    case Arrival(e, outcome) =>
      AppendKeepsInv(c, start, s, e);
      var t := s.(sink := Sink.Append(c, s.sink, e));
      if |t.sink.buf| >= c.batchSize {
        FlushKeepsInv(c, start, t, outcome);
      }
    case Timer(outcome) =>
      if s.sink.buf != [] {
        FlushKeepsInv(c, start, s, outcome);
      }
  }

  /**
   Over every run, with acknowledgements lost at will: events and job rows are as if every event
   that reached the database had been flushed exactly once, in order of arrival, and each counter
   is too high by exactly the events that were flushed again.
   */
  lemma {:induction false} DeliveryIsExact(c: Sink.Config, start: Database, hs: seq<Happening>)
    requires c.batchSize > 0 && c.bufferLimit > 0
    ensures Inv(c, start, RunAll(c, start, hs))
    decreases |hs|
  {
    if hs == [] {
      NothingDelivered(c, start);
    } else {
      var n := |hs| - 1;
      DeliveryIsExact(c, start, hs[..n]);
      NextKeepsInv(c, start, RunAll(c, start, hs[..n]), hs[n]);
    }
  }

  lemma RunOneMore(c: Sink.Config, db: Database, hs: seq<Happening>, h: Happening)
    ensures RunAll(c, db, hs + [h]) == Next(c, RunAll(c, db, hs), h)
  {
    assert (hs + [h])[..|hs|] == hs;
  }

  /**
   A tick brings the whole buffer to the tables unless the database refuses it, and empties the
   buffer exactly when that is acknowledged.
   */
  lemma TickDelivers(c: Sink.Config, start: Database, hs: seq<Happening>, outcome: Outcome)
    requires c.batchSize > 0 && c.bufferLimit > 0
    ensures var s, t := RunAll(c, start, hs), RunAll(c, start, hs + [Timer(outcome)]);
            && t.db == (if outcome.Refused? then s.db else Project(s.db, s.sink.buf))
            && t.sink.buf == (if outcome.Acknowledged? then [] else s.sink.buf)
            && (forall e :: e in s.sink.buf && !outcome.Refused? ==> e.id in t.db.events)
  {
    RunOneMore(c, start, hs, Timer(outcome));
    DeliveryIsExact(c, start, hs);
    var s := RunAll(c, start, hs);
    Sink.FlushKeeps(c, s.sink, outcome.Acknowledged?);
    EventsAreStoredOnce(s.db.events, s.sink.buf);
  }

  /** An arrival does so once the batch is full. */
  lemma FullBatchDelivers(c: Sink.Config, start: Database, hs: seq<Happening>, e: Event, outcome: Outcome)
    requires c.batchSize > 0 && c.bufferLimit > 0
    ensures var s, t := RunAll(c, start, hs), RunAll(c, start, hs + [Arrival(e, outcome)]);
            var waiting := Sink.Waiting(c.bufferLimit, s.sink.buf, e);
            var full := |waiting| >= c.batchSize;
            && t.db == (if full && !outcome.Refused? then Project(s.db, waiting) else s.db)
            && t.sink.buf == (if full && outcome.Acknowledged? then [] else waiting)
  {
    RunOneMore(c, start, hs, Arrival(e, outcome));
    DeliveryIsExact(c, start, hs);
    var s := RunAll(c, start, hs);
    Sink.AppendKeeps(c, s.sink, e);
    Sink.FlushKeeps(c, Sink.Append(c, s.sink, e), outcome.Acknowledged?);
  }

  /** Stop: the last flush, after which the sink gives up what it does not know to be stored. */
  function Stopped(c: Sink.Config, s: State, outcome: Outcome): State {
    var last := if s.sink.buf == [] then s else Flushed(c, s, outcome);
    last.(sink := Sink.StopState(s.sink, outcome.Acknowledged?))
  }

  /** The same holds after Stop: whatever its last flush came to, the tables hold what landed, once each. */
  lemma StopIsExact(c: Sink.Config, start: Database, hs: seq<Happening>, outcome: Outcome)
    requires c.batchSize > 0 && c.bufferLimit > 0
    ensures var s := Stopped(c, RunAll(c, start, hs), outcome);
            && Delivered(start, s) && s.sink.buf == []
            && multiset(s.sink.stored) <= multiset(s.landed) <= multiset(s.sink.received)
  {
    DeliveryIsExact(c, start, hs);
    var s := RunAll(c, start, hs);
    FlushKeepsInv(c, start, s, outcome);
    var last := if s.sink.buf == [] then s else Flushed(c, s, outcome);
    assert last.sink.received == s.sink.received;
    LandedWereReceived(c, start, last);
    forall node, c' ensures Counted(start, Stopped(c, s, outcome), node, c') {
      assert Counted(start, last, node, c');
    }
  }

  lemma LandedWereReceived(c: Sink.Config, start: Database, s: State)
    requires Inv(c, start, s)
    ensures multiset(s.landed) <= multiset(s.sink.received)
  {
    assert s.sink.received == s.sink.received[..s.high] + s.sink.received[s.high..];
  }

  ghost predicate AllReported(hs: seq<Happening>) {
    forall i :: 0 <= i < |hs| ==> !hs[i].outcome.Unacknowledged?
  }

  /** When no acknowledgement is lost, what landed is what the sink counts as stored, and nothing is flushed again. */
  lemma {:induction false} ReportedRunsAreExact(c: Sink.Config, start: Database, hs: seq<Happening>)
    requires c.batchSize > 0 && c.bufferLimit > 0 && AllReported(hs)
    ensures var s := RunAll(c, start, hs);
            s.landed == s.sink.stored && s.again == [] && s.high <= |s.sink.fate|
    decreases |hs|
  {
    if hs == [] {
    } else {
      var n := |hs| - 1;
      DeliveryIsExact(c, start, hs[..n]);
      ReportedRunsAreExact(c, start, hs[..n]);
      var s := RunAll(c, start, hs[..n]);
      match hs[n]
      case Arrival(e, outcome) =>
        AppendKeepsInv(c, start, s, e);
        ReportedFlush(c, start, s.(sink := Sink.Append(c, s.sink, e)), outcome);
      case Timer(outcome) =>
        ReportedFlush(c, start, s, outcome);
    }
  }

  lemma ReportedFlush(c: Sink.Config, start: Database, s: State, outcome: Outcome)
    requires Inv(c, start, s) && c.bufferLimit > 0 && !outcome.Unacknowledged?
    requires s.landed == s.sink.stored && s.again == [] && s.high <= |s.sink.fate|
    ensures var t := Flushed(c, s, outcome);
            t.landed == t.sink.stored && t.again == [] && t.high <= |t.sink.fate|
  {
    BatchIsOldThenNew(s);
    assert Old(s) == [];
  }
}
