/**
 The analytics sink's buffer (internal/analytics/sink.go): events arrive one by one, are
 flushed in batches when enough have gathered or a timer fires, go back to the front of the
 buffer when a flush fails, and push out the oldest when the buffer is full.
 A failed flush is taken to have stored nothing here; module Delivery drops that assumption.
 */
module Sink {
  import opened Wrappers

  datatype Config = Config(batchSize: int, bufferLimit: int)

  /** Non-positive settings fall back to 100 and 10000. */
  function WithDefaults(c: Config): (d: Config)
    ensures d.batchSize > 0 && d.bufferLimit > 0
    ensures c.batchSize > 0 ==> d.batchSize == c.batchSize
    ensures c.bufferLimit > 0 ==> d.bufferLimit == c.bufferLimit
    ensures c.batchSize <= 0 ==> d.batchSize == 100
    ensures c.bufferLimit <= 0 ==> d.bufferLimit == 10_000
  {
    Config(if c.batchSize <= 0 then 100 else c.batchSize, if c.bufferLimit <= 0 then 10_000 else c.bufferLimit)
  }

  /** What became of an event that has left the buffer. */
  datatype Fate = Stored | Evicted | Abandoned

  /**
   buf is the program's buffer. The rest is history: every event received, the fate of each
   that left the buffer (in arrival order), what the database holds, and the last flush outcome.
   */
  datatype State<E> = State(buf: seq<E>, received: seq<E>, fate: seq<Fate>, stored: seq<E>, lastFlush: Option<bool>)

  datatype Event<E> = Arrival(e: E, flushOk: bool) | Timer(flushOk: bool)

  function Copies(f: Fate, n: nat): (s: seq<Fate>)
    ensures |s| == n && forall i :: 0 <= i < n ==> s[i] == f
  {
    seq(n, _ => f)
  }

  // ---- The steps ------------------------------------------------------------

  function Append<E>(c: Config, s: State<E>, e: E): State<E> {
    var t := s.(received := s.received + [e]);
    if |s.buf| >= c.bufferLimit && s.buf != []
    then t.(buf := s.buf[1..] + [e], fate := s.fate + [Evicted])
    else t.(buf := s.buf + [e])
  }

  /** Put a failed batch back in front, cut to the space left. */
  function Rebuffer<E>(c: Config, buf: seq<E>, batch: seq<E>): seq<E> {
    var space := c.bufferLimit - |buf|;
    if space <= 0 then buf
    else if |batch| > space then batch[..space] + buf
    else batch + buf
  }

  /** Take the whole buffer as a batch and try to store it. */
  function Flush<E>(c: Config, s: State<E>, ok: bool): State<E> {
    if ok
    then s.(buf := [], fate := s.fate + Copies(Stored, |s.buf|), stored := s.stored + s.buf, lastFlush := Some(true))
    else s.(buf := Rebuffer(c, [], s.buf), lastFlush := Some(false))
  }

  function Next<E>(c: Config, s: State<E>, ev: Event<E>): State<E> {
    match ev
    case Arrival(e, ok) =>
      var t := Append(c, s, e);
      if |t.buf| >= c.batchSize then Flush(c, t, ok) else t
    case Timer(ok) =>
      if s.buf == [] then s else Flush(c, s, ok)
  }

  /** Stop: one last attempt; what it cannot store is gone. */
  function StopState<E>(s: State<E>, ok: bool): State<E> {
    if s.buf == [] then s
    else if ok
    then s.(buf := [], fate := s.fate + Copies(Stored, |s.buf|), stored := s.stored + s.buf, lastFlush := Some(true))
    else s.(buf := [], fate := s.fate + Copies(Abandoned, |s.buf|), lastFlush := Some(false))
  }

  function Empty<E>(): State<E> {
    State([], [], [], [], None)
  }

  function RunAll<E>(c: Config, evs: seq<Event<E>>): State<E> {
    if evs == [] then Empty() else Next(c, RunAll(c, evs[..|evs| - 1]), evs[|evs| - 1])
  }

  // ---- What every run keeps ---------------------------------------------------

  /** The events whose fate is Stored, in arrival order. */
  ghost function Selected<E>(events: seq<E>, fate: seq<Fate>): seq<E>
    requires |events| == |fate|
  {
    if events == [] then []
    else
      var n := |events| - 1;
      Selected(events[..n], fate[..n]) + (if fate[n] == Stored then [events[n]] else [])
  }

  /**
   Every received event is in exactly one place: the first |fate| have left the buffer, each
   with its one fate; the rest are the buffer, in order; the database holds the stored ones in order.
   */
  ghost predicate Accounted<E>(s: State<E>) {
    && |s.fate| + |s.buf| == |s.received|
    && s.buf == s.received[|s.fate|..]
    && s.stored == Selected(s.received[..|s.fate|], s.fate)
  }

  ghost predicate Inv<E>(c: Config, s: State<E>) {
    && Accounted(s)
    && |s.buf| <= c.bufferLimit
    && (c.batchSize <= c.bufferLimit && |s.buf| >= c.batchSize ==> s.lastFlush == Some(false))
    && NoneAbandoned(s.fate)
  }

  ghost predicate NoneAbandoned(fate: seq<Fate>) {
    forall i :: 0 <= i < |fate| ==> fate[i] != Abandoned
  }

  lemma {:induction false} SelectedAppendStored<E>(events: seq<E>, fate: seq<Fate>, more: seq<E>)
    requires |events| == |fate|
    ensures Selected(events + more, fate + Copies(Stored, |more|)) == Selected(events, fate) + more
    decreases |more|
  {
    if more == [] {
      assert events + more == events && fate + Copies(Stored, 0) == fate;
    } else {
      var n := |more| - 1;
      var all, fates := events + more, fate + Copies(Stored, |more|);
      assert all[..|all| - 1] == events + more[..n];
      assert fates[..|all| - 1] == fate + Copies(Stored, n);
      SelectedAppendStored(events, fate, more[..n]);
      assert more == more[..n] + [more[n]];
    }
  }

  lemma SelectedAppendLost<E>(events: seq<E>, fate: seq<Fate>, e: E, f: Fate)
    requires |events| == |fate| && f != Stored
    ensures Selected(events + [e], fate + [f]) == Selected(events, fate)
  {
    assert (events + [e])[..|events|] == events && (fate + [f])[..|events|] == fate;
  }

  lemma AppendKeeps<E>(c: Config, s: State<E>, e: E)
    requires c.bufferLimit > 0 && Accounted(s) && |s.buf| <= c.bufferLimit
    ensures var t := Append(c, s, e);
            Accounted(t) && 0 < |t.buf| <= c.bufferLimit && (NoneAbandoned(s.fate) ==> NoneAbandoned(t.fate))
  {
    var t := Append(c, s, e);
    if |s.buf| >= c.bufferLimit {
      var k := |s.fate|;
      assert s.buf[0] == s.received[k];
      assert t.received[..k + 1] == s.received[..k] + [s.received[k]];
      SelectedAppendLost(s.received[..k], s.fate, s.received[k], Evicted);
      assert t.buf == t.received[k + 1..];
    } else {
      assert t.received[..|t.fate|] == s.received[..|s.fate|];
      assert t.buf == t.received[|t.fate|..];
    }
  }

  /** A flush never loses anything: the truncation in Rebuffer does not bite. */
  lemma FlushKeeps<E>(c: Config, s: State<E>, ok: bool)
    requires c.bufferLimit > 0 && Accounted(s) && |s.buf| <= c.bufferLimit
    ensures var t := Flush(c, s, ok);
            && Accounted(t) && t.buf == (if ok then [] else s.buf) && t.lastFlush == Some(ok)
            && (NoneAbandoned(s.fate) ==> NoneAbandoned(t.fate))
  {
    if ok {
      var k := |s.fate|;
      SelectedAppendStored(s.received[..k], s.fate, s.buf);
      assert s.received[..k] + s.buf == s.received;
      assert s.received[..|s.received|] == s.received;
    } else {
      assert s.buf + [] == s.buf;
    }
  }

  /** After a flush the buffer is empty or the flush has failed. */
  lemma FlushKeepsInv<E>(c: Config, s: State<E>, ok: bool)
    requires c.batchSize > 0 && c.bufferLimit > 0 && Accounted(s) && |s.buf| <= c.bufferLimit && NoneAbandoned(s.fate)
    ensures Inv(c, Flush(c, s, ok))
  {
    FlushKeeps(c, s, ok);
  }

  lemma ArrivalKeepsInv<E>(c: Config, s: State<E>, e: E, ok: bool)
    requires c.batchSize > 0 && c.bufferLimit > 0 && Inv(c, s)
    ensures Inv(c, Next(c, s, Arrival(e, ok)))
  {
    AppendKeeps(c, s, e);
    var t := Append(c, s, e);
    if |t.buf| >= c.batchSize {
      FlushKeepsInv(c, t, ok);
    }
  }

  lemma NextKeepsInv<E>(c: Config, s: State<E>, ev: Event<E>)
    requires c.batchSize > 0 && c.bufferLimit > 0 && Inv(c, s)
    ensures Inv(c, Next(c, s, ev))
  {
    match ev
    case Arrival(e, ok) => ArrivalKeepsInv(c, s, e, ok);
    case Timer(ok) => FlushKeepsInv(c, s, ok);
  }

  /** Bounded buffer, conservation, order and no silent loss, over every run with any flush outcomes. */
  lemma {:induction false} RunKeepsInv<E>(c: Config, evs: seq<Event<E>>)
    requires c.batchSize > 0 && c.bufferLimit > 0
    ensures Inv(c, RunAll(c, evs))
  {
    if evs == [] {
    } else {
      RunKeepsInv(c, evs[..|evs| - 1]);
      NextKeepsInv(c, RunAll(c, evs[..|evs| - 1]), evs[|evs| - 1]);
    }
  }

  lemma StopSettles<E>(s: State<E>, ok: bool)
    requires Accounted(s)
    ensures var t := StopState(s, ok);
            t.buf == [] && |t.fate| == |t.received| && t.stored == Selected(t.received, t.fate)
  {
    var k := |s.fate|;
    assert s.received[..k] + s.buf == s.received;
    assert s.received[..|s.received|] == s.received;
    if s.buf != [] {
      if ok {
        SelectedAppendStored(s.received[..k], s.fate, s.buf);
      } else {
        SelectedAppendAbandoned(s.received[..k], s.fate, s.buf);
      }
    }
  }

  /** After Stop nothing is left in the buffer, and every event received has exactly one fate. */
  lemma StopSettlesAll<E>(c: Config, evs: seq<Event<E>>, ok: bool)
    requires c.batchSize > 0 && c.bufferLimit > 0
    ensures var s := StopState(RunAll(c, evs), ok);
            && s.buf == [] && |s.fate| == |s.received| && s.stored == Selected(s.received, s.fate)
            && (ok ==> NoneAbandoned(s.fate))
  {
    RunKeepsInv(c, evs);
    StopSettles(RunAll(c, evs), ok);
  }

  lemma {:induction false} SelectedAppendAbandoned<E>(events: seq<E>, fate: seq<Fate>, more: seq<E>)
    requires |events| == |fate|
    ensures Selected(events + more, fate + Copies(Abandoned, |more|)) == Selected(events, fate)
    decreases |more|
  {
    if more == [] {
      assert events + more == events && fate + Copies(Abandoned, 0) == fate;
    } else {
      var n := |more| - 1;
      SelectedAppendAbandoned(events, fate, more[..n]);
      assert events + more == (events + more[..n]) + [more[n]];
      assert fate + Copies(Abandoned, |more|) == (fate + Copies(Abandoned, n)) + [Abandoned];
      SelectedAppendLost(events + more[..n], fate + Copies(Abandoned, n), more[n], Abandoned);
    }
  }

  // ---- When events are stored ---------------------------------------------------

  /** The buffer with one more event: at the limit the oldest one makes room. */
  ghost function Waiting<E>(limit: int, buf: seq<E>, e: E): seq<E> {
    (if |buf| >= limit && buf != [] then buf[1..] else buf) + [e]
  }

  /** A tick stores everything that waits, or leaves everything waiting. */
  lemma TickOutcome<E>(c: Config, s: State<E>, ok: bool)
    requires c.bufferLimit > 0 && Accounted(s) && |s.buf| <= c.bufferLimit
    ensures var t := Next(c, s, Timer(ok));
            && t.received == s.received && t.stored == s.stored + (if ok then s.buf else [])
            && t.buf == (if ok then [] else s.buf) && |t.fate| == |s.fate| + (if ok then |s.buf| else 0)
  {
    if s.buf != [] {
      FlushKeeps(c, s, ok);
    }
  }

  /** A full batch is stored at once if the database takes it; otherwise the event waits with the others. */
  lemma ArrivalOutcome<E>(c: Config, s: State<E>, e: E, ok: bool)
    requires c.bufferLimit > 0 && Accounted(s) && |s.buf| <= c.bufferLimit
    ensures var t, waiting := Next(c, s, Arrival(e, ok)), Waiting(c.bufferLimit, s.buf, e);
            var stores := ok && |waiting| >= c.batchSize;
            && t.received == s.received + [e]
            && t.stored == s.stored + (if stores then waiting else []) && t.buf == (if stores then [] else waiting)
  {
    AppendKeeps(c, s, e);
    var t := Append(c, s, e);
    if |t.buf| >= c.batchSize {
      FlushKeeps(c, t, ok);
    }
  }

  /** After a tick with a working database every event received so far is stored or was evicted before. */
  lemma TickSettles<E>(c: Config, evs: seq<Event<E>>)
    requires c.batchSize > 0 && c.bufferLimit > 0
    ensures var s, before := RunAll(c, evs + [Timer(true)]), RunAll(c, evs);
            && s.buf == [] && s.received == before.received && |s.fate| == |s.received|
            && (forall i :: 0 <= i < |s.fate| ==> s.fate[i] == Stored || s.fate[i] == Evicted)
            && s.stored == before.stored + before.buf == Selected(s.received, s.fate)
  {
    RunOneMore(c, evs, Timer(true));
    RunKeepsInv(c, evs);
    RunKeepsInv(c, evs + [Timer(true)]);
    var s := RunAll(c, evs + [Timer(true)]);
    TickOutcome(c, RunAll(c, evs), true);
    assert s.received[..|s.fate|] == s.received;
  }

  ghost predicate AllSucceed<E>(evs: seq<Event<E>>) {
    forall i :: 0 <= i < |evs| ==> evs[i].flushOk
  }

  /** With a working database and batches that fit the buffer nothing is lost: stored or still waiting, in order. */
  lemma {:induction false} HealthyRunsLoseNothing<E>(c: Config, evs: seq<Event<E>>)
    requires 0 < c.batchSize <= c.bufferLimit && AllSucceed(evs)
    ensures var s := RunAll(c, evs); s.stored + s.buf == s.received && |s.buf| < c.batchSize
    decreases |evs|
  {
    if evs != [] {
      var n := |evs| - 1;
      var s := RunAll(c, evs[..n]);
      HealthyRunsLoseNothing(c, evs[..n]);
      RunKeepsInv(c, evs[..n]);
      match evs[n]
      case Arrival(e, ok) =>
        ArrivalOutcome(c, s, e, true);
        assert s.stored + (s.buf + [e]) == s.received + [e];
      case Timer(ok) => TickOutcome(c, s, true);
    }
  }

  // ---- When events are evicted --------------------------------------------------

  predicate Evicts<E>(c: Config, s: State<E>, ev: Event<E>) {
    ev.Arrival? && |s.buf| >= c.bufferLimit
  }

  /** Whenever an arrival evicts an event, the latest flush attempt had failed. */
  ghost predicate EvictsOnlyAfterFailure(c: Config) {
    forall evs: seq<Event<int>>, ev :: Evicts(c, RunAll(c, evs), ev) ==> RunAll(c, evs).lastFlush == Some(false)
  }

  function Arrivals(n: nat): seq<Event<int>> {
    if n == 0 then [] else Arrivals(n - 1) + [Arrival(n, true)]
  }

  lemma RunOneMore<E>(c: Config, evs: seq<Event<E>>, ev: Event<E>)
    ensures RunAll(c, evs + [ev]) == Next(c, RunAll(c, evs), ev)
  {
    assert (evs + [ev])[..|evs|] == evs;
  }

  lemma {:induction false} FillsWithoutFlushing(c: Config, n: nat)
    requires c.batchSize > 0 && c.bufferLimit > 0 && n < c.batchSize && n <= c.bufferLimit
    ensures var s := RunAll(c, Arrivals(n)); |s.buf| == n && s.lastFlush == None
  {
    if n == 0 {
    } else {
      FillsWithoutFlushing(c, n - 1);
      RunOneMore(c, Arrivals(n - 1), Arrival(n, true));
    }
  }

  /** Events are given up only because the database refuses them, exactly when a batch fits the buffer. */
  lemma EvictionIff(c: Config)
    requires c.batchSize > 0 && c.bufferLimit > 0
    ensures EvictsOnlyAfterFailure(c) <==> c.batchSize <= c.bufferLimit
  {
    if c.batchSize <= c.bufferLimit {
      forall evs: seq<Event<int>>, ev | Evicts(c, RunAll(c, evs), ev) ensures RunAll(c, evs).lastFlush == Some(false) {
        RunKeepsInv(c, evs);
      }
    } else {
      FillsWithoutFlushing(c, c.bufferLimit);
      assert Evicts(c, RunAll(c, Arrivals(c.bufferLimit)), Arrival(0, true));
    }
  }

  // ---- The program --------------------------------------------------------------

  class Buffer<E> {
    const cfg: Config
    var buf: seq<E>
    var stored: seq<E> // what the database holds
    ghost var history: State<E>

    ghost predicate Valid()
      reads this
    {
      cfg.batchSize > 0 && cfg.bufferLimit > 0 && history.buf == buf && history.stored == stored && Inv(cfg, history)
    }

    constructor (c: Config)
      ensures Valid() && cfg == WithDefaults(c) && history == Empty()
    {
      cfg := WithDefaults(c);
      buf, stored := [], [];
      history := Empty();
    }

    /** append: at the limit the oldest event is shifted out. */
    method Add(e: E)
      requires Valid()
      modifies this`buf, this`history
      ensures cfg.batchSize > 0 && cfg.bufferLimit > 0 && history == Append(cfg, old(history), e) && buf == history.buf
      ensures buf == Waiting(cfg.bufferLimit, old(buf), e)
    {
      history := Append(cfg, history, e);
      if |buf| >= cfg.bufferLimit {
        buf := buf[1..] + buf[|buf| - 1..];
        buf := buf[|buf| - 1 := e];
        return;
      }
      buf := buf + [e];
    }

    /** rebuffer. */
    method PutBack(batch: seq<E>)
      modifies this`buf
      ensures buf == Rebuffer(cfg, old(buf), batch)
    {
      var space := cfg.bufferLimit - |buf|;
      if space <= 0 {
        return;
      }
      var kept := batch;
      if |kept| > space {
        kept := kept[..space];
      }
      buf := kept + buf;
    }

    /** Flush the whole buffer; a batch the database refuses is put back. */
    method FlushAll(flushOk: bool)
      requires cfg.bufferLimit > 0 && Accounted(history) && |history.buf| <= cfg.bufferLimit && history.buf == buf
      requires history.stored == stored
      modifies this
      ensures history == Flush(cfg, old(history), flushOk) && buf == history.buf && stored == history.stored
    {
      var batch := buf;
      buf := [];
      if flushOk {
        stored := stored + batch;
      } else {
        PutBack(batch);
      }
      history := Flush(cfg, history, flushOk);
    }

    /** One turn of the loop on an arriving event. */
    method OnEvent(e: E, flushOk: bool)
      requires Valid()
      modifies this
      ensures Valid() && history == Next(cfg, old(history), Arrival(e, flushOk))
      ensures var waiting := Waiting(cfg.bufferLimit, old(buf), e);
              if flushOk && |waiting| >= cfg.batchSize then stored == old(stored) + waiting && buf == []
              else stored == old(stored) && buf == waiting
    {
      ArrivalOutcome(cfg, history, e, flushOk);
      NextKeepsInv(cfg, history, Arrival(e, flushOk));
      AppendKeeps(cfg, history, e);
      Add(e);
      if |buf| >= cfg.batchSize {
        FlushAll(flushOk);
      }
    }

    /** One turn of the loop on a timer tick. */
    method OnTimer(flushOk: bool)
      requires Valid()
      modifies this
      ensures Valid() && history == Next(cfg, old(history), Timer(flushOk))
      ensures stored == old(stored) + (if flushOk then old(buf) else [])
      ensures buf == if flushOk then [] else old(buf)
    {
      TickOutcome(cfg, history, flushOk);
      NextKeepsInv(cfg, history, Timer(flushOk));
      if |buf| > 0 {
        FlushAll(flushOk);
      }
    }

    /**
     Stop: the remaining events are flushed once, without a second chance. Afterwards every
     event ever received is accounted for, and only the last batch can have been given up.
     */
    method Stop(flushOk: bool) returns (remaining: seq<E>)
      requires Valid()
      modifies this
      ensures remaining == old(buf) == old(history.received)[|old(history.fate)|..]
      ensures buf == [] && stored == (if flushOk then old(stored) + remaining else old(stored))
      ensures history.received == old(history.received) && |history.fate| == |history.received|
      ensures stored == Selected(history.received, history.fate)
      ensures history.fate == old(history.fate) + Copies(if flushOk then Stored else Abandoned, |remaining|)
    {
      StopSettles(history, flushOk);
      remaining := buf;
      buf := [];
      if |remaining| > 0 && flushOk {
        stored := stored + remaining;
      }
      history := StopState(history, flushOk);
    }
  }
}
