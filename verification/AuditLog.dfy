/**
 The audit log (internal/audit/logger.go): keys that sort by time and sequence number, the
 events a logger writes, and the query that scans, filters, reverses and cuts. The store's
 scan (internal/cluster/persistence_kv.go) visits keys in byte order and stops after limit
 entries. Clock readings, event ids and store failures are parameters.
 */
module AuditLog {
  import opened Wrappers
  import opened Ints
  import opened Text

  // ---- Numbers in keys ----------------------------------------------------------

  function Pow10(w: nat): (p: nat)
    ensures p > 0
  {
    if w == 0 then 1 else 10 * Pow10(w - 1)
  }

  function Zeros(w: nat): (s: string)
    ensures |s| == w
  {
    if w == 0 then "" else Zeros(w - 1) + "0"
  }

  /** The %0wd verb: at least w characters. */
  function Padded(n: nat, w: nat): string {
    var s := Decimal(n);
    if |s| < w then Zeros(w - |s|) + s else s
  }

  /** Exactly w digits. */
  function Fixed(n: nat, w: nat): (s: string)
    ensures |s| == w
  {
    if w == 0 then "" else Fixed(n / 10, w - 1) + [Digit(n % 10)]
  }

  lemma {:induction false} PaddedIsFixed(n: nat, w: nat)
    requires w > 0 && n < Pow10(w)
    ensures Padded(n, w) == Fixed(n, w)
    decreases w
  {
    if w == 1 {
      assert Pow10(0) == 1;
      assert Fixed(n / 10, 0) == "" && Fixed(n, 1) == "" + [Digit(n)];
    } else if n < 10 {
      PaddedIsFixed(0, w - 1);
      assert Zeros(w - 1) == Zeros(w - 2) + "0";
      assert Decimal(0) == "0" && Padded(0, w - 1) == Zeros(w - 1);
    } else {
      PaddedIsFixed(n / 10, w - 1);
      var s, t := Decimal(n / 10), Decimal(n);
      assert t == s + [Digit(n % 10)];
      if |s| < w - 1 {
        assert Zeros(w - |t|) + t == (Zeros(w - 1 - |s|) + s) + [Digit(n % 10)];
      }
    }
  }

  // ---- Byte order ---------------------------------------------------------------

  predicate Less(s: string, t: string) {
    t != "" && (s == "" || s[0] < t[0] || (s[0] == t[0] && Less(s[1..], t[1..])))
  }

  lemma {:induction false} LessAsymmetric(s: string, t: string)
    requires Less(s, t)
    ensures !Less(t, s) && s != t
    decreases |s|
  {
    if s != "" && s[0] == t[0] {
      LessAsymmetric(s[1..], t[1..]);
    }
  }

  lemma {:induction false} LessExtends(s: string, t: string, x: string, y: string)
    requires |s| == |t| && Less(s, t)
    ensures Less(s + x, t + y)
    decreases |s|
  {
    if s[0] == t[0] {
      LessExtends(s[1..], t[1..], x, y);
    }
    assert (s + x)[1..] == s[1..] + x && (t + y)[1..] == t[1..] + y;
  }

  lemma {:induction false} LessAfterPrefix(s: string, x: string, y: string)
    requires Less(x, y)
    ensures Less(s + x, s + y)
    decreases |s|
  {
    if s == "" {
      assert s + x == x && s + y == y;
    } else {
      LessAfterPrefix(s[1..], x, y);
      assert (s + x)[1..] == s[1..] + x && (s + y)[1..] == s[1..] + y;
    }
  }

  lemma {:induction false} FixedOrder(a: nat, b: nat, w: nat)
    requires a < b < Pow10(w)
    ensures Less(Fixed(a, w), Fixed(b, w))
    decreases w
  {
    var d, e := [Digit(a % 10)], [Digit(b % 10)];
    if a / 10 < b / 10 {
      FixedOrder(a / 10, b / 10, w - 1);
      LessExtends(Fixed(a / 10, w - 1), Fixed(b / 10, w - 1), d, e);
    } else {
      assert Less(d, e);
      LessAfterPrefix(Fixed(a / 10, w - 1), d, e);
    }
  }

  // ---- Keys -----------------------------------------------------------------------

  function Key(timestamp: nat, number: nat, id: string): string {
    "audit:" + Padded(timestamp, 19) + ":" + Padded(number, 16) + ":" + id
  }

  ghost predicate InRange(timestamp: nat, number: nat) {
    timestamp < 10_000_000_000_000_000_000 && number < 10_000_000_000_000_000
  }

  lemma Widths()
    ensures Pow10(16) == 10_000_000_000_000_000 && Pow10(19) == 10_000_000_000_000_000_000
  {
    assert Pow10(4) == 10_000;
    assert Pow10(8) == 100_000_000;
    assert Pow10(12) == 1_000_000_000_000;
    assert Pow10(16) == 10_000_000_000_000_000;
  }

  lemma KeyShape(timestamp: nat, number: nat, id: string)
    requires InRange(timestamp, number)
    ensures Key(timestamp, number, id) == "audit:" + (Fixed(timestamp, 19) + (":" + (Fixed(number, 16) + (":" + id))))
  {
    Widths();
    PaddedIsFixed(timestamp, 19);
    PaddedIsFixed(number, 16);
  }

  lemma Parts(a: string, b: string, c: string, d: string)
    ensures var s := a + (b + (":" + (c + (":" + d))));
            && |s| == |a| + |b| + |c| + |d| + 2 && s[..|a|] == a && s[|a|..|a| + |b|] == b && s[|a| + |b|] == ':'
            && s[|a| + |b| + 1..|a| + |b| + 1 + |c|] == c && s[|a| + |b| + |c| + 1] == ':'
            && s[|a| + |b| + |c| + 2..] == d
  {
  }

  /** What a key looks like: both numbers in full width behind the prefix, then the id. */
  lemma KeyText(timestamp: nat, number: nat, id: string)
    requires InRange(timestamp, number)
    ensures var key := Key(timestamp, number, id);
            && |key| == 43 + |id| && key[..6] == "audit:" && key[25] == ':' && key[42] == ':' && key[43..] == id
            && ValueOf(key[6..25]) == timestamp && ValueOf(key[26..42]) == number
  {
    var key := Key(timestamp, number, id);
    KeyShape(timestamp, number, id);
    Widths();
    FixedReadsBack(timestamp, 19);
    FixedReadsBack(number, 16);
    Parts("audit:", Fixed(timestamp, 19), Fixed(number, 16), id);
  }

  lemma {:induction false} FixedReadsBack(n: nat, w: nat)
    requires n < Pow10(w)
    ensures ValueOf(Fixed(n, w)) == n
    decreases w
  {
    if w > 0 {
      FixedReadsBack(n / 10, w - 1);
      assert Fixed(n, w)[..w - 1] == Fixed(n / 10, w - 1);
    }
  }

  ghost predicate Earlier(timestamp: nat, number: nat, timestamp': nat, number': nat) {
    timestamp < timestamp' || (timestamp == timestamp' && number < number')
  }

  lemma EarlierSortsFirst(t: nat, n: nat, id: string, t': nat, n': nat, id': string)
    requires InRange(t, n) && InRange(t', n') && Earlier(t, n, t', n')
    ensures Less(Key(t, n, id), Key(t', n', id'))
  {
    KeyShape(t, n, id);
    KeyShape(t', n', id');
    Widths();
    var x, x' := Fixed(n, 16) + (":" + id), Fixed(n', 16) + (":" + id');
    var y, y' := Fixed(t, 19) + (":" + x), Fixed(t', 19) + (":" + x');
    if t < t' {
      FixedOrder(t, t', 19);
      LessExtends(Fixed(t, 19), Fixed(t', 19), ":" + x, ":" + x');
    } else {
      FixedOrder(n, n', 16);
      LessExtends(Fixed(n, 16), Fixed(n', 16), ":" + id, ":" + id');
      LessAfterPrefix(":", x, x');
      LessAfterPrefix(Fixed(t, 19), ":" + x, ":" + x');
    }
    LessAfterPrefix("audit:", y, y');
  }

  /**
   * For different (timestamp, number) pairs, byte order is their order, whatever the ids; in particular the keys
   * differ.
   */
  lemma KeyOrder(t: nat, n: nat, id: string, t': nat, n': nat, id': string)
    requires InRange(t, n) && InRange(t', n') && (t, n) != (t', n')
    ensures Less(Key(t, n, id), Key(t', n', id')) <==> Earlier(t, n, t', n')
    ensures Key(t, n, id) != Key(t', n', id')
  {
    if Earlier(t, n, t', n') {
      EarlierSortsFirst(t, n, id, t', n', id');
      LessAsymmetric(Key(t, n, id), Key(t', n', id'));
    } else {
      EarlierSortsFirst(t', n', id', t, n, id);
      LessAsymmetric(Key(t', n', id'), Key(t, n, id));
    }
  }

  // ---- Logging ----------------------------------------------------------------------

  datatype Event = Event(id: string, timestamp: nat, kind: string, actor: string)

  /** One call of Log, and whether the store took the write. */
  datatype Attempt = Attempt(event: Event, persisted: bool)

  /** The keys the attempts were given; sequence numbers start at 1. */
  function Keys(history: seq<Attempt>): (given: seq<string>)
    ensures |given| == |history|
  {
    KeysBy(history, Key)
  }

  function KeysBy(history: seq<Attempt>, key: (nat, nat, string) -> string): (given: seq<string>)
    ensures |given| == |history|
  {
    seq(|history|, i requires 0 <= i < |history| => key(history[i].event.timestamp, i + 1, history[i].event.id))
  }

  function StoreAfter(history: seq<Attempt>, given: seq<string>): map<string, Event>
    requires |given| == |history|
  {
    if history == [] then map[]
    else
      var n := |history| - 1;
      var before := StoreAfter(history[..n], given[..n]);
      if history[n].persisted then before[given[n] := history[n].event] else before
  }

  class Logger {
    var number: nat
    var store: map<string, Event>

    constructor ()
      ensures number == 0 && store == StoreAfter([], Keys([]))
    {
      number, store := 0, map[];
    }

    /** The counter moves on even when the store refuses the write. */
    method Log(event: Event, accepted: bool, ghost history: seq<Attempt>) returns (ok: bool)
      requires number == |history| && store == StoreAfter(history, Keys(history))
      modifies this
      ensures ok == accepted
      ensures var after := history + [Attempt(event, accepted)];
              number == |after| && store == StoreAfter(after, Keys(after))
    {
      number := number + 1;
      if accepted {
        store := store[Key(event.timestamp, number, event.id) := event];
      }
      ghost var after := history + [Attempt(event, accepted)];
      assert after[..|history|] == history && Keys(after)[..|history|] == Keys(history);
      ok := accepted;
    }
  }

  ghost predicate AllInRange(history: seq<Attempt>) {
    && |history| < 10_000_000_000_000_000
    && forall i :: 0 <= i < |history| ==> history[i].event.timestamp < 10_000_000_000_000_000_000
  }

  ghost predicate LoggedBefore(history: seq<Attempt>, i: nat, k: nat)
    requires i < |history| && k < |history|
  {
    Earlier(history[i].event.timestamp, i, history[k].event.timestamp, k)
  }

  /** The keys differ, and their byte order is the order of the events in time. */
  ghost predicate SortsByTime(history: seq<Attempt>, given: seq<string>)
    requires |given| == |history|
  {
    forall i, k :: 0 <= i < |given| && 0 <= k < |given| && i != k ==>
      given[i] != given[k] && (Less(given[i], given[k]) <==> LoggedBefore(history, i, k))
  }

  /** Keys made this way differ, and sort, like the pairs they are made from. */
  ghost predicate Faithful(key: (nat, nat, string) -> string) {
    forall t, n, id, t', n', id' :: InRange(t, n) && InRange(t', n') && (t, n) != (t', n') ==>
      key(t, n, id) != key(t', n', id') && (Less(key(t, n, id), key(t', n', id')) <==> Earlier(t, n, t', n'))
  }

  lemma KeyIsFaithful()
    ensures Faithful(Key)
  {
    forall t, n, id, t', n', id' | InRange(t, n) && InRange(t', n') && (t, n) != (t', n')
      ensures Key(t, n, id) != Key(t', n', id') && (Less(Key(t, n, id), Key(t', n', id')) <==> Earlier(t, n, t', n'))
    {
      KeyOrder(t, n, id, t', n', id');
    }
  }

  lemma FaithfulKeysSortByTime(history: seq<Attempt>, key: (nat, nat, string) -> string)
    requires AllInRange(history) && Faithful(key)
    ensures SortsByTime(history, KeysBy(history, key))
  {
    var given := KeysBy(history, key);
    forall i, k | 0 <= i < |given| && 0 <= k < |given| && i != k
      ensures given[i] != given[k] && (Less(given[i], given[k]) <==> LoggedBefore(history, i, k))
    {
      assert InRange(history[i].event.timestamp, i + 1) && InRange(history[k].event.timestamp, k + 1);
    }
  }

  /** The keys of one logger never collide, even when its clock runs backwards or ids repeat. */
  lemma KeysSortByTime(history: seq<Attempt>)
    requires AllInRange(history)
    ensures SortsByTime(history, Keys(history))
  {
    KeyIsFaithful();
    FaithfulKeysSortByTime(history, Key);
  }

  ghost predicate Holds(store: map<string, Event>, key: string, e: Event) {
    key in store && store[key] == e
  }

  ghost predicate KeyOfPersisted(history: seq<Attempt>, given: seq<string>, key: string)
    requires |given| == |history|
  {
    exists i :: 0 <= i < |history| && history[i].persisted && given[i] == key
  }

  /** Nothing written is ever overwritten by a later event. */
  lemma {:induction false} EveryEventIsKept(history: seq<Attempt>, given: seq<string>)
    requires |given| == |history| && SortsByTime(history, given)
    ensures forall i :: 0 <= i < |history| && history[i].persisted ==>
      Holds(StoreAfter(history, given), given[i], history[i].event)
    ensures forall key :: key in StoreAfter(history, given) ==> KeyOfPersisted(history, given, key)
    decreases |history|
  {
    if history == [] {
    } else {
      var n := |history| - 1;
      var before, given' := history[..n], given[..n];
      assert forall i, k :: 0 <= i < n && 0 <= k < n ==> (LoggedBefore(before, i, k) <==> LoggedBefore(history, i, k));
      EveryEventIsKept(before, given');
      forall i | 0 <= i < n && history[i].persisted
        ensures Holds(StoreAfter(history, given), given[i], history[i].event)
      {
        assert Holds(StoreAfter(before, given'), given'[i], before[i].event);
      }
      forall key | key in StoreAfter(history, given) ensures KeyOfPersisted(history, given, key) {
        if key in StoreAfter(before, given') {
          assert KeyOfPersisted(before, given', key);
          var i :| 0 <= i < |before| && before[i].persisted && given'[i] == key;
          assert history[i].persisted && given[i] == key;
        } else {
          assert history[n].persisted && given[n] == key;
        }
      }
    }
  }

  // ---- Querying -----------------------------------------------------------------------

  /** Unset times and an empty kind do not filter. */
  datatype Query = Query(start: Option<int>, end: Option<int>, kind: string, limit: int)

  predicate Matches(q: Query, e: Event) {
    && (q.start.Some? ==> e.timestamp >= q.start.value)
    && (q.end.Some? ==> e.timestamp < q.end.value)
    && (q.kind != "" ==> e.kind == q.kind)
  }

  /** The window of a query includes its start and excludes its end; an empty type asks for all types. */
  ghost predicate Asked(q: Query, e: Event) {
    && (q.start.None? || q.start.value <= e.timestamp) && (q.end.None? || e.timestamp < q.end.value)
    && (q.kind == "" || q.kind == e.kind)
  }

  lemma MatchesIff(q: Query, e: Event)
    ensures Matches(q, e) <==> Asked(q, e)
  {
  }

  /** Two windows that meet share no event, and together they are the whole window. */
  lemma WindowsMeet(q: Query, middle: int, e: Event)
    requires (q.start.None? || q.start.value <= middle) && (q.end.None? || middle <= q.end.value)
    ensures var first, second := q.(end := Some(middle)), q.(start := Some(middle));
            && (Matches(q, e) <==> Matches(first, e) || Matches(second, e))
            && !(Matches(first, e) && Matches(second, e))
            && (Matches(second, e) && e.timestamp == middle <==> Matches(q, e) && e.timestamp == middle)
  {
  }

  /** Stored values in scan order; None is one that does not decode. */
  function Matching(q: Query, values: seq<Option<Event>>): (events: seq<Event>)
    ensures |events| <= |values|
  {
    if values == [] then []
    else
      var n := |values| - 1;
      Matching(q, values[..n])
      + (if values[n].Some? && Matches(q, values[n].value) then [values[n].value] else [])
  }

  function Reversed<T>(s: seq<T>): (r: seq<T>)
    ensures |r| == |s| && forall i :: 0 <= i < |s| ==> r[i] == s[|s| - 1 - i]
  {
    seq(|s|, i requires 0 <= i < |s| => s[|s| - 1 - i])
  }

  function Cut<T>(s: seq<T>, limit: int): seq<T> {
    if limit > 0 && |s| > limit then s[..limit] else s
  }

  lemma ReversedMembers<T>(s: seq<T>)
    ensures forall x :: x in Reversed(s) <==> x in s
  {
    forall i | 0 <= i < |s| ensures s[i] in Reversed(s) {
      assert Reversed(s)[|s| - 1 - i] == s[i];
    }
  }

  method ReverseInPlace(events: array<Event>)
    modifies events
    ensures events[..] == Reversed(old(events[..]))
  {
    ghost var was := events[..];
    var i, j := 0, events.Length - 1;
    while i < j
      invariant 0 <= i <= events.Length && j == events.Length - 1 - i && i <= j + 2
      invariant forall k :: 0 <= k < i ==> events[k] == was[events.Length - 1 - k]
      invariant forall k :: j < k < events.Length ==> events[k] == was[events.Length - 1 - k]
      invariant forall k :: i <= k <= j ==> events[k] == was[k]
    {
      events[i], events[j] := events[j], events[i];
      i, j := i + 1, j - 1;
    }
  }

  method QueryEvents(values: seq<Option<Event>>, q: Query) returns (r: seq<Event>)
    ensures r == Cut(Reversed(Matching(q, values)), q.limit)
    ensures forall e :: e in r ==> Asked(q, e) && Some(e) in values
    ensures q.limit > 0 ==> |r| <= q.limit
    ensures q.limit <= 0 ==> forall e :: Asked(q, e) && Some(e) in values ==> e in r
  {
    var found: seq<Event> := [];
    for i := 0 to |values|
      invariant found == Matching(q, values[..i])
      invariant forall e :: e in found <==> Some(e) in values[..i] && Asked(q, e)
    {
      assert values[..i + 1][..i] == values[..i] && values[..i + 1] == values[..i] + [values[i]];
      if values[i].Some? {
        MatchesIff(q, values[i].value);
        if Matches(q, values[i].value) {
          found := found + [values[i].value];
        }
      }
    }
    assert values[..|values|] == values;
    var events := new Event[|found|](i requires 0 <= i < |found| => found[i]);
    assert events[..] == found;
    ReverseInPlace(events);
    r := Cut(events[..], q.limit);
    ReversedMembers(found);
  }

  /** The order in which the store's iterator visits its keys. */
  ghost predicate IsScan(keys: seq<string>, store: map<string, Event>) {
    && (forall i, k :: 0 <= i < k < |keys| ==> Less(keys[i], keys[k]))
    && forall key :: key in keys <==> key in store
  }

  function Values(keys: seq<string>, store: map<string, Event>): (values: seq<Option<Event>>)
    requires forall key :: key in keys ==> key in store
    ensures |values| == |keys|
  {
    seq(|keys|, i requires 0 <= i < |keys| => Some(store[keys[i]]))
  }

  /** The attempts at these positions, oldest first. */
  ghost predicate Ascending(history: seq<Attempt>, positions: seq<nat>) {
    && (forall a :: 0 <= a < |positions| ==> positions[a] < |history|)
    && forall a, b :: 0 <= a < b < |positions| ==> LoggedBefore(history, positions[a], positions[b])
  }

  function EventsAt(history: seq<Attempt>, positions: seq<nat>): (events: seq<Event>)
    requires forall a :: 0 <= a < |positions| ==> positions[a] < |history|
    ensures |events| == |positions|
  {
    seq(|positions|, a requires 0 <= a < |positions| => history[positions[a]].event)
  }

  ghost predicate Wanted(history: seq<Attempt>, q: Query, i: nat) {
    i < |history| && history[i].persisted && Matches(q, history[i].event)
  }

  ghost predicate Found(history: seq<Attempt>, given: seq<string>, q: Query, keys: seq<string>, i: nat)
    requires |given| == |history|
  {
    Wanted(history, q, i) && given[i] in keys
  }

  ghost predicate Scans(history: seq<Attempt>, given: seq<string>, keys: seq<string>) {
    |given| == |history| && SortsByTime(history, given) && IsScan(keys, StoreAfter(history, given))
  }

  /** These positions are what filtering the first n scanned values finds. */
  ghost predicate Finds(history: seq<Attempt>, given: seq<string>, q: Query, keys: seq<string>, n: nat,
                        positions: seq<nat>)
    requires Scans(history, given, keys) && n <= |keys|
  {
    && Ascending(history, positions)
    && EventsAt(history, positions) == Matching(q, Values(keys, StoreAfter(history, given))[..n])
    && forall i :: i in positions <==> Found(history, given, q, keys[..n], i)
  }

  lemma MatchingNext(q: Query, values: seq<Option<Event>>, n: nat, e: Event)
    requires 0 < n <= |values| && values[n - 1] == Some(e)
    ensures Matching(q, values[..n]) == Matching(q, values[..n - 1]) + if Matches(q, e) then [e] else []
  {
    assert values[..n][..n - 1] == values[..n - 1] && values[..n][n - 1] == Some(e);
  }

  lemma FindsOneMore(history: seq<Attempt>, given: seq<string>, q: Query, keys: seq<string>, n: nat,
                     positions: seq<nat>, i: nat)
    requires Scans(history, given, keys) && 0 < n <= |keys| && Finds(history, given, q, keys, n - 1, positions)
    requires i < |history| && history[i].persisted && given[i] == keys[n - 1] && Matches(q, history[i].event)
    requires Matching(q, Values(keys, StoreAfter(history, given))[..n])
          == Matching(q, Values(keys, StoreAfter(history, given))[..n - 1]) + [history[i].event]
    ensures Finds(history, given, q, keys, n, positions + [i])
  {
    FoundNext(history, given, q, keys, n, i);
    forall a | 0 <= a < |positions| ensures LoggedBefore(history, positions[a], i) {
      assert positions[a] in positions;
      FoundIsBefore(history, given, q, keys, n, positions[a], i);
    }
    EventsAtAppend(history, positions, i);
  }

  lemma {:induction false} ScanFinds(history: seq<Attempt>, given: seq<string>, q: Query, keys: seq<string>, n: nat)
    returns (positions: seq<nat>)
    requires Scans(history, given, keys) && n <= |keys|
    ensures Finds(history, given, q, keys, n, positions)
  {
    if n == 0 {
      positions := [];
    } else {
      positions := ScanFinds(history, given, q, keys, n - 1);
      var i := Origin(history, given, keys, n - 1);
      MatchingNext(q, Values(keys, StoreAfter(history, given)), n, history[i].event);
      if Matches(q, history[i].event) {
        FindsOneMore(history, given, q, keys, n, positions, i);
        positions := positions + [i];
      } else {
        FoundNext(history, given, q, keys, n, i);
      }
    }
  }

  lemma EventsAtAppend(history: seq<Attempt>, positions: seq<nat>, i: nat)
    requires (forall a :: 0 <= a < |positions| ==> positions[a] < |history|) && i < |history|
    ensures EventsAt(history, positions + [i]) == EventsAt(history, positions) + [history[i].event]
  {
  }

  /** The attempt behind a scanned key. */
  lemma Origin(history: seq<Attempt>, given: seq<string>, keys: seq<string>, n: nat) returns (i: nat)
    requires Scans(history, given, keys) && n < |keys|
    ensures i < |history| && history[i].persisted && given[i] == keys[n]
    ensures Holds(StoreAfter(history, given), keys[n], history[i].event)
  {
    EveryEventIsKept(history, given);
    assert keys[n] in keys && KeyOfPersisted(history, given, keys[n]);
    i :| 0 <= i < |history| && history[i].persisted && given[i] == keys[n];
  }

  lemma FoundIsBefore(history: seq<Attempt>, given: seq<string>, q: Query, keys: seq<string>, n: nat, a: nat, i: nat)
    requires Scans(history, given, keys) && 0 < n <= |keys|
    requires Found(history, given, q, keys[..n - 1], a) && i < |history| && given[i] == keys[n - 1]
    ensures LoggedBefore(history, a, i)
  {
    var k :| 0 <= k < n - 1 && keys[k] == given[a];
    LessAsymmetric(keys[k], keys[n - 1]);
  }

  lemma FoundNext(history: seq<Attempt>, given: seq<string>, q: Query, keys: seq<string>, n: nat, i: nat)
    requires Scans(history, given, keys) && 0 < n <= |keys|
    requires i < |history| && history[i].persisted && given[i] == keys[n - 1]
    ensures forall k :: Found(history, given, q, keys[..n], k) <==>
              Found(history, given, q, keys[..n - 1], k) || (k == i && Matches(q, history[i].event))
  {
    assert keys[..n] == keys[..n - 1] + [keys[n - 1]];
  }

  /**
   A query without a limit lists each persisted matching event exactly once, the latest
   timestamp first, and events of one nanosecond in reverse order of logging.
   */
  lemma QueryIsExact(history: seq<Attempt>, q: Query, keys: seq<string>) returns (positions: seq<nat>)
    requires AllInRange(history) && IsScan(keys, StoreAfter(history, Keys(history))) && q.limit <= 0
    ensures Ascending(history, positions)
    ensures forall i: nat :: i in positions <==> i < |history| && history[i].persisted && Asked(q, history[i].event)
    ensures Cut(Reversed(Matching(q, Values(keys, StoreAfter(history, Keys(history))))), q.limit)
         == Reversed(EventsAt(history, positions))
  {
    var given := Keys(history);
    KeysSortByTime(history);
    positions := ScanFinds(history, given, q, keys, |keys|);
    var values := Values(keys, StoreAfter(history, given));
    assert values[..|keys|] == values && keys[..|keys|] == keys;
    AllWantedAreFound(history, given, q, keys);
  }

  lemma AllWantedAreFound(history: seq<Attempt>, given: seq<string>, q: Query, keys: seq<string>)
    requires Scans(history, given, keys)
    ensures forall i :: Found(history, given, q, keys, i) <==> Wanted(history, q, i)
  {
    EveryEventIsKept(history, given);
    forall i: nat | Wanted(history, q, i) ensures Found(history, given, q, keys, i) {
      assert Holds(StoreAfter(history, given), given[i], history[i].event);
    }
  }

  // ---- Queries with a limit --------------------------------------------------------------

  /** The store's Scan stops after limit entries. */
  function Scanned(values: seq<Option<Event>>, limit: int): seq<Option<Event>> {
    Cut(values, limit)
  }

  lemma {:induction false} MatchingSplits(q: Query, values: seq<Option<Event>>, n: nat)
    requires n <= |values|
    ensures Matching(q, values) == Matching(q, values[..n]) + Matching(q, values[n..])
    decreases |values|
  {
    var m := |values| - 1;
    if n == |values| {
      assert values[..n] == values && values[n..] == [];
    } else {
      MatchingSplits(q, values[..m], n);
      var late := values[n..];
      assert values[..m][..n] == values[..n] && values[..m][n..] == late[..m - n];
      assert |late| - 1 == m - n && late[m - n] == values[m];
    }
  }

  /** What the comment on the limit promises: the newest matches, at most limit of them. */
  function Newest(q: Query, values: seq<Option<Event>>): seq<Event> {
    Cut(Reversed(Matching(q, values)), q.limit)
  }

  ghost predicate DistinctIds(events: seq<Event>) {
    forall i, k :: 0 <= i < k < |events| ==> events[i].id != events[k].id
  }

  /**
   * A limited query answers from the oldest entries: it gives the newest matches exactly when no entry past the scanned
   * ones matches.
   */
  lemma LimitedIsNewestIff(q: Query, values: seq<Option<Event>>)
    requires DistinctIds(Matching(q, values))
    ensures Newest(q, Scanned(values, q.limit)) == Newest(q, values) <==>
              (0 < q.limit < |values| ==> Matching(q, values[q.limit..]) == [])
  {
    var n := |Scanned(values, q.limit)|;
    MatchingSplits(q, values, n);
    var all, old', late := Matching(q, values), Matching(q, values[..n]), Matching(q, values[n..]);
    assert Scanned(values, q.limit) == values[..n];
    if late == [] {
      assert all == old';
    } else if old' == [] {
      assert Newest(q, values[..n]) == [] && Newest(q, values) != [];
    } else {
      assert Newest(q, values[..n])[0] == old'[|old'| - 1] == all[|old'| - 1];
      assert Newest(q, values)[0] == all[|all| - 1];
    }
  }

  /** Two events and a limit of one: the older one is the answer. */
  lemma OldestWins(older: Event, newer: Event)
    requires older != newer
    ensures var q := Query(None, None, "", 1);
            Newest(q, Scanned([Some(older), Some(newer)], 1)) == [older] &&
              Newest(q, [Some(older), Some(newer)]) == [newer]
  {
    var q, values := Query(None, None, "", 1), [Some(older), Some(newer)];
    assert values[..1] == [Some(older)] && values[..1][..0] == [] && [Some(older)][..0] == [];
    assert Matching(q, [Some(older)]) == Matching(q, []) + [older];
    assert Matching(q, values) == Matching(q, values[..1]) + [newer];
  }

  // ---- The audit listing of the API ---------------------------------------------------------

  /** A page is a list of events, or None when slicing with a negative bound panics. */
  type Page = Option<seq<Event>>

  /** Where the page starts, as the handler computes it. */
  function Skip(page: Int64, size: Int64): Int64 {
    Wrap((page - 1) * size)
  }

  /** The events from a start on, cut to the page size. */
  function Shown(found: seq<Event>, skip: Int64): Page {
    if skip < 0 then None else if skip >= |found| then Some([]) else Some(found[skip..])
  }

  method Window(found: seq<Event>, skip: Int64, size: Int64) returns (shown: Page)
    requires 1 <= size <= 100 && |found| <= size
    ensures shown == Shown(found, skip)
  {
    if skip >= |found| {
      return Some([]);
    }
    var end: Int64 := skip + size;
    if end > |found| {
      end := |found|;
    }
    if skip < 0 {
      return None;
    }
    assert found[skip..end] == found[skip..];
    shown := Some(found[skip..end]);
  }

  /** What the query behind a page finds: the matches among the oldest `size` entries, latest first. */
  function FoundFor(values: seq<Option<Event>>, kind: string, size: Int64): (found: seq<Event>)
    requires size >= 1
    ensures |found| <= size
  {
    Newest(Query(None, None, kind, size), Scanned(values, size))
  }

  /** One limited query, then the page's window of its result. */
  method AuditPage(values: seq<Option<Event>>, kind: string, page: Int64, size: Int64) returns (shown: Page)
    requires page >= 1 && 1 <= size <= 100
    ensures shown == PageOf(values, kind, page, size)
  {
    var found := QueryEvents(Scanned(values, size), Query(None, None, kind, size));
    shown := Window(found, Skip(page, size), size);
  }

  function PageOf(values: seq<Option<Event>>, kind: string, page: Int64, size: Int64): Page
    requires page >= 1 && 1 <= size <= 100
  {
    Shown(FoundFor(values, kind, size), Skip(page, size))
  }

  function SomeEvent(kind: string): Event {
    Event("id", 0, kind, "actor")
  }

  lemma {:induction false} AllMatch(q: Query, e: Event, n: nat)
    requires Matches(q, e)
    ensures |Matching(q, seq(n, _ => Some(e)))| == n
  {
    if n == 0 {
    } else {
      AllMatch(q, e, n - 1);
      assert seq(n, _ => Some(e))[..n - 1] == seq(n - 1, _ => Some(e));
    }
  }

  /** A page is empty whatever the log holds exactly when its computed start is at or past the page size. */
  lemma PageEmptyIff(kind: string, page: Int64, size: Int64)
    requires page >= 1 && 1 <= size <= 100
    ensures (forall values :: PageOf(values, kind, page, size) == Some([])) <==> Skip(page, size) >= size
  {
    var skip := Skip(page, size);
    if skip < size {
      var e, q := SomeEvent(kind), Query(None, None, kind, size);
      var values := seq(size, _ => Some(e));
      AllMatch(q, e, size);
      assert Scanned(values, size) == values;
      assert |FoundFor(values, kind, size)| == size;
      assert PageOf(values, kind, page, size) != Some([]);
    }
  }

  lemma LaterPagesStartLate(page: int, size: int)
    requires page >= 2 && size >= 1
    ensures (page - 1) * size >= size
  {
  }

  /** As long as the product does not overflow, the first page is all there is. */
  lemma LaterPagesAreEmpty(values: seq<Option<Event>>, kind: string, page: Int64, size: Int64)
    requires page >= 1 && 1 <= size <= 100 && (page - 1) * size <= MAX_INT64
    ensures PageOf(values, kind, page, size) == Some(if page == 1 then FoundFor(values, kind, size) else [])
  {
    if page == 1 {
      assert Skip(page, size) == 0;
    } else {
      LaterPagesStartLate(page, size);
      assert Skip(page, size) == (page - 1) * size;
    }
  }

  /** Past that, a huge page number wraps: one shows the first page again, another makes the handler panic. */
  lemma HugePagesWrap(values: seq<Option<Event>>, kind: string)
    ensures PageOf(values, kind, 4611686018427387905, 4) == Some(FoundFor(values, kind, 4))
    ensures PageOf(values, kind, 4611686018427387905, 2) == None
  {
    assert Skip(4611686018427387905, 4) == 0;
    assert Skip(4611686018427387905, 2) == -MAX_INT64 - 1;
  }
}
