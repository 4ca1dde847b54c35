/**
 The token manager (internal/auth/jwt.go) over a key-value store with expiry
 (internal/auth/badger_store.go). Signatures are symbolic: a token is either signed with some
 key over its claims, or not a token at all. Clock readings are in nanoseconds; the exp claim
 (section 4.1.4 of RFC 7519) and the store's expiry are whole seconds, rounded down.
 The store itself is taken to be reliable.
 */
module Tokens {
  import opened Wrappers

  const SECOND := 1_000_000_000
  const ROOT_TOKEN_EXPIRY := 10 * 365 * 24 * 3600 * SECOND
  const JTI_PREFIX := "auth:jti:"
  const ROOT_TOKEN_KEY := "auth:root_token"

  function Seconds(t: int): int {
    t / SECOND
  }

  /** What the caller of GenerateTokenWithClaims chooses. */
  datatype Request = Request(subject: string, role: string, requiredCN: string, authMethod: string, ttl: int)

  datatype Claims = Claims(subject: string, role: string, requiredCN: string, authMethod: string,
                           issuedAt: int, expiresAt: int, id: string)

  datatype Token = Signed(key: int, claims: Claims) | Garbage(text: string)

  // ---- The store --------------------------------------------------------------

  datatype Value = Subject(s: string) | RootToken(t: Token)

  datatype Entry = Entry(value: Value, expiresAt: Option<int>)

  type Store = map<string, Entry>

  /** An entry is gone once its expiry second has begun. */
  function Get(store: Store, key: string, now: int): Option<Value> {
    if key in store && !(store[key].expiresAt.Some? && store[key].expiresAt.value <= Seconds(now))
    then Some(store[key].value) else None
  }

  /** Only a positive lifetime makes an entry expire. */
  function Put(store: Store, key: string, value: Value, ttl: int, now: int): Store {
    store[key := Entry(value, if ttl > 0 then Some(Seconds(now + ttl)) else None)]
  }

  function JtiKey(jti: string): string {
    JTI_PREFIX + jti
  }

  /** Token records never collide with each other or with the root token. */
  lemma KeysAreApart(a: string, b: string)
    ensures JtiKey(a) == JtiKey(b) ==> a == b
    ensures JtiKey(a) != ROOT_TOKEN_KEY
  {
    assert JtiKey(a)[|JTI_PREFIX|..] == a && JtiKey(b)[|JTI_PREFIX|..] == b;
    assert JtiKey(a)[5] == JTI_PREFIX[5] == 'j' && ROOT_TOKEN_KEY[5] == 'r';
  }

  // ---- The operations on values --------------------------------------------------

  function NewClaims(r: Request, now: int, jti: string): Claims {
    Claims(r.subject, r.role, r.requiredCN, r.authMethod, Seconds(now), Seconds(now + r.ttl), jti)
  }

  /** The signature, the expiry and the record must all hold. */
  function Validated(secret: int, store: Store, t: Token, now: int): Option<Claims> {
    if t.Signed? && t.key == secret && now < t.claims.expiresAt * SECOND && Get(store, JtiKey(t.claims.id), now).Some?
    then Some(t.claims) else None
  }

  function RootRequest(): Request {
    Request("root", "admin", "", "", ROOT_TOKEN_EXPIRY)
  }

  /**
   * The store after the first half of a rotation: the old root token is revoked if it still validates, and forgotten.
   */
  function Retired(secret: int, store: Store, now: int): Store {
    match Get(store, ROOT_TOKEN_KEY, now)
    case Some(RootToken(t)) =>
      var c := Validated(secret, store, t, now);
      (if c.Some? then store - {JtiKey(c.value.id)} else store) - {ROOT_TOKEN_KEY}
    case _ => store
  }

  // ---- Runs ------------------------------------------------------------------------

  /** The store and the clock, with the history of what was issued, revoked by id, and issued by rotation. */
  datatype State = State(store: Store, now: int, issued: map<string, Claims>, revoked: set<string>, roots: set<string>)

  /** delay is the time that passes between fixing the claims and writing the record. */
  datatype Action =
    | Issue(r: Request, jti: string, delay: nat)
    | Revoke(jti: string)
    | Rotate(jti: string, delay: nat)
    | Wait(time: nat)

  function AfterIssue(s: State, r: Request, jti: string, delay: nat): State {
    var later := s.now + delay;
    s.(store := Put(s.store, JtiKey(jti), Subject(r.subject), r.ttl, later), now := later,
       issued := s.issued[jti := NewClaims(r, s.now, jti)])
  }

  /** The id a rotation revokes, if any. */
  function RetiredId(secret: int, s: State): set<string> {
    match Get(s.store, ROOT_TOKEN_KEY, s.now)
    case Some(RootToken(t)) =>
      var c := Validated(secret, s.store, t, s.now);
      if c.Some? then {c.value.id} else {}
    case _ => {}
  }

  function AfterRotate(secret: int, s: State, jti: string, delay: nat): State {
    var t := AfterIssue(s.(store := Retired(secret, s.store, s.now), revoked := s.revoked + RetiredId(secret, s)),
                        RootRequest(), jti, delay);
    t.(store := Put(t.store, ROOT_TOKEN_KEY, RootToken(Signed(secret, t.issued[jti])), 0, t.now),
       roots := t.roots + {jti})
  }

  function Next(secret: int, s: State, a: Action): State {
    match a
    case Issue(r, jti, delay) => AfterIssue(s, r, jti, delay)
    case Revoke(jti) => s.(store := s.store - {JtiKey(jti)}, revoked := s.revoked + {jti})
    case Rotate(jti, delay) => AfterRotate(secret, s, jti, delay)
    case Wait(time) => s.(now := s.now + time)
  }

  /** Generated ids are fresh: never issued, never revoked before. */
  predicate Fresh(s: State, a: Action) {
    (a.Issue? || a.Rotate?) ==> a.jti !in s.issued && a.jti !in s.revoked
  }

  function Initial(now: int): State {
    State(map[], now, map[], {}, {})
  }

  function RunAll(secret: int, now: int, actions: seq<Action>): State {
    if actions == [] then Initial(now)
    else Next(secret, RunAll(secret, now, actions[..|actions| - 1]), actions[|actions| - 1])
  }

  ghost predicate Run(secret: int, now: int, actions: seq<Action>) {
    forall i :: 0 <= i < |actions| ==> Fresh(RunAll(secret, now, actions[..i]), actions[i])
  }

  // ---- What every run keeps ----------------------------------------------------------

  /** The record of jti is there exactly while jti is issued and not revoked, and outlives the token. */
  ghost predicate RecordMatches(s: State, jti: string) {
    && (JtiKey(jti) in s.store <==> jti in s.issued && jti !in s.revoked)
    && (JtiKey(jti) in s.store ==>
          s.store[JtiKey(jti)].expiresAt.None? || s.issued[jti].expiresAt <= s.store[JtiKey(jti)].expiresAt.value)
    && (jti in s.issued ==> s.issued[jti].id == jti)
  }

  /** The stored root token is the latest rotation's; all earlier ones are revoked or expired. */
  ghost predicate RootMatches(secret: int, s: State) {
    if s.roots == {} then ROOT_TOKEN_KEY !in s.store
    else
      && ROOT_TOKEN_KEY in s.store && s.store[ROOT_TOKEN_KEY].expiresAt.None?
      && exists j :: j in s.issued && s.store[ROOT_TOKEN_KEY].value == RootToken(Signed(secret, s.issued[j]))
           && forall k :: k in s.roots && k != j ==> Dead(s, k)
  }

  predicate Dead(s: State, jti: string) {
    jti in s.revoked || (jti in s.issued && s.issued[jti].expiresAt * SECOND <= s.now)
  }

  ghost predicate Inv(secret: int, s: State) {
    && (forall jti :: RecordMatches(s, jti))
    && s.roots <= s.issued.Keys
    && RootMatches(secret, s)
  }

  /** A token signed with the secret was issued: nobody else can sign. */
  predicate Unforged(secret: int, s: State, t: Token) {
    t.Signed? && t.key == secret ==> t.claims.id in s.issued && s.issued[t.claims.id] == t.claims
  }

  /** Exactly the issued, unexpired, unrevoked tokens validate; in particular the store's expiry never rejects early. */
  lemma ValidIff(secret: int, s: State, t: Token)
    requires Inv(secret, s) && Unforged(secret, s, t)
    ensures Validated(secret, s.store, t, s.now).Some? <==>
              t.Signed? && t.key == secret && s.now < t.claims.expiresAt * SECOND && t.claims.id !in s.revoked
  {
    if t.Signed? && t.key == secret {
      assert RecordMatches(s, t.claims.id);
    }
  }

  lemma IssueKeepsRecords(s: State, r: Request, jti: string, delay: nat)
    requires jti !in s.issued && jti !in s.revoked && forall k :: RecordMatches(s, k)
    ensures forall k :: RecordMatches(AfterIssue(s, r, jti, delay), k)
  {
    var t := AfterIssue(s, r, jti, delay);
    forall k ensures RecordMatches(t, k) {
      assert RecordMatches(s, k);
      KeysAreApart(k, jti);
      assert Seconds(s.now + r.ttl) <= Seconds(s.now + delay + r.ttl);
    }
  }

  lemma RevokeKeepsRecords(s: State, jti: string)
    requires forall k :: RecordMatches(s, k)
    ensures forall k :: RecordMatches(s.(store := s.store - {JtiKey(jti)}, revoked := s.revoked + {jti}), k)
  {
    var t := s.(store := s.store - {JtiKey(jti)}, revoked := s.revoked + {jti});
    forall k ensures RecordMatches(t, k) {
      assert RecordMatches(s, k);
      KeysAreApart(k, jti);
    }
  }

  lemma RootWriteKeepsRecords(s: State, t: State)
    requires t.issued == s.issued && t.revoked == s.revoked
    requires forall key :: key != ROOT_TOKEN_KEY ==> (key in t.store <==> key in s.store)
    requires forall key :: key != ROOT_TOKEN_KEY && key in s.store ==> t.store[key] == s.store[key]
    requires forall k :: RecordMatches(s, k)
    ensures forall k :: RecordMatches(t, k)
  {
    forall k ensures RecordMatches(t, k) {
      assert RecordMatches(s, k);
      KeysAreApart(k, k);
    }
  }

  /** The first half of a rotation: records stay exact, and every root token is dead. */
  lemma RetireKills(secret: int, s: State) returns (t: State)
    requires Inv(secret, s)
    ensures t == s.(store := Retired(secret, s.store, s.now), revoked := s.revoked + RetiredId(secret, s))
    ensures forall k :: RecordMatches(t, k)
    ensures forall k :: k in s.roots ==> Dead(t, k)
  {
    t := s.(store := Retired(secret, s.store, s.now), revoked := s.revoked + RetiredId(secret, s));
    if s.roots != {} {
      var j :| j in s.issued && s.store[ROOT_TOKEN_KEY].value == RootToken(Signed(secret, s.issued[j]))
               && forall k :: k in s.roots && k != j ==> Dead(s, k);
      assert RecordMatches(s, j);
      ValidIff(secret, s, Signed(secret, s.issued[j]));
      var mid := s;
      if Validated(secret, s.store, Signed(secret, s.issued[j]), s.now).Some? {
        RevokeKeepsRecords(s, j);
        mid := s.(store := s.store - {JtiKey(j)}, revoked := s.revoked + {j});
      }
      RootWriteKeepsRecords(mid, t);
    } else {
      assert t.revoked == s.revoked;
      assert t == s;
    }
  }

  lemma RotateKeepsInv(secret: int, s: State, jti: string, delay: nat)
    requires Inv(secret, s) && jti !in s.issued && jti !in s.revoked
    requires jti !in RetiredId(secret, s)
    ensures Inv(secret, AfterRotate(secret, s, jti, delay))
  {
    var retired := RetireKills(secret, s);
    IssueKeepsRecords(retired, RootRequest(), jti, delay);
    var t := AfterIssue(retired, RootRequest(), jti, delay);
    var u := AfterRotate(secret, s, jti, delay);
    RootWriteKeepsRecords(t, u);
    assert u.store[ROOT_TOKEN_KEY].value == RootToken(Signed(secret, u.issued[jti]));
    forall k | k in u.roots && k != jti ensures Dead(u, k) {
      assert Dead(retired, k);
    }
  }

  /** A rotation revokes an issued id, so never the fresh one it is about to use. */
  lemma RetiredWasIssued(secret: int, s: State)
    requires Inv(secret, s)
    ensures RetiredId(secret, s) <= s.issued.Keys
  {
    if s.roots != {} {
      var j :| j in s.issued && s.store[ROOT_TOKEN_KEY].value == RootToken(Signed(secret, s.issued[j]))
               && forall k :: k in s.roots && k != j ==> Dead(s, k);
      assert RecordMatches(s, j);
    }
  }

  lemma RootStays(secret: int, s: State, t: State)
    requires Inv(secret, s) && t.roots == s.roots && s.now <= t.now && s.revoked <= t.revoked
    requires ROOT_TOKEN_KEY in t.store <==> ROOT_TOKEN_KEY in s.store
    requires ROOT_TOKEN_KEY in s.store ==> t.store[ROOT_TOKEN_KEY] == s.store[ROOT_TOKEN_KEY]
    requires forall j :: j in s.issued ==> j in t.issued && t.issued[j] == s.issued[j]
    ensures RootMatches(secret, t)
  {
    if s.roots != {} {
      var j :| j in s.issued && s.store[ROOT_TOKEN_KEY].value == RootToken(Signed(secret, s.issued[j]))
               && forall k :: k in s.roots && k != j ==> Dead(s, k);
      forall k | k in t.roots && k != j ensures Dead(t, k) {
        assert Dead(s, k);
      }
    }
  }

  lemma NextKeepsInv(secret: int, s: State, a: Action)
    requires Inv(secret, s) && Fresh(s, a)
    ensures Inv(secret, Next(secret, s, a))
  {
    var t := Next(secret, s, a);
    match a
    case Issue(r, jti, delay) =>
      IssueKeepsRecords(s, r, jti, delay);
      KeysAreApart(jti, jti);
      RootStays(secret, s, t);
    case Revoke(jti) =>
      RevokeKeepsRecords(s, jti);
      KeysAreApart(jti, jti);
      RootStays(secret, s, t);
    case Rotate(jti, delay) =>
      RetiredWasIssued(secret, s);
      RotateKeepsInv(secret, s, jti, delay);
    case Wait(time) =>
      RootStays(secret, s, t);
      forall k ensures RecordMatches(t, k) {
        assert RecordMatches(s, k);
      }
  }

  lemma {:induction false} RunKeepsInv(secret: int, now: int, actions: seq<Action>)
    requires Run(secret, now, actions)
    ensures Inv(secret, RunAll(secret, now, actions))
    decreases |actions|
  {
    if actions == [] {
    } else {
      var n := |actions| - 1;
      var front := actions[..n];
      forall i | 0 <= i < n ensures Fresh(RunAll(secret, now, front[..i]), front[i]) {
        assert front[..i] == actions[..i];
        assert Fresh(RunAll(secret, now, actions[..i]), actions[i]);
      }
      RunKeepsInv(secret, now, front);
      NextKeepsInv(secret, RunAll(secret, now, front), actions[n]);
    }
  }

  /** In every run a token validates exactly when it was issued, has not expired and was never revoked. */
  lemma ValidInEveryRun(secret: int, now: int, actions: seq<Action>, t: Token)
    requires Run(secret, now, actions) && Unforged(secret, RunAll(secret, now, actions), t)
    ensures var s := RunAll(secret, now, actions);
            Validated(secret, s.store, t, s.now).Some? <==>
              t.Signed? && t.key == secret && s.now < t.claims.expiresAt * SECOND && t.claims.id !in s.revoked
  {
    RunKeepsInv(secret, now, actions);
    ValidIff(secret, RunAll(secret, now, actions), t);
  }

  /** At most one token issued by rotation is accepted at any time: a restart invalidates the previous root token. */
  lemma OneLiveRoot(secret: int, now: int, actions: seq<Action>, a: string, b: string)
    requires Run(secret, now, actions)
    requires var s := RunAll(secret, now, actions);
             && a in s.roots && b in s.roots && a in s.issued && b in s.issued
             && Validated(secret, s.store, Signed(secret, s.issued[a]), s.now).Some?
             && Validated(secret, s.store, Signed(secret, s.issued[b]), s.now).Some?
    ensures a == b
  {
    RunKeepsInv(secret, now, actions);
    var s := RunAll(secret, now, actions);
    assert RecordMatches(s, a) && RecordMatches(s, b);
    ValidIff(secret, s, Signed(secret, s.issued[a]));
    ValidIff(secret, s, Signed(secret, s.issued[b]));
  }

  /** Whatever an action does, an issued token that does not validate before it does not validate after it. */
  lemma InvalidStaysInvalid(secret: int, s: State, a: Action, t: Token)
    requires Inv(secret, s) && Fresh(s, a) && t.Signed? && t.claims.id in s.issued && s.issued[t.claims.id] == t.claims
    requires Validated(secret, s.store, t, s.now).None?
    ensures var s' := Next(secret, s, a); Validated(secret, s'.store, t, s'.now).None?
  {
    NextKeepsInv(secret, s, a);
    var s' := Next(secret, s, a);
    assert s'.issued[t.claims.id] == t.claims;
    ValidIff(secret, s, t);
    ValidIff(secret, s', t);
  }

  // ---- The manager --------------------------------------------------------------------

  /** Issued under the secret, not expired and not revoked. */
  ghost predicate Live(secret: int, s: State, t: Token) {
    && t.Signed? && t.key == secret && t.claims.id in s.issued && s.issued[t.claims.id] == t.claims
    && s.now < t.claims.expiresAt * SECOND && t.claims.id !in s.revoked
  }

  lemma LiveIffValidated(secret: int, s: State, t: Token)
    requires Inv(secret, s) && Unforged(secret, s, t)
    ensures Validated(secret, s.store, t, s.now).Some? <==> Live(secret, s, t)
  {
    ValidIff(secret, s, t);
  }

  /** No other token that a rotation issued is alive. */
  ghost predicate OnlyRoot(secret: int, s: State, t: Token) {
    forall u :: Live(secret, s, u) && u.claims.id in s.roots ==> u == t
  }

  lemma RotationLeavesOneRoot(secret: int, s: State, jti: string, delay: nat)
    requires Inv(secret, s) && Fresh(s, Rotate(jti, delay))
    ensures OnlyRoot(secret, Next(secret, s, Rotate(jti, delay)), Signed(secret, NewClaims(RootRequest(), s.now, jti)))
  {
    NextKeepsInv(secret, s, Rotate(jti, delay));
    var t := Next(secret, s, Rotate(jti, delay));
    var j :| j in t.issued && t.store[ROOT_TOKEN_KEY].value == RootToken(Signed(secret, t.issued[j]))
             && forall k :: k in t.roots && k != j ==> Dead(t, k);
    assert RecordMatches(t, j) && RecordMatches(t, jti);
    assert t.issued[j] == t.issued[jti];
  }

  /** The end of a root token issued at this time: ten years later, cut to a whole second. */
  ghost function TenYearsAfter(time: int): int {
    (time + 10 * 365 * 24 * 3600 * 1_000_000_000) / 1_000_000_000 * 1_000_000_000
  }

  /** A rotated token of the administrator is accepted for ten years, unless it is revoked or rotated again. */
  lemma RootLastsTenYears(secret: int, s: State, jti: string, delay: nat, time: nat)
    requires Inv(secret, s) && Fresh(s, Rotate(jti, delay))
    ensures var s' := Next(secret, Next(secret, s, Rotate(jti, delay)), Wait(time));
            && jti in s'.issued && s'.issued[jti].subject == "root" && s'.issued[jti].role == "admin"
            && (Validated(secret, s'.store, Signed(secret, s'.issued[jti]), s'.now).Some? <==>
                  s.now + delay + time < TenYearsAfter(s.now))
  {
    NextKeepsInv(secret, s, Rotate(jti, delay));
    RetiredWasIssued(secret, s);
    var rotated := Next(secret, s, Rotate(jti, delay));
    NextKeepsInv(secret, rotated, Wait(time));
    var s' := Next(secret, rotated, Wait(time));
    ValidIff(secret, s', Signed(secret, s'.issued[jti]));
  }

  class TokenManager {
    const secret: int
    var store: Store
    var now: int
    ghost var history: State

    ghost predicate Valid()
      reads this
    {
      history.store == store && history.now == now && Inv(secret, history)
    }

    constructor (key: int, clock: int)
      ensures Valid() && secret == key && history == Initial(clock)
    {
      secret, store, now := key, map[], clock;
      history := Initial(clock);
    }

    method Pass(time: nat)
      requires Valid()
      modifies this
      ensures Valid() && history == Next(secret, old(history), Wait(time))
    {
      NextKeepsInv(secret, history, Wait(time));
      now := now + time;
      history := Next(secret, history, Wait(time));
    }

    /** Sign new claims and record their id; the record is written `delay` after the claims are fixed. */
    method IssueRecord(r: Request, delay: nat, jti: string) returns (t: Token)
      modifies this`store, this`now
      ensures t == Signed(secret, NewClaims(r, old(now), jti)) && now == old(now) + delay
      ensures store == Put(old(store), JtiKey(jti), Subject(r.subject), r.ttl, now)
    {
      t := Signed(secret, NewClaims(r, now, jti));
      now := now + delay;
      store := Put(store, JtiKey(jti), Subject(r.subject), r.ttl, now);
    }

    /** The new token lives until its exp claim, unless revoked; no other token is affected. */
    method GenerateTokenWithClaims(r: Request, delay: nat, jti: string) returns (t: Token)
      requires Valid() && Fresh(history, Issue(r, jti, delay))
      modifies this
      ensures Valid() && history == Next(secret, old(history), Issue(r, jti, delay))
      ensures t.Signed? && t.key == secret && t.claims.id == jti
      ensures t.claims.subject == r.subject && t.claims.role == r.role
      ensures t.claims.requiredCN == r.requiredCN && t.claims.authMethod == r.authMethod
      ensures t.claims.issuedAt == old(now) / 1_000_000_000
      ensures t.claims.expiresAt == (old(now) + r.ttl) / 1_000_000_000
      ensures Live(secret, history, t) <==> now < t.claims.expiresAt * 1_000_000_000
      ensures forall u: Token :: u.Signed? && u.claims.id != jti ==>
        (Live(secret, history, u) <==> Live(secret, old(history).(now := now), u))
    {
      NextKeepsInv(secret, history, Issue(r, jti, delay));
      t := IssueRecord(r, delay, jti);
      history := Next(secret, history, Issue(r, jti, delay));
    }

    method Check(t: Token) returns (c: Option<Claims>)
      ensures c == Validated(secret, store, t, now)
    {
      if t.Garbage? || t.key != secret || now >= t.claims.expiresAt * SECOND {
        return None;
      }
      if Get(store, JtiKey(t.claims.id), now).None? {
        return None;
      }
      c := Some(t.claims);
    }

    /**
     * A token is accepted exactly when it was issued, has not expired and was never revoked; the caller then gets its
     * claims.
     */
    method ValidateToken(t: Token) returns (c: Option<Claims>)
      requires Valid() && Unforged(secret, history, t)
      ensures c.Some? <==> Live(secret, history, t)
      ensures c.Some? ==> c.value == t.claims
    {
      LiveIffValidated(secret, history, t);
      c := Check(t);
    }

    /** Exactly the tokens with this id die, and for good. */
    method RevokeToken(jti: string)
      requires Valid()
      modifies this
      ensures Valid() && history == Next(secret, old(history), Revoke(jti))
      ensures forall u :: Live(secret, history, u) <==> Live(secret, old(history), u) && u.claims.id != jti
    {
      NextKeepsInv(secret, history, Revoke(jti));
      store := store - {JtiKey(jti)};
      history := Next(secret, history, Revoke(jti));
    }

    /** Drop the record of the old root token if it still validates, forget it, and store a new one. */
    method ReplaceRoot(delay: nat, jti: string) returns (t: Token)
      modifies this`store, this`now
      ensures t == Signed(secret, NewClaims(RootRequest(), old(now), jti)) && now == old(now) + delay
      ensures store ==
        Put(Put(Retired(secret, old(store), old(now)), JtiKey(jti), Subject("root"), ROOT_TOKEN_EXPIRY, now),
                           ROOT_TOKEN_KEY, RootToken(t), 0, now)
    {
      var existing := Get(store, ROOT_TOKEN_KEY, now);
      if existing.Some? && existing.value.RootToken? {
        var claims := Check(existing.value.t);
        if claims.Some? {
          store := store - {JtiKey(claims.value.id)};
        }
        store := store - {ROOT_TOKEN_KEY};
      }
      t := IssueRecord(RootRequest(), delay, jti);
      store := Put(store, ROOT_TOKEN_KEY, RootToken(t), 0, now);
    }

    /** Whatever root tokens there were, the new one is the only one left alive. */
    method RotateRootToken(delay: nat, jti: string) returns (t: Token)
      requires Valid() && Fresh(history, Rotate(jti, delay))
      modifies this
      ensures Valid() && history == Next(secret, old(history), Rotate(jti, delay))
      ensures OnlyRoot(secret, history, t) && Unforged(secret, history, t)
      ensures t.Signed? && t.claims.subject == "root" && t.claims.role == "admin"
      ensures t.claims.requiredCN == "" && t.claims.authMethod == "" && t.claims.id == jti
      ensures Live(secret, history, t) <==> now < TenYearsAfter(old(now))
      ensures delay <= (10 * 365 * 24 * 3600 - 1) * 1_000_000_000 ==> Live(secret, history, t)
    {
      NextKeepsInv(secret, history, Rotate(jti, delay));
      RotationLeavesOneRoot(secret, history, jti, delay);
      RetiredWasIssued(secret, history);
      t := ReplaceRoot(delay, jti);
      history := Next(secret, history, Rotate(jti, delay));
    }
  }
}
