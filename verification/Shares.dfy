/**
 The access decision (internal/authz/authz.go), share validation and matching
 (internal/authz/share.go) and the share list of a resource as the create and revoke
 handlers change it (internal/api/handlers_shares.go). The allow-lists for node and service
 principals are parameters.
 */
module Shares {
  import opened Wrappers
  import opened Text

  datatype Kind = User | Operator | Node | Service | Job | Anonymous | OtherKind(name: string)

  datatype Principal = Principal(id: string, kind: Kind, displayName: string, role: string, groups: seq<string>)

  datatype Action = Read | List | Write | Cancel | Delete | Reveal | Admin | OtherAction(name: string)

  datatype ResourceKind =
    JobResource | WorkflowResource | DatasetResource | ModelResource | ServiceResource | SystemResource

  datatype Share = Share(grantee: string, actions: seq<Action>, grantedBy: string, grantedAt: int)

  datatype Resource = Resource(kind: ResourceKind, id: string, owner: string, workflowId: string, shares: seq<Share>)

  datatype Rules = Rules(nodeAllowed: (Action, ResourceKind) -> bool,
                         serviceAllowed: (string, Action, ResourceKind) -> bool)

  datatype DenyCode =
    | NilPrincipal | NilResource | AnonymousDenied | AdminRequired | LegacyOwner
    | NodeNotAllowed | ServiceNotAllowed | JobScopeMismatch | NotOwner | UnknownKind

  datatype Decision = Permit | Deny(code: DenyCode)

  const LEGACY_OWNER := "legacy:"
  const MAX_SHARES := 32

  predicate IsAdmin(p: Principal) {
    (p.kind.User? || p.kind.Operator?) && p.role == "admin"
  }

  /** Named directly, or through a group the principal is in. */
  predicate MatchesGrantee(p: Principal, grantee: string) {
    grantee != "" && (p.id == grantee || (HasPrefix(grantee, "group:") && grantee[6..] in p.groups))
  }

  predicate Grants(s: Share, p: Principal, a: Action) {
    MatchesGrantee(p, s.grantee) && a in s.actions
  }

  predicate SharedWith(shares: seq<Share>, p: Principal, a: Action) {
    exists s :: s in shares && Grants(s, p, a)
  }

  function Allow(rules: Rules, principal: Option<Principal>, a: Action, resource: Option<Resource>): Decision {
    if principal.None? then Deny(NilPrincipal)
    else if resource.None? then Deny(NilResource)
    else
      var p, res := principal.value, resource.value;
      if IsAdmin(p) then Permit
      else if p.kind.Anonymous? then Deny(AnonymousDenied)
      else if res.kind.SystemResource? then Deny(AdminRequired)
      else if res.owner == LEGACY_OWNER then Deny(LegacyOwner)
      else match p.kind
        case Node => if rules.nodeAllowed(a, res.kind) then Permit else Deny(NodeNotAllowed)
        case Service => if rules.serviceAllowed(p.displayName, a, res.kind) then Permit else Deny(ServiceNotAllowed)
        case Job =>
          if !res.kind.JobResource? || res.workflowId == "" || res.workflowId != p.displayName || (!a.Read? && !a.List?)
          then Deny(JobScopeMismatch) else Permit
        case _ =>
          if !(p.kind.User? || p.kind.Operator?) then Deny(UnknownKind)
          else if res.owner == "" then Deny(NotOwner)
          else if p.id == res.owner then Permit
          else if SharedWith(res.shares, p, a) then Permit
          else Deny(NotOwner)
  }

  /** A grantee names a principal by its id or one of its groups. */
  ghost predicate Names(grantee: string, p: Principal) {
    (grantee != "" && grantee == p.id) || exists g :: g in p.groups && grantee == "group:" + g
  }

  lemma MatchesIff(p: Principal, grantee: string)
    ensures MatchesGrantee(p, grantee) <==> Names(grantee, p)
  {
    if HasPrefix(grantee, "group:") {
      assert grantee == "group:" + grantee[6..];
    }
    forall g | g in p.groups && grantee == "group:" + g ensures grantee[..6] == "group:" && grantee[6..] == g {
    }
  }

  /** Some share names the principal and lists the action. */
  ghost predicate Granted(shares: seq<Share>, p: Principal, a: Action) {
    exists s :: s in shares && Names(s.grantee, p) && a in s.actions
  }

  lemma SharedIff(shares: seq<Share>, p: Principal, a: Action)
    ensures SharedWith(shares, p, a) <==> Granted(shares, p, a)
  {
    forall s | s in shares ensures Grants(s, p, a) <==> Names(s.grantee, p) && a in s.actions {
      MatchesIff(p, s.grantee);
    }
  }

  /** The grounds on which an ordinary resource may be accessed by someone who is not an admin. */
  ghost predicate HasGround(rules: Rules, p: Principal, a: Action, res: Resource) {
    || (p.kind.Node? && rules.nodeAllowed(a, res.kind))
    || (p.kind.Service? && rules.serviceAllowed(p.displayName, a, res.kind))
    || (p.kind.Job? && res.kind.JobResource? && a in [Read, List] && res.workflowId == p.displayName != "")
    || ((p.kind.User? || p.kind.Operator?) && res.owner != "" && (p.id == res.owner || Granted(res.shares, p, a)))
  }

  /**
   * Access is granted to admins, and to others exactly on one of the grounds and never on a system or legacy resource.
   */
  lemma AccessIff(rules: Rules, p: Principal, a: Action, res: Resource)
    ensures Allow(rules, Some(p), a, Some(res)).Permit? <==>
              || ((p.kind.User? || p.kind.Operator?) && p.role == "admin")
              || (!res.kind.SystemResource? && res.owner != "legacy:" && HasGround(rules, p, a, res))
  {
    SharedIff(res.shares, p, a);
  }

  /** Why access is denied to someone who is neither an admin nor anonymous, on an ordinary resource. */
  lemma DenialIff(rules: Rules, p: Principal, a: Action, res: Resource)
    requires !((p.kind.User? || p.kind.Operator?) && p.role == "admin")
    ensures var d := Allow(rules, Some(p), a, Some(res));
            && (d == Deny(AnonymousDenied) <==> p.kind.Anonymous?)
            && (d == Deny(AdminRequired) <==> !p.kind.Anonymous? && res.kind.SystemResource?)
            && (d == Deny(LegacyOwner) <==> !p.kind.Anonymous? && !res.kind.SystemResource? && res.owner == "legacy:")
            && (d.Deny? && !p.kind.Anonymous? && !res.kind.SystemResource? && res.owner != "legacy:" ==>
                  && (d.code == NodeNotAllowed <==> p.kind.Node?) && (d.code == ServiceNotAllowed <==> p.kind.Service?)
                  && (d.code == JobScopeMismatch <==> p.kind.Job?) && (d.code == UnknownKind <==> p.kind.OtherKind?)
                  && (d.code == NotOwner <==> p.kind.User? || p.kind.Operator?))
    ensures Allow(rules, None, a, Some(res)) == Deny(NilPrincipal)
    ensures Allow(rules, Some(p), a, None) == Deny(NilResource)
  {
  }

  // ---- ValidateShare ----------------------------------------------------------

  predicate KnownKind(kind: string) {
    kind in {"user", "operator", "group", "service", "job"}
  }

  predicate Validates(s: Share) {
    var colon := IndexOf(s.grantee, ':');
    && s.grantee != "" && s.grantee != "anonymous"
    && colon > 0 && colon != |s.grantee| - 1
    && KnownKind(s.grantee[..colon])
    && s.actions != []
    && forall a :: a in s.actions ==> !a.OtherAction? && !a.Admin?
  }

  predicate Spells(grantee: string, kind: string, subject: string) {
    grantee == kind + ":" + subject
  }

  lemma KnownKindsHaveNoColon(kind: string)
    requires KnownKind(kind)
    ensures ':' !in kind && kind != ""
  {
    assert ':' !in "user" && ':' !in "operator" && ':' !in "group" && ':' !in "service" && ':' !in "job";
  }

  lemma FirstColon(grantee: string, kind: string, subject: string)
    requires KnownKind(kind) && Spells(grantee, kind, subject)
    ensures 0 < |kind| == IndexOf(grantee, ':') && grantee[..|kind|] == kind && grantee != "anonymous"
  {
    KnownKindsHaveNoColon(kind);
    IndexOfJoin(kind, ':', subject);
    assert grantee == kind + [':'] + subject;
    assert grantee[|kind|] == ':';
    assert ':' !in "anonymous";
  }

  /** Validation accepts exactly kind:subject grantees of the five kinds, with known actions other than admin. */
  lemma ValidatesIff(s: Share)
    ensures Validates(s) <==>
              && (exists kind, subject :: kind in {"user", "operator", "group", "service", "job"} && subject != ""
                                          && Spells(s.grantee, kind, subject))
              && s.actions != [] && forall a :: a in s.actions ==> a in {Read, List, Write, Cancel, Delete, Reveal}
  {
    var g := s.grantee;
    var colon := IndexOf(g, ':');
    if colon > 0 && colon != |g| - 1 && KnownKind(g[..colon]) {
      assert Spells(g, g[..colon], g[colon + 1..]);
    }
    forall kind, subject | KnownKind(kind) && subject != "" && Spells(g, kind, subject)
      ensures g != "anonymous" && 0 < |kind| == colon < |g| - 1 && g[..colon] == kind
    {
      FirstColon(g, kind, subject);
    }
  }

  // ---- The share list -----------------------------------------------------------

  predicate IsOwnerOrAdmin(p: Principal, owner: string) {
    IsAdmin(p) || (owner != "" && p.id == owner)
  }

  /** Replace the share of the same grantee, or append. */
  function Merged(shares: seq<Share>, s: Share): seq<Share> {
    if shares == [] then [s]
    else if shares[0].grantee == s.grantee then [s] + shares[1..]
    else [shares[0]] + Merged(shares[1..], s)
  }

  function Without(shares: seq<Share>, grantee: string): seq<Share> {
    if shares == [] then []
    else (if shares[0].grantee == grantee then [] else [shares[0]]) + Without(shares[1..], grantee)
  }

  predicate HasGrantee(shares: seq<Share>, grantee: string) {
    exists s :: s in shares && s.grantee == grantee
  }

  /** Who may change the share list of a resource. */
  ghost predicate Manages(caller: Principal, owner: string) {
    || ((caller.kind.User? || caller.kind.Operator?) && caller.role == "admin")
    || (owner != "" && caller.id == owner)
  }

  lemma {:induction false} MergedLength(shares: seq<Share>, s: Share)
    ensures |Merged(shares, s)| == |shares| + if HasGrantee(shares, s.grantee) then 0 else 1
    decreases |shares|
  {
    if shares != [] {
      MergedLength(shares[1..], s);
      assert shares == [shares[0]] + shares[1..];
    }
  }

  datatype Operation = Create(caller: Principal, share: Share) | Revoke(caller: Principal, grantee: string)

  predicate Accepted(owner: string, shares: seq<Share>, op: Operation) {
    match op
    case Create(caller, s) => Validates(s) && IsOwnerOrAdmin(caller, owner) && |Merged(shares, s)| <= MAX_SHARES
    case Revoke(caller, grantee) => grantee != "" && IsOwnerOrAdmin(caller, owner)
  }

  /** The list an accepted request asks for; a refused one asks for nothing new. */
  function After(owner: string, shares: seq<Share>, op: Operation): seq<Share> {
    if !Accepted(owner, shares, op) then shares
    else match op
      case Create(_, s) => Merged(shares, s)
      case Revoke(_, grantee) => Without(shares, grantee)
  }

  /** The list that decisions are made on, and the one that survives a restart. */
  datatype Lists = Lists(memory: seq<Share>, disk: seq<Share>)

  /** A request with the outcome of its save, a later save of the same record, or a restart of the coordinator. */
  datatype Event = Request(op: Operation, saved: bool) | Resave | Restart

  /**
   Jobs and workflows are cached in memory: the list changes there before it is saved and is
   not put back when saving fails. Datasets and models live on disk only.
   */
  function Step(cached: bool, owner: string, l: Lists, e: Event): Lists {
    match e
    case Request(op, saved) =>
      if !Accepted(owner, l.memory, op) then l
      else
        var next := After(owner, l.memory, op);
        if saved then Lists(next, next) else if cached then Lists(next, l.disk) else l
    case Resave => Lists(l.memory, l.memory)
    case Restart => Lists(l.disk, l.disk)
  }

  function ListsAfter(cached: bool, owner: string, events: seq<Event>): Lists {
    if events == [] then Lists([], [])
    else Step(cached, owner, ListsAfter(cached, owner, events[..|events| - 1]), events[|events| - 1])
  }

  function Target(op: Operation): string {
    match op
    case Create(_, s) => s.grantee
    case Revoke(_, grantee) => grantee
  }

  /** The merge overwrites the first share of the grantee, or appends. */
  lemma {:induction false} MergedAt(shares: seq<Share>, s: Share, i: nat)
    requires i <= |shares| && (i < |shares| ==> shares[i].grantee == s.grantee)
    requires forall k :: 0 <= k < i ==> shares[k].grantee != s.grantee
    ensures Merged(shares, s) == if i < |shares| then shares[i := s] else shares + [s]
    decreases |shares|
  {
    if shares == [] {
    } else if i == 0 {
      assert shares[0 := s] == [s] + shares[1..];
    } else {
      MergedAt(shares[1..], s, i - 1);
    }
  }

  class ShareList {
    const cached: bool
    const owner: string
    var shares: seq<Share>
    var disk: seq<Share>

    constructor (c: bool, o: string)
      ensures cached == c && owner == o && shares == disk == []
    {
      cached, owner, shares, disk := c, o, [], [];
    }

    /** mergeShares: overwrite in place, or append. */
    method Merge(s: Share)
      modifies this`shares
      ensures shares == Merged(old(shares), s)
    {
      for i := 0 to |shares|
        invariant shares == old(shares) && forall k :: 0 <= k < i ==> shares[k].grantee != s.grantee
      {
        if shares[i].grantee == s.grantee {
          MergedAt(shares, s, i);
          shares := shares[i := s];
          return;
        }
      }
      MergedAt(shares, s, |shares|);
      shares := shares + [s];
    }

    /** The store's update of the list: what is cached has changed already when the save fails. */
    method Save(existing: seq<Share>, saved: bool)
      modifies this
      ensures shares == if saved || cached then old(shares) else existing
      ensures disk == if saved then old(shares) else old(disk)
    {
      if saved {
        disk := shares;
      } else if !cached {
        shares := existing;
      }
    }

    /** Succeeds only when the save does, but an unsaved change of a cached record stays in force. */
    method CreateShare(caller: Principal, s: Share, saved: bool) returns (ok: bool)
      modifies this
      ensures Lists(shares, disk) == Step(cached, owner, old(Lists(shares, disk)), Request(Create(caller, s), saved))
      ensures ok <==> && Validates(s) && Manages(caller, owner) && saved
                      && |old(shares)| + (if HasGrantee(old(shares), s.grantee) then 0 else 1) <= 32
      ensures !Manages(caller, owner) ==> shares == old(shares) && disk == old(disk)
    {
      MergedLength(shares, s);
      if !Validates(s) || !IsOwnerOrAdmin(caller, owner) {
        return false;
      }
      var existing := shares;
      Merge(s);
      if |shares| > MAX_SHARES {
        shares := existing;
        return false;
      }
      Save(existing, saved);
      ok := saved;
    }

    method RevokeShare(caller: Principal, grantee: string, saved: bool) returns (ok: bool)
      modifies this
      ensures Lists(shares, disk) ==
        Step(cached, owner, old(Lists(shares, disk)), Request(Revoke(caller, grantee), saved))
      ensures ok <==> grantee != "" && Manages(caller, owner) && saved
      ensures !Manages(caller, owner) ==> shares == old(shares) && disk == old(disk)
    {
      if grantee == "" || !IsOwnerOrAdmin(caller, owner) {
        return false;
      }
      var existing := shares;
      var trimmed: seq<Share> := [];
      for i := 0 to |shares|
        invariant trimmed + Without(shares[i..], grantee) == Without(shares, grantee)
      {
        assert shares[i..][1..] == shares[i + 1..];
        if shares[i].grantee != grantee {
          trimmed := trimmed + [shares[i]];
        }
      }
      shares := trimmed;
      Save(existing, saved);
      ok := saved;
    }
  }

  // ---- What every history of requests keeps ----------------------------------------

  ghost predicate Distinct(shares: seq<Share>) {
    forall i, k :: 0 <= i < k < |shares| ==> shares[i].grantee != shares[k].grantee
  }

  ghost predicate Sound(shares: seq<Share>) {
    Distinct(shares) && |shares| <= 32 && forall s :: s in shares ==> Validates(s)
  }

  lemma {:induction false} MergedMembers(shares: seq<Share>, s: Share)
    requires Distinct(shares)
    ensures Distinct(Merged(shares, s))
    ensures forall x :: x in Merged(shares, s) <==> x == s || (x in shares && x.grantee != s.grantee)
    ensures |Merged(shares, s)| == |shares| + (if HasGrantee(shares, s.grantee) then 0 else 1)
    decreases |shares|
  {
    if shares == [] {
    } else {
      var first, rest := shares[0], shares[1..];
      assert shares == [first] + rest && first in shares;
      if first.grantee == s.grantee {
        forall x | x in rest ensures x.grantee != s.grantee {
        }
      } else {
        MergedMembers(rest, s);
        assert HasGrantee(shares, s.grantee) <==> HasGrantee(rest, s.grantee);
        var m := Merged(rest, s);
        forall k | 0 <= k < |m| ensures m[k].grantee != first.grantee {
          assert m[k] in m;
        }
      }
    }
  }

  lemma {:induction false} WithoutMembers(shares: seq<Share>, grantee: string)
    ensures forall x :: x in Without(shares, grantee) <==> x in shares && x.grantee != grantee
    ensures Distinct(shares) ==> Distinct(Without(shares, grantee))
    ensures |Without(shares, grantee)| <= |shares|
    decreases |shares|
  {
    if shares == [] {
    } else {
      var first, rest := shares[0], shares[1..];
      assert shares == [first] + rest;
      WithoutMembers(rest, grantee);
      var w := Without(rest, grantee);
      if Distinct(shares) {
        forall k | 0 <= k < |w| ensures w[k].grantee != first.grantee {
          assert w[k] in w;
        }
      }
    }
  }

  lemma RequestKeepsSound(owner: string, shares: seq<Share>, op: Operation)
    requires Sound(shares)
    ensures Sound(After(owner, shares, op))
  {
    match op
    case Create(caller, s) => MergedMembers(shares, s);
    case Revoke(caller, grantee) => WithoutMembers(shares, grantee);
  }

  /**
   * In memory and on disk, grantees stay distinct, shares valid and the list within its cap, whoever asks for what and
   * whichever saves fail.
   */
  lemma {:induction false} HistoryIsSound(cached: bool, owner: string, events: seq<Event>)
    ensures Sound(ListsAfter(cached, owner, events).memory) && Sound(ListsAfter(cached, owner, events).disk)
    decreases |events|
  {
    if events == [] {
    } else {
      var n := |events| - 1;
      HistoryIsSound(cached, owner, events[..n]);
      if events[n].Request? {
        RequestKeepsSound(owner, ListsAfter(cached, owner, events[..n]).memory, events[n].op);
      }
    }
  }

  // ---- Where shares come from ----------------------------------------------------

  ghost predicate CreatedBy(owner: string, events: seq<Event>, s: Share, i: nat) {
    && i < |events| && events[i].Request? && events[i].op.Create? && events[i].op.share == s
    && Manages(events[i].op.caller, owner) && Validates(s)
  }

  ghost predicate WasCreated(owner: string, events: seq<Event>, s: Share) {
    exists i :: CreatedBy(owner, events, s, i)
  }

  lemma CreatedStays(owner: string, events: seq<Event>, s: Share)
    requires events != [] && WasCreated(owner, events[..|events| - 1], s)
    ensures WasCreated(owner, events, s)
  {
    var i :| CreatedBy(owner, events[..|events| - 1], s, i);
    assert CreatedBy(owner, events, s, i);
  }

  /** A request adds at most the share it creates. */
  lemma RequestAddsItsShare(owner: string, shares: seq<Share>, op: Operation, s: Share)
    requires Distinct(shares) && s in After(owner, shares, op)
    ensures s in shares || (op.Create? && op.share == s && Manages(op.caller, owner) && Validates(s))
  {
    match op
    case Create(caller, created) => MergedMembers(shares, created);
    case Revoke(caller, grantee) => WithoutMembers(shares, grantee);
  }

  /** Every share in memory or on disk was created, in this very form, by the owner or an admin. */
  lemma {:induction false} SharesComeFromManagers(cached: bool, owner: string, events: seq<Event>, s: Share)
    requires s in ListsAfter(cached, owner, events).memory || s in ListsAfter(cached, owner, events).disk
    ensures WasCreated(owner, events, s)
    decreases |events|
  {
    var n := |events| - 1;
    var before := ListsAfter(cached, owner, events[..n]);
    if s in before.memory || s in before.disk {
      SharesComeFromManagers(cached, owner, events[..n], s);
      CreatedStays(owner, events, s);
    } else {
      HistoryIsSound(cached, owner, events[..n]);
      RequestAddsItsShare(owner, before.memory, events[n].op, s);
      assert CreatedBy(owner, events, s, n);
    }
  }

  /** As long as nobody but strangers asks, there is nothing to share. */
  lemma StrangersChangeNothing(cached: bool, owner: string, events: seq<Event>)
    requires forall i :: 0 <= i < |events| && events[i].Request? ==> !Manages(events[i].op.caller, owner)
    ensures ListsAfter(cached, owner, events) == Lists([], [])
  {
    var l := ListsAfter(cached, owner, events);
    if l.memory != [] || l.disk != [] {
      var s := if l.memory != [] then l.memory[0] else l.disk[0];
      SharesComeFromManagers(cached, owner, events, s);
    }
  }

  // ---- Memory and disk ------------------------------------------------------------

  /** After this event the two lists agree for sure. */
  predicate Saves(owner: string, l: Lists, e: Event) {
    match e
    case Request(op, saved) => Accepted(owner, l.memory, op) && saved
    case Resave => true
    case Restart => true
  }

  /** The number of events up to and with the last one that saved. */
  function LastSave(cached: bool, owner: string, events: seq<Event>): (n: nat)
    ensures n <= |events|
  {
    if events == [] then 0
    else
      var before := events[..|events| - 1];
      if Saves(owner, ListsAfter(cached, owner, before), events[|events| - 1]) then |events|
      else LastSave(cached, owner, before)
  }

  /**
   The disk holds the list that was in force at the last save, so memory and disk differ
   exactly when accepted requests since then have changed the list without being saved.
   */
  lemma {:induction false} DiskIsTheLastSaved(cached: bool, owner: string, events: seq<Event>)
    ensures var l := ListsAfter(cached, owner, events);
            var kept := ListsAfter(cached, owner, events[..LastSave(cached, owner, events)]).memory;
            l.disk == kept && (!cached ==> l.memory == l.disk)
    decreases |events|
  {
    if events == [] {
      assert events[..0] == [];
    } else {
      var before := events[..|events| - 1];
      DiskIsTheLastSaved(cached, owner, before);
      var k := LastSave(cached, owner, events);
      if k == |events| {
        assert events[..k] == events;
      } else {
        assert before[..k] == events[..k];
      }
    }
  }

  /** As long as every accepted request is saved, memory and disk agree. */
  lemma {:induction false} SavedHistoriesAgree(cached: bool, owner: string, events: seq<Event>)
    requires forall i :: 0 <= i < |events| && events[i].Request? ==> events[i].saved
    ensures ListsAfter(cached, owner, events).memory == ListsAfter(cached, owner, events).disk
    decreases |events|
  {
    if events == [] {
    } else {
      SavedHistoriesAgree(cached, owner, events[..|events| - 1]);
    }
  }

  // ---- What shares can and cannot do to decisions ------------------------------------

  function Decide(rules: Rules, p: Principal, a: Action, res: Resource, shares: seq<Share>): Decision {
    Allow(rules, Some(p), a, Some(res.(shares := shares)))
  }

  /**
   * Who shares can help at all: an ordinary user or operator who can be named, on somebody else's ordinary resource.
   */
  predicate ShareSensitive(p: Principal, res: Resource) {
    && (p.kind.User? || p.kind.Operator?) && !IsAdmin(p)
    && !res.kind.SystemResource? && res.owner != LEGACY_OWNER && res.owner != "" && res.owner != p.id
    && (p.id != "" || p.groups != [])
  }

  /**
   * System and legacy resources, admins, and principals of the other kinds are decided without shares; every remaining
   * case can be decided by one.
   */
  lemma SharesMatterIff(rules: Rules, p: Principal, a: Action, res: Resource)
    ensures (exists shares, shares' :: Decide(rules, p, a, res, shares) != Decide(rules, p, a, res, shares')) <==>
      ShareSensitive(p, res)
  {
    if ShareSensitive(p, res) {
      var grantee := if p.id != "" then p.id else "group:" + p.groups[0];
      var share := Share(grantee, [a], "", 0);
      assert p.id == "" ==> grantee[6..] == p.groups[0];
      assert Grants(share, p, a) && share in [share];
      assert SharedWith([share], p, a) && !SharedWith([], p, a);
      assert Decide(rules, p, a, res, [share]) != Decide(rules, p, a, res, []);
    } else {
      forall shares, shares' ensures Decide(rules, p, a, res, shares) == Decide(rules, p, a, res, shares') {
        assert p.id == "" && p.groups == [] ==> !SharedWith(shares, p, a) && !SharedWith(shares', p, a);
      }
    }
  }

  /** Only the shares that match the principal matter. */
  lemma OnlyMatchingSharesMatter(rules: Rules, p: Principal, a: Action, res: Resource, shares: seq<Share>,
                                 shares': seq<Share>)
    requires forall s: Share :: MatchesGrantee(p, s.grantee) ==> (s in shares <==> s in shares')
    ensures Decide(rules, p, a, res, shares) == Decide(rules, p, a, res, shares')
  {
    assert SharedWith(shares, p, a) <==> SharedWith(shares', p, a);
  }

  /** A decision that shares have changed goes back to a share that the owner or an admin made for that principal. */
  lemma SharedAccessWasGranted(rules: Rules, cached: bool, events: seq<Event>, p: Principal, a: Action, res: Resource)
    requires var shares := ListsAfter(cached, res.owner, events).memory;
             Decide(rules, p, a, res, shares) != Decide(rules, p, a, res, [])
    ensures exists s :: WasCreated(res.owner, events, s) && Names(s.grantee, p) && a in s.actions
  {
    var shares := ListsAfter(cached, res.owner, events).memory;
    SharedIff(shares, p, a);
    assert Granted(shares, p, a);
    var s :| s in shares && Names(s.grantee, p) && a in s.actions;
    SharesComeFromManagers(cached, res.owner, events, s);
  }

  lemma StepKeepsOthers(owner: string, before: seq<Share>, op: Operation)
    requires Distinct(before)
    ensures forall s: Share :: s.grantee != Target(op) ==> (s in before <==> s in After(owner, before, op))
  {
    match op
    case Create(caller, s) => MergedMembers(before, s);
    case Revoke(caller, grantee) => WithoutMembers(before, grantee);
  }

  /** A request about one grantee, saved or not, changes no decision for anyone that grantee does not match. */
  lemma OthersUnaffected(rules: Rules, cached: bool, owner: string, events: seq<Event>, op: Operation, saved: bool,
                         p: Principal, a: Action, res: Resource)
    requires !MatchesGrantee(p, Target(op))
    ensures var l := ListsAfter(cached, owner, events);
            Decide(rules, p, a, res, l.memory) ==
              Decide(rules, p, a, res, Step(cached, owner, l, Request(op, saved)).memory)
  {
    HistoryIsSound(cached, owner, events);
    var before := ListsAfter(cached, owner, events).memory;
    StepKeepsOthers(owner, before, op);
    OnlyMatchingSharesMatter(rules, p, a, res, before, After(owner, before, op));
  }

  lemma {:induction false} AppendThenRemove(shares: seq<Share>, s: Share)
    requires !HasGrantee(shares, s.grantee)
    ensures Merged(shares, s) == shares + [s] && Without(Merged(shares, s), s.grantee) == shares
    decreases |shares|
  {
    if shares == [] {
      assert [s][1..] == [];
    } else {
      var first, rest := shares[0], shares[1..];
      assert first in shares && forall x :: x in rest ==> x in shares;
      AppendThenRemove(rest, s);
      var m := Merged(shares, s);
      assert m[0] == first && m[1..] == Merged(rest, s);
    }
  }

  lemma {:induction false} NothingToRemove(shares: seq<Share>, grantee: string)
    requires !HasGrantee(shares, grantee)
    ensures Without(shares, grantee) == shares
    decreases |shares|
  {
    if shares == [] {
    } else {
      assert shares[0] in shares && forall x :: x in shares[1..] ==> x in shares;
      NothingToRemove(shares[1..], grantee);
    }
  }

  /**
   * Sharing with a new grantee and revoking it again restores the list in force, and with it every decision, whichever
   * saves fail.
   */
  lemma RevokeUndoesCreate(cached: bool, owner: string, l: Lists, caller: Principal, s: Share, saved: bool,
                           saved': bool)
    requires IsOwnerOrAdmin(caller, owner) && Validates(s) && !HasGrantee(l.memory, s.grantee)
    requires |l.memory| < MAX_SHARES
    ensures var shared := Step(cached, owner, l, Request(Create(caller, s), saved));
            saved' || cached || shared == l ==>
              Step(cached, owner, shared, Request(Revoke(caller, s.grantee), saved')).memory == l.memory
  {
    AppendThenRemove(l.memory, s);
    NothingToRemove(l.memory, s.grantee);
    assert s.grantee != "";
  }

  lemma MergedGrants(before: seq<Share>, s: Share, p: Principal, a: Action)
    requires Distinct(before) && MatchesGrantee(p, s.grantee)
    ensures SharedWith(Merged(before, s), p, a) <==> a in s.actions || SharedWith(Without(before, s.grantee), p, a)
  {
    MergedMembers(before, s);
    WithoutMembers(before, s.grantee);
    assert Grants(s, p, a) <==> a in s.actions;
    var after, rest := Merged(before, s), Without(before, s.grantee);
    assert forall x :: x in after <==> x == s || x in rest;
  }

  /**
   * After an accepted create that took effect, the grantee's access through that share is exactly the actions listed
   * last.
   */
  lemma LastCreateWins(rules: Rules, cached: bool, owner: string, events: seq<Event>, caller: Principal, s: Share,
                       saved: bool, p: Principal, a: Action, res: Resource)
    requires Accepted(owner, ListsAfter(cached, owner, events).memory, Create(caller, s)) && (saved || cached)
    requires res.owner == owner && owner != "" && owner != LEGACY_OWNER && !res.kind.SystemResource?
    requires (p.kind.User? || p.kind.Operator?) && !IsAdmin(p) && p.id != owner && MatchesGrantee(p, s.grantee)
    ensures var l := ListsAfter(cached, owner, events);
            Decide(rules, p, a, res, Step(cached, owner, l, Request(Create(caller, s), saved)).memory).Permit? <==>
              a in s.actions || SharedWith(Without(l.memory, s.grantee), p, a)
  {
    HistoryIsSound(cached, owner, events);
    MergedGrants(ListsAfter(cached, owner, events).memory, s, p, a);
  }

  /** The same requests, with other outcomes of the saves. */
  ghost predicate SameRequests(events: seq<Event>, events': seq<Event>) {
    && |events| == |events'|
    && forall i :: 0 <= i < |events| ==>
         if events[i].Request? then events'[i].Request? && events'[i].op == events[i].op else events'[i] == events[i]
  }

  lemma SameStep(owner: string, l: Lists, l': Lists, e: Event, e': Event)
    requires l.memory == l'.memory && !e.Restart?
    requires if e.Request? then e'.Request? && e'.op == e.op else e' == e
    ensures Step(true, owner, l, e).memory == Step(true, owner, l', e').memory
  {
  }

  /**
   A request on a cached record that was answered with an error is in force all the same: between
   restarts no decision depends on which saves failed.
   */
  lemma {:induction false} FailedSavesAreInForce(owner: string, events: seq<Event>, events': seq<Event>)
    requires SameRequests(events, events') && Restart !in events
    ensures ListsAfter(true, owner, events).memory == ListsAfter(true, owner, events').memory
    decreases |events|
  {
    if events != [] {
      var n := |events| - 1;
      assert events[n] in events;
      FailedSavesAreInForce(owner, events[..n], events'[..n]);
      SameStep(owner, ListsAfter(true, owner, events[..n]), ListsAfter(true, owner, events'[..n]), events[n],
        events'[n]);
    }
  }

  /** A restart goes back to what was in force at the last save. */
  lemma RestartGoesBack(cached: bool, owner: string, events: seq<Event>)
    ensures ListsAfter(cached, owner, events + [Restart]).memory ==
              ListsAfter(cached, owner, events[..LastSave(cached, owner, events)]).memory
  {
    DiskIsTheLastSaved(cached, owner, events);
    assert (events + [Restart])[..|events|] == events;
  }

  /** No history changes who may perform the admin action, whatever kind of principal asks. */
  lemma AdminIsNeverShared(rules: Rules, cached: bool, events: seq<Event>, p: Principal, res: Resource)
    ensures Decide(rules, p, Admin, res, ListsAfter(cached, res.owner, events).memory) ==
      Decide(rules, p, Admin, res, [])
  {
    HistoryIsSound(cached, res.owner, events);
    var shares := ListsAfter(cached, res.owner, events).memory;
    assert !SharedWith(shares, p, Admin) && !SharedWith([], p, Admin);
  }
}
