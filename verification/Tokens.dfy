/**
 * Refresh tokens with rotation and reuse detection, for administrators
 * (apps/api/src/auth/admin-auth.service.ts) and for phones
 * (apps/api/src/auth/device-token.service.ts). The secret a client holds is
 * modelled by the position of its row; a position beyond the table is a secret
 * nobody issued. A new family takes the position of its first token as its id.
 */
module Tokens {
  import opened Wrappers

  datatype Token = Token(owner: nat, family: nat, expiresAt: int, usedAt: Option<int>, revokedAt: Option<int>)

  type Table = seq<Token>

  datatype Outcome = UnknownToken | Reuse | OutOfDate | OwnerInactive | Rotated(id: nat)

  /** Which tokens an `updateMany` on `revokedAt` selects. */
  datatype Target = Family(family: nat) | Owners(owners: set<nat>)

  predicate Aims(target: Target, t: Token) {
    match target
    case Family(f) => t.family == f
    case Owners(owners) => t.owner in owners
  }

  /** Only tokens that are not revoked yet are updated. */
  function Revoke(tokens: Table, target: Target, now: int): (r: Table)
    ensures |r| == |tokens|
    ensures forall i :: 0 <= i < |tokens| ==>
      r[i] == if Aims(target, tokens[i]) && tokens[i].revokedAt.None?
              then tokens[i].(revokedAt := Some(now)) else tokens[i]
  {
    seq(|tokens|, i requires 0 <= i < |tokens| =>
      if Aims(target, tokens[i]) && tokens[i].revokedAt.None? then tokens[i].(revokedAt := Some(now)) else tokens[i])
  }

  /** `issueTokens`; without a family, a new one. */
  function Issued(tokens: Table, owner: nat, family: Option<nat>, expiresAt: int): Table {
    tokens + [Token(owner, if family.Some? then family.value else |tokens|, expiresAt, None, None)]
  }

  function RefreshOutcome(tokens: Table, id: nat, now: int, ownerActive: bool): Outcome {
    if id >= |tokens| then UnknownToken
    else if tokens[id].usedAt.Some? || tokens[id].revokedAt.Some? then Reuse
    else if tokens[id].expiresAt < now then OutOfDate
    else if !ownerActive then OwnerInactive
    else Rotated(|tokens|)
  }

  /** The table after `refresh`. */
  function Refreshed(tokens: Table, id: nat, now: int, ttl: nat, ownerActive: bool): Table {
    match RefreshOutcome(tokens, id, now, ownerActive)
    case Reuse => Revoke(tokens, Family(tokens[id].family), now)
    case Rotated(_) =>
      Issued(tokens[id := tokens[id].(usedAt := Some(now))], tokens[id].owner, Some(tokens[id].family), now + ttl)
    case _ => tokens
  }

  /** The table after `logout`. */
  function LoggedOut(tokens: Table, id: nat, now: int): Table {
    if id >= |tokens| then tokens else Revoke(tokens, Family(tokens[id].family), now)
  }

  class TokenService {
    var tokens: Table

    constructor ()
      ensures tokens == []
    {
      tokens := [];
    }

    method Issue(owner: nat, family: Option<nat>, now: int, ttl: nat) returns (id: nat)
      modifies this
      ensures id == |old(tokens)| && tokens == Issued(old(tokens), owner, family, now + ttl)
    {
      id := |tokens|;
      tokens := tokens + [Token(owner, if family.Some? then family.value else id, now + ttl, None, None)];
    }

    method Refresh(id: nat, now: int, ttl: nat, ownerActive: bool) returns (outcome: Outcome)
      modifies this
      ensures outcome == RefreshOutcome(old(tokens), id, now, ownerActive)
      ensures tokens == Refreshed(old(tokens), id, now, ttl, ownerActive)
    {
      if id >= |tokens| {
        return UnknownToken;
      }
      var stored := tokens[id];
      if stored.usedAt.Some? || stored.revokedAt.Some? {
        tokens := Revoke(tokens, Family(stored.family), now);
        return Reuse;
      }
      if stored.expiresAt < now {
        return OutOfDate;
      }
      if !ownerActive {
        return OwnerInactive;
      }
      tokens := tokens[id := stored.(usedAt := Some(now))];
      var issued := Issue(stored.owner, Some(stored.family), now, ttl);
      outcome := Rotated(issued);
    }

    method Logout(id: nat, now: int)
      modifies this
      ensures tokens == LoggedOut(old(tokens), id, now)
    {
      if id < |tokens| {
        tokens := Revoke(tokens, Family(tokens[id].family), now);
      }
    }

    /** `revokeAll` of a phone, its revocation, or the unlinking of a company's single sign-on. */
    method RevokeAll(owners: set<nat>, now: int)
      modifies this
      ensures tokens == Revoke(old(tokens), Owners(owners), now)
    {
      tokens := Revoke(tokens, Owners(owners), now);
    }
  }

  // ------------------------------------------------------------------------
  //  Runs
  // ------------------------------------------------------------------------

  datatype Call =
    | LoginCall(owner: nat, now: int, ttl: nat)
    | RefreshCall(id: nat, now: int, ttl: nat, ownerActive: bool)
    | LogoutCall(id: nat, now: int)
    | RevokeAllCall(owners: set<nat>, now: int)

  function Step(tokens: Table, call: Call): Table {
    match call
    case LoginCall(owner, now, ttl) => Issued(tokens, owner, None, now + ttl)
    case RefreshCall(id, now, ttl, active) => Refreshed(tokens, id, now, ttl, active)
    case LogoutCall(id, now) => LoggedOut(tokens, id, now)
    case RevokeAllCall(owners, now) => Revoke(tokens, Owners(owners), now)
  }

  /** The table after the first `n` calls. */
  function After(calls: seq<Call>, n: nat): Table
    requires n <= |calls|
  {
    if n == 0 then [] else Step(After(calls, n - 1), calls[n - 1])
  }

  /** Call `k` presents token `id`, and it is accepted. */
  predicate Accepts(calls: seq<Call>, k: nat, id: nat) {
    && k < |calls| && calls[k].RefreshCall? && calls[k].id == id
    && RefreshOutcome(After(calls, k), id, calls[k].now, calls[k].ownerActive).Rotated?
  }

  // ------------------------------------------------------------------------
  //  Families
  // ------------------------------------------------------------------------

  predicate Newest(tokens: Table, id: nat) {
    id < |tokens| && forall j :: id < j < |tokens| ==> tokens[j].family != tokens[id].family
  }

  ghost predicate Numbered(tokens: Table) {
    forall i :: 0 <= i < |tokens| ==> tokens[i].family <= i
  }

  /** The tokens of a family are used in order, all but the newest. */
  ghost predicate UsedInOrder(tokens: Table) {
    forall i: nat :: i < |tokens| ==> (tokens[i].usedAt.None? <==> Newest(tokens, i))
  }

  ghost predicate OneOwner(tokens: Table) {
    forall i, j :: 0 <= i < |tokens| && 0 <= j < |tokens| && tokens[i].family == tokens[j].family ==>
      tokens[i].owner == tokens[j].owner
  }

  ghost predicate WellFormed(tokens: Table) {
    Numbered(tokens) && UsedInOrder(tokens) && OneOwner(tokens)
  }

  lemma RevokingKeepsFamilies(tokens: Table, target: Target, now: int)
    requires WellFormed(tokens)
    ensures WellFormed(Revoke(tokens, target, now))
  {
  }

  lemma LoginKeepsFamilies(tokens: Table, owner: nat, expiresAt: int)
    requires WellFormed(tokens)
    ensures WellFormed(Issued(tokens, owner, None, expiresAt))
  {
    var n := |tokens|;
    var after := Issued(tokens, owner, None, expiresAt);
    assert OneOwner(after) by {
      hide Newest, UsedInOrder;
    }
    forall i: nat | i < n + 1 ensures after[i].usedAt.None? <==> Newest(after, i) {
      hide Numbered, OneOwner, UsedInOrder;
      if i < n {
        UnusedIsNewest(tokens, i);
        FamilyOlder(tokens, i);
        NewestAfterIssue(tokens, after[n], i);
      }
    }
  }

  lemma NewestAfterIssue(tokens: Table, t: Token, i: nat)
    requires i < |tokens|
    ensures Newest(tokens + [t], i) <==> Newest(tokens, i) && t.family != tokens[i].family
  {
    var after := tokens + [t];
    if Newest(after, i) {
      assert after[|tokens|].family != tokens[i].family;
      forall j | i < j < |tokens| ensures tokens[j].family != tokens[i].family {
        assert after[j] == tokens[j];
      }
    }
  }

  lemma FamilyOlder(tokens: Table, i: nat)
    requires Numbered(tokens) && i < |tokens|
    ensures tokens[i].family <= i
  {
  }

  lemma RotationKeepsFamilies(tokens: Table, id: nat, now: int, expiresAt: int)
    requires WellFormed(tokens) && Newest(tokens, id)
    ensures var used := tokens[id := tokens[id].(usedAt := Some(now))];
      WellFormed(Issued(used, tokens[id].owner, Some(tokens[id].family), expiresAt))
  {
    var used := tokens[id := tokens[id].(usedAt := Some(now))];
    var after := Issued(used, tokens[id].owner, Some(tokens[id].family), expiresAt);
    var n := |tokens|;
    assert forall i :: 0 <= i < n ==> after[i].family == tokens[i].family && after[i].owner == tokens[i].owner;
    assert after[n].family == tokens[id].family;
    forall i: nat | i < n + 1 ensures after[i].usedAt.None? <==> Newest(after, i) {
      if i < n {
        assert Newest(after, i) <==> Newest(tokens, i) && tokens[i].family != tokens[id].family;
      }
    }
  }

  lemma StepKeepsFamilies(tokens: Table, call: Call)
    requires WellFormed(tokens)
    ensures WellFormed(Step(tokens, call))
  {
    hide Numbered, OneOwner, UsedInOrder, Newest, Issued;
    match call
    case LoginCall(owner, now, ttl) => LoginKeepsFamilies(tokens, owner, now + ttl);
    case RefreshCall(id, now, ttl, active) =>
      if id < |tokens| {
        RevokingKeepsFamilies(tokens, Family(tokens[id].family), now);
        if RefreshOutcome(tokens, id, now, active).Rotated? {
          UnusedIsNewest(tokens, id);
          RotationKeepsFamilies(tokens, id, now, now + ttl);
        }
      }
    case LogoutCall(id, now) =>
      if id < |tokens| {
        RevokingKeepsFamilies(tokens, Family(tokens[id].family), now);
      }
    case RevokeAllCall(owners, now) => RevokingKeepsFamilies(tokens, Owners(owners), now);
  }

  lemma UnusedIsNewest(tokens: Table, id: nat)
    requires UsedInOrder(tokens) && id < |tokens|
    ensures tokens[id].usedAt.None? <==> Newest(tokens, id)
  {
  }

  lemma {:induction false} FamiliesWellFormed(calls: seq<Call>, n: nat)
    requires n <= |calls|
    ensures WellFormed(After(calls, n))
  {
    hide Step, WellFormed;
    if n == 0 {
      EmptyIsWellFormed();
    } else {
      FamiliesWellFormed(calls, n - 1);
      StepKeepsFamilies(After(calls, n - 1), calls[n - 1]);
    }
  }

  lemma EmptyIsWellFormed()
    ensures WellFormed([])
  {
  }

  /**
   * A refresh succeeds exactly when the token presented is the newest of its
   * family, the family is not revoked, the token has not expired and its owner
   * is active; at most one token of a family can succeed at any moment.
   */
  lemma AcceptedExactly(calls: seq<Call>, n: nat, id: nat, now: int, ownerActive: bool)
    requires n <= |calls|
    ensures var tokens := After(calls, n);
      RefreshOutcome(tokens, id, now, ownerActive).Rotated? <==>
        Newest(tokens, id) && tokens[id].revokedAt.None? && now <= tokens[id].expiresAt && ownerActive
    ensures var tokens := After(calls, n);
      forall a: nat, b: nat :: Newest(tokens, a) && Newest(tokens, b) && tokens[a].family == tokens[b].family ==> a == b
  {
    hide After;
    FamiliesWellFormed(calls, n);
  }

  /**
   * Why a token is refused: nobody issued it; it was used, which is to say that its
   * family has a newer one, or it was revoked; it is out of date; its owner is inactive.
   */
  lemma RefusedExactly(calls: seq<Call>, n: nat, id: nat, now: int, ownerActive: bool)
    requires n <= |calls|
    ensures var (tokens, outcome) := (After(calls, n), RefreshOutcome(After(calls, n), id, now, ownerActive));
      && (outcome == UnknownToken <==> |tokens| <= id)
      && (outcome == Reuse <==> id < |tokens| && (!Newest(tokens, id) || tokens[id].revokedAt.Some?))
      && (outcome == OutOfDate <==> Newest(tokens, id) && tokens[id].revokedAt.None? && tokens[id].expiresAt < now)
      && (outcome == OwnerInactive <==>
            Newest(tokens, id) && tokens[id].revokedAt.None? && now <= tokens[id].expiresAt && !ownerActive)
  {
    hide After;
    FamiliesWellFormed(calls, n);
  }

  // ------------------------------------------------------------------------
  //  Counting
  // ------------------------------------------------------------------------

  function InFamily(tokens: Table, family: nat): nat {
    if tokens == [] then 0
    else InFamily(tokens[..|tokens| - 1], family) + (if tokens[|tokens| - 1].family == family then 1 else 0)
  }

  function UsedInFamily(tokens: Table, family: nat): nat {
    if tokens == [] then 0
    else
      var t := tokens[|tokens| - 1];
      UsedInFamily(tokens[..|tokens| - 1], family) + (if t.family == family && t.usedAt.Some? then 1 else 0)
  }

  lemma OneNewest(tokens: Table, a: nat, b: nat)
    requires Newest(tokens, a) && Newest(tokens, b) && tokens[a].family == tokens[b].family
    ensures a == b
  {
  }

  /** Among the first `n` tokens, the family's newest is the only one not used. */
  lemma {:induction false} CountPrefix(tokens: Table, n: nat, family: nat, newest: nat)
    requires UsedInOrder(tokens) && n <= |tokens| && newest < |tokens|
    requires Newest(tokens, newest) && tokens[newest].family == family
    ensures InFamily(tokens[..n], family) == UsedInFamily(tokens[..n], family) + (if newest < n then 1 else 0)
  {
    hide Newest, UsedInOrder;
    if n > 0 {
      var last := n - 1;
      CountPrefix(tokens, last, family, newest);
      assert tokens[..n][..last] == tokens[..last];
      UnusedIsNewest(tokens, last);
      UnusedIsNewest(tokens, newest);
      if tokens[last].family == family && tokens[last].usedAt.None? {
        OneNewest(tokens, last, newest);
      }
    }
  }

  lemma {:induction false} NewestExists(tokens: Table, i: nat) returns (newest: nat)
    requires i < |tokens|
    ensures Newest(tokens, newest) && tokens[newest].family == tokens[i].family
    decreases |tokens| - i
  {
    if Newest(tokens, i) {
      newest := i;
    } else {
      var j :| i < j < |tokens| && tokens[j].family == tokens[i].family;
      newest := NewestExists(tokens, j);
    }
  }

  /** Every family holds exactly one token more than it has used. */
  lemma OneTokenAhead(calls: seq<Call>, n: nat, i: nat)
    requires n <= |calls| && i < |After(calls, n)|
    ensures var tokens := After(calls, n);
      InFamily(tokens, tokens[i].family) == UsedInFamily(tokens, tokens[i].family) + 1
  {
    hide After;
    var tokens := After(calls, n);
    FamiliesWellFormed(calls, n);
    var newest := NewestExists(tokens, i);
    CountPrefix(tokens, |tokens|, tokens[i].family, newest);
    assert tokens[..|tokens|] == tokens;
  }

  // ------------------------------------------------------------------------
  //  Over a run
  // ------------------------------------------------------------------------

  /** Marks are never taken back, and rows never change hands. */
  ghost predicate Grows(a: Table, b: Table) {
    |a| <= |b| && forall i :: 0 <= i < |a| ==>
      && b[i].family == a[i].family && b[i].owner == a[i].owner && b[i].expiresAt == a[i].expiresAt
      && (a[i].usedAt.Some? ==> b[i].usedAt == a[i].usedAt)
      && (a[i].revokedAt.Some? ==> b[i].revokedAt == a[i].revokedAt)
  }

  lemma {:induction false} RunGrows(calls: seq<Call>, m: nat, n: nat)
    requires m <= n <= |calls|
    ensures Grows(After(calls, m), After(calls, n))
  {
    if m < n {
      RunGrows(calls, m, n - 1);
      StepGrows(After(calls, n - 1), calls[n - 1]);
    }
  }

  lemma StepGrows(tokens: Table, call: Call)
    ensures Grows(tokens, Step(tokens, call))
  {
  }

  /** A token is accepted at most once, whatever the run. */
  lemma AcceptedOnce(calls: seq<Call>, a: nat, b: nat, id: nat)
    requires Accepts(calls, a, id) && Accepts(calls, b, id)
    ensures a == b
  {
    var first, second := if a < b then a else b, if a < b then b else a;
    if first < second {
      assert After(calls, first + 1)[id].usedAt.Some?;
      RunGrows(calls, first + 1, second);
    }
  }

  /** No token of the family can be accepted. */
  ghost predicate Dead(tokens: Table, family: nat) {
    && family < |tokens|
    && forall i :: 0 <= i < |tokens| && tokens[i].family == family ==> tokens[i].revokedAt.Some?
  }

  lemma StepKeepsDead(tokens: Table, call: Call, family: nat)
    requires Dead(tokens, family)
    ensures Dead(Step(tokens, call), family)
  {
  }

  lemma {:induction false} StaysDead(calls: seq<Call>, m: nat, n: nat, family: nat)
    requires m <= n <= |calls| && Dead(After(calls, m), family)
    ensures Dead(After(calls, n), family)
  {
    hide Step, Dead;
    if m < n {
      StaysDead(calls, m, n - 1, family);
      StepKeepsDead(After(calls, n - 1), calls[n - 1], family);
    }
  }

  /** Call `k` closes the family: the reuse of one of its tokens, a logout with one, or the revocation of its owner. */
  predicate Closes(calls: seq<Call>, k: nat, family: nat) {
    k < |calls| && var tokens := After(calls, k);
      match calls[k]
      case RefreshCall(id, _, _, _) =>
        id < |tokens| && tokens[id].family == family && (tokens[id].usedAt.Some? || tokens[id].revokedAt.Some?)
      case LogoutCall(id, _) => id < |tokens| && tokens[id].family == family
      case RevokeAllCall(owners, _) =>
        exists i :: 0 <= i < |tokens| && tokens[i].family == family && tokens[i].owner in owners
      case LoginCall(_, _, _) => false
  }

  lemma ClosingKills(calls: seq<Call>, k: nat, family: nat)
    requires Closes(calls, k, family)
    ensures Dead(After(calls, k + 1), family)
  {
    hide After;
    FamiliesWellFormed(calls, k);
    assert After(calls, k + 1) == Step(After(calls, k), calls[k]) by {
      AfterStep(calls, k);
    }
  }

  lemma AfterStep(calls: seq<Call>, k: nat)
    requires k < |calls|
    ensures After(calls, k + 1) == Step(After(calls, k), calls[k])
  {
  }

  /**
   * After a reuse, a logout or a revocation, no token of the family is ever
   * accepted again, not even one issued to whoever presented a token first.
   */
  lemma ClosedForGood(calls: seq<Call>, k: nat, family: nat, later: nat, id: nat)
    requires Closes(calls, k, family) && k < later
    requires later < |calls| && id < |After(calls, later)| && After(calls, later)[id].family == family
    ensures !Accepts(calls, later, id)
    ensures forall n :: k < n <= |calls| ==> Dead(After(calls, n), family)
  {
    ClosingKills(calls, k, family);
    forall n | k < n <= |calls| ensures Dead(After(calls, n), family) {
      StaysDead(calls, k + 1, n, family);
    }
  }

  /**
   * A token presented a second time after being accepted is a theft, or its
   * victim: from then on the whole chain it started is refused.
   */
  lemma TheftEndsTheChain(calls: seq<Call>, first: nat, again: nat, later: nat, id: nat, heir: nat)
    requires Accepts(calls, first, id) && first < again < later < |calls|
    requires calls[again].RefreshCall? && calls[again].id == id
    requires id < |After(calls, later)| && heir < |After(calls, later)|
    requires After(calls, later)[heir].family == After(calls, later)[id].family
    ensures !Accepts(calls, again, id) && !Accepts(calls, later, heir)
  {
    assert After(calls, first + 1)[id].usedAt.Some?;
    RunGrows(calls, first + 1, again);
    RunGrows(calls, again, later);
    assert Closes(calls, again, After(calls, again)[id].family);
    ClosedForGood(calls, again, After(calls, again)[id].family, later, heir);
  }
}
