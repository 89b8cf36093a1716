/**
  Refresh-token rotation (auth.service.ts over the in-memory repository). Tokens are kept by the hash presented;
  a family links every token descended from one login. Calls are serialized and ids, hashes and families are fresh.
 */
module Tokens {
  type Id = string

  datatype Token = Token(userId: Id, family: Id, expiresAt: int, used: bool, revoked: bool)

  /** Tokens by hash; the log of exchanges and of revocations, both as they happened. */
  datatype State = State(tokens: map<Id, Token>, exchanged: seq<Id>, revocations: seq<Id>)

  datatype Op =
    | Login(userId: Id, freshFamily: Id, freshHash: Id, expiresAt: int)
    | Refresh(hash: Id, now: int, userActive: bool, freshHash: Id, expiresAt: int)
    | Logout(hash: Id)

  datatype Outcome = Issued | Invalid | Replayed | Revoked | Expired | Inactive | LoggedOut

  function RevokeFamily(m: map<Id, Token>, family: Id): map<Id, Token> {
    map h | h in m :: if m[h].family == family then m[h].(revoked := true) else m[h]
  }

  function RefreshOutcome(m: map<Id, Token>, hash: Id, now: int, userActive: bool): Outcome {
    if hash !in m then Invalid
    else if m[hash].used then Replayed
    else if m[hash].revoked then Revoked
    else if m[hash].expiresAt <= now then Expired
    else if !userActive then Inactive
    else Issued
  }

  predicate FreshHash(s: State, hash: Id) { hash !in s.tokens }

  predicate FreshFamily(s: State, family: Id) { forall h :: h in s.tokens ==> s.tokens[h].family != family }

  function Next(s: State, op: Op): State {
    match op
    case Login(userId, family, hash, expiresAt) =>
      if !FreshHash(s, hash) || !FreshFamily(s, family) || family in s.revocations then s else
        s.(tokens := s.tokens[hash := Token(userId, family, expiresAt, false, false)])
    case Refresh(hash, now, userActive, freshHash, expiresAt) =>
      (match RefreshOutcome(s.tokens, hash, now, userActive)
       case Replayed =>
         s.(tokens := RevokeFamily(s.tokens, s.tokens[hash].family), revocations := s.revocations + [s.tokens[hash].family])
       case Issued =>
         if FreshHash(s, freshHash) then Exchange(s, hash, freshHash, expiresAt) else s
       case _ => s)
    case Logout(hash) =>
      if hash !in s.tokens then s else
        s.(tokens := RevokeFamily(s.tokens, s.tokens[hash].family), revocations := s.revocations + [s.tokens[hash].family])
  }

  function After(ops: seq<Op>): State {
    if ops == [] then State(map[], [], []) else Next(After(ops[..|ops| - 1]), ops[|ops| - 1])
  }

  // ---- The invariant ---------------------------------------------------------------------------

  /** A token that a refresh could still exchange. */
  predicate Current(s: State, h: Id) { h in s.tokens && !s.tokens[h].used && !s.tokens[h].revoked }

  ghost predicate OneCurrent(s: State) {
    forall a, b :: Current(s, a) && Current(s, b) && s.tokens[a].family == s.tokens[b].family ==> a == b
  }

  /** Revocation is all or nothing, and is exactly what the log of revocations says. */
  predicate WholeFamilies(s: State) {
    forall h :: h in s.tokens ==> (s.tokens[h].revoked <==> s.tokens[h].family in s.revocations)
  }

  ghost predicate ExchangedOnce(s: State) {
    && (forall i, j :: 0 <= i < j < |s.exchanged| ==> s.exchanged[i] != s.exchanged[j])
    && (forall h :: h in s.exchanged <==> h in s.tokens && s.tokens[h].used)
  }

  ghost predicate Inv(s: State) { OneCurrent(s) && WholeFamilies(s) && ExchangedOnce(s) }

  lemma RevokeKeepsInv(s: State, family: Id)
    requires Inv(s)
    ensures Inv(s.(tokens := RevokeFamily(s.tokens, family), revocations := s.revocations + [family]))
  {}

  /** The exchange: the old token is spent and its successor joins the family. */
  function Exchange(s: State, hash: Id, freshHash: Id, expiresAt: int): State
    requires hash in s.tokens
  {
    var t := s.tokens[hash];
    s.(tokens := s.tokens[hash := t.(used := true)][freshHash := Token(t.userId, t.family, expiresAt, false, false)],
       exchanged := s.exchanged + [hash])
  }

  lemma ExchangeKeepsInv(s: State, hash: Id, freshHash: Id, expiresAt: int)
    requires Inv(s) && Current(s, hash) && FreshHash(s, freshHash)
    ensures Inv(Exchange(s, hash, freshHash, expiresAt))
  {}

  lemma LoginKeepsInv(s: State, userId: Id, family: Id, hash: Id, expiresAt: int)
    requires Inv(s) && FreshHash(s, hash) && FreshFamily(s, family) && family !in s.revocations
    ensures Inv(s.(tokens := s.tokens[hash := Token(userId, family, expiresAt, false, false)]))
  {}

  lemma NextKeepsInv(s: State, op: Op)
    requires Inv(s)
    ensures Inv(Next(s, op))
  {
    hide Inv, RevokeFamily;
    match op {
      case Login(userId, family, hash, expiresAt) =>
        if FreshHash(s, hash) && FreshFamily(s, family) && family !in s.revocations {
          LoginKeepsInv(s, userId, family, hash, expiresAt);
        }
      case Refresh(hash, now, userActive, freshHash, expiresAt) =>
        var r := RefreshOutcome(s.tokens, hash, now, userActive);
        if r == Replayed {
          RevokeKeepsInv(s, s.tokens[hash].family);
        } else if r == Issued && FreshHash(s, freshHash) {
          ExchangeKeepsInv(s, hash, freshHash, expiresAt);
        }
      case Logout(hash) =>
        if hash in s.tokens {
          RevokeKeepsInv(s, s.tokens[hash].family);
        }
    }
  }

  /** In every run: one current token per family at most, each token exchanged at most once, whole-family revocation. */
  lemma {:induction false} RunKeepsInv(ops: seq<Op>)
    ensures Inv(After(ops))
  {
    hide Inv, Next;
    if ops == [] {
      EmptyInv();
    } else {
      RunKeepsInv(ops[..|ops| - 1]);
      NextKeepsInv(After(ops[..|ops| - 1]), ops[|ops| - 1]);
    }
  }

  lemma EmptyInv()
    ensures Inv(State(map[], [], []))
  {}

  // ---- A revoked family is dead ------------------------------------------------------------------

  predicate Follows(t: Token, t': Token) {
    t'.family == t.family && (t.used ==> t'.used) && (t.revoked ==> t'.revoked)
  }

  /** Every token stays where it is: same family, and use and revocation are never undone. */
  predicate Extends(s: State, s': State) {
    && (forall h :: h in s.tokens ==> h in s'.tokens && Follows(s.tokens[h], s'.tokens[h]))
    && s.exchanged <= s'.exchanged && s.revocations <= s'.revocations
  }

  lemma NextExtends(s: State, op: Op)
    ensures Extends(s, Next(s, op))
  {}

  /** One step exchanges at most one token, and never one of a revoked family. */
  lemma NoExchangeWhenRevoked(s: State, op: Op, family: Id)
    requires Inv(s) && family in s.revocations
    ensures var s' := Next(s, op);
      forall i :: |s.exchanged| <= i < |s'.exchanged| ==> s'.exchanged[i] in s.tokens && s.tokens[s'.exchanged[i]].family != family
  {}

  /**
    After a replay or a logout of any of its tokens, no token of that family is ever exchanged again:
    whatever the run does from then on, the new exchanges are all of other families.
   */
  lemma {:induction false} RevokedFamilyIsDead(before: seq<Op>, later: seq<Op>, family: Id)
    requires family in After(before).revocations
    ensures var s, s' := After(before), After(before + later);
      && Extends(s, s')
      && forall i :: |s.exchanged| <= i < |s'.exchanged| ==>
           s'.exchanged[i] in s'.tokens && s'.tokens[s'.exchanged[i]].family != family
    decreases |later|
  {
    if later == [] {
      assert before + later == before;
    } else {
      var init, op := later[..|later| - 1], later[|later| - 1];
      assert (before + later)[..|before + later| - 1] == before + init;
      RevokedFamilyIsDead(before, init, family);
      hide After, Next, Inv;
      var s, p := After(before), After(before + init);
      RunKeepsInv(before + init);
      NextExtends(p, op);
      NoExchangeWhenRevoked(p, op, family);
      assert After(before + later) == Next(p, op) by { AfterStep(before + later); }
    }
  }

  lemma AfterStep(ops: seq<Op>)
    requires ops != []
    ensures After(ops) == Next(After(ops[..|ops| - 1]), ops[|ops| - 1])
  {}

  /** A replay and a logout both revoke the family of the token presented. */
  lemma ReplayAndLogoutRevoke(s: State, hash: Id, now: int, userActive: bool, freshHash: Id, expiresAt: int)
    requires Inv(s) && hash in s.tokens
    ensures s.tokens[hash].family in Next(s, Logout(hash)).revocations
    ensures hash in s.exchanged ==> s.tokens[hash].family in Next(s, Refresh(hash, now, userActive, freshHash, expiresAt)).revocations
  {}

  // ---- What each call does ----------------------------------------------------------------------

  /** The token can be exchanged now: known, neither used nor revoked, not expired, and of an active user. */
  predicate Exchangeable(s: State, hash: Id, now: int, userActive: bool) {
    && hash in s.tokens && !s.tokens[hash].used && !s.tokens[hash].revoked
    && now < s.tokens[hash].expiresAt && userActive
  }

  /** Exactly the tokens of one family are revoked; nothing else about any token changes. */
  predicate FamilyRevoked(m: map<Id, Token>, m': map<Id, Token>, family: Id) {
    && m'.Keys == m.Keys
    && forall h :: h in m ==>
         && m'[h].userId == m[h].userId && m'[h].family == m[h].family && m'[h].expiresAt == m[h].expiresAt && m'[h].used == m[h].used
         && (m'[h].revoked <==> m[h].revoked || m[h].family == family)
  }

  /**
    A refresh exchanges a token exactly when it is exchangeable: it is spent, and a successor of the same user and
    family appears, unused and unrevoked. A used token costs its family; anything else changes nothing.
   */
  lemma RefreshMeans(s: State, hash: Id, now: int, userActive: bool, freshHash: Id, expiresAt: int)
    requires freshHash !in s.tokens
    ensures var s' := Next(s, Refresh(hash, now, userActive, freshHash, expiresAt));
      if Exchangeable(s, hash, now, userActive) then
        && s'.exchanged == s.exchanged + [hash] && s'.revocations == s.revocations
        && s'.tokens.Keys == s.tokens.Keys + {freshHash}
        && (forall h :: h in s.tokens && h != hash ==> s'.tokens[h] == s.tokens[h])
        && s'.tokens[hash] == Token(s.tokens[hash].userId, s.tokens[hash].family, s.tokens[hash].expiresAt, true, false)
        && s'.tokens[freshHash] == Token(s.tokens[hash].userId, s.tokens[hash].family, expiresAt, false, false)
      else if hash in s.tokens && s.tokens[hash].used then
        && s'.exchanged == s.exchanged && s'.revocations == s.revocations + [s.tokens[hash].family]
        && FamilyRevoked(s.tokens, s'.tokens, s.tokens[hash].family)
      else s' == s
  {}

  /** A logout revokes exactly the family of a known token; a login adds exactly one token of a new family. */
  lemma LogoutAndLoginMean(s: State, hash: Id, userId: Id, family: Id, freshHash: Id, expiresAt: int)
    requires freshHash !in s.tokens && family !in s.revocations && forall h :: h in s.tokens ==> s.tokens[h].family != family
    ensures var s' := Next(s, Logout(hash));
      if hash in s.tokens then
        && s'.exchanged == s.exchanged && s'.revocations == s.revocations + [s.tokens[hash].family]
        && FamilyRevoked(s.tokens, s'.tokens, s.tokens[hash].family)
      else s' == s
    ensures var s' := Next(s, Login(userId, family, freshHash, expiresAt));
      && s'.exchanged == s.exchanged && s'.revocations == s.revocations
      && s'.tokens == s.tokens[freshHash := Token(userId, family, expiresAt, false, false)]
  {}

  /** In every run, each exchange ever made was of a token that was exchangeable when it was presented. */
  lemma {:induction false} ExchangesWereDue(ops: seq<Op>, i: nat) returns (n: nat)
    requires i < |After(ops).exchanged|
    ensures n < |ops| && ops[n].Refresh? && ops[n].hash == After(ops).exchanged[i]
    ensures |After(ops[..n]).exchanged| == i && Exchangeable(After(ops[..n]), ops[n].hash, ops[n].now, ops[n].userActive)
    decreases |ops|
  {
    var init, op := ops[..|ops| - 1], ops[|ops| - 1];
    var s := After(init);
    if i < |s.exchanged| {
      n := ExchangesWereDue(init, i);
      assert init[..n] == ops[..n];
      NextExtends(s, op);
    } else {
      n := |ops| - 1;
    }
  }

  // ---- The service ---------------------------------------------------------------------------------

  class AuthService {
    var byHash: map<Id, Token>
    ghost var exchanged: seq<Id>
    ghost var revocations: seq<Id>

    ghost function Abs(): State
      reads this
    {
      State(byHash, exchanged, revocations)
    }

    constructor ()
      ensures Abs() == State(map[], [], [])
    {
      byHash, exchanged, revocations := map[], [], [];
    }

    method IssueTokens(userId: Id, family: Id, freshHash: Id, expiresAt: int)
      requires freshHash !in byHash
      modifies this
      ensures Abs() == old(Abs()).(tokens := old(byHash)[freshHash := Token(userId, family, expiresAt, false, false)])
    {
      byHash := byHash[freshHash := Token(userId, family, expiresAt, false, false)];
    }

    /** revokeFamily: a scan of the table. */
    method RevokeAll(family: Id)
      modifies this
      ensures Abs() == old(Abs()).(tokens := RevokeFamily(old(byHash), family), revocations := old(revocations) + [family])
      ensures FamilyRevoked(old(byHash), byHash, family)
    {
      ghost var m := byHash;
      var todo := byHash.Keys;
      while todo != {}
        invariant byHash.Keys == m.Keys && todo <= m.Keys && exchanged == old(exchanged) && revocations == old(revocations)
        invariant forall h :: h in m ==> byHash[h] == if h !in todo && m[h].family == family then m[h].(revoked := true) else m[h]
        decreases todo
      {
        var h :| h in todo;
        todo := todo - {h};
        if byHash[h].family == family && !byHash[h].revoked {
          byHash := byHash[h := byHash[h].(revoked := true)];
        }
      }
      revocations := revocations + [family];
    }

    method Refresh(hash: Id, now: int, userActive: bool, freshHash: Id, expiresAt: int) returns (r: Outcome)
      requires freshHash !in byHash
      modifies this
      ensures r == RefreshOutcome(old(byHash), hash, now, userActive)
      ensures r == Issued <==>
        && hash in old(byHash) && !old(byHash)[hash].used && !old(byHash)[hash].revoked
        && now < old(byHash)[hash].expiresAt && userActive
      ensures r == Invalid <==> hash !in old(byHash)
      ensures r == Replayed <==> hash in old(byHash) && old(byHash)[hash].used
      ensures Abs() == Next(old(Abs()), Op.Refresh(hash, now, userActive, freshHash, expiresAt))
    {
      if hash !in byHash {
        return Invalid;
      }
      var record := byHash[hash];
      if record.used {
        RevokeAll(record.family);
        return Replayed;
      }
      if record.revoked {
        return Revoked;
      }
      if record.expiresAt <= now {
        return Expired;
      }
      if !userActive {
        return Inactive;
      }
      byHash := byHash[hash := record.(used := true)];
      exchanged := exchanged + [hash];
      IssueTokens(record.userId, record.family, freshHash, expiresAt);
      r := Issued;
    }

    method Logout(hash: Id)
      modifies this
      ensures Abs() == Next(old(Abs()), Op.Logout(hash))
    {
      if hash in byHash {
        RevokeAll(byHash[hash].family);
      }
    }
  }
}
