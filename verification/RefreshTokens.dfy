/** Refresh tokens: login, rotation and logout of auth_service.go over the RefreshToken table. */
module RefreshTokens {
  import opened Prelude

  /** A signed refresh token is determined by its claims: the owner and the expiry second. Two tokens made
      for one user within a second are the same token. */
  datatype Token = Token(sub: nat, exp: int)

  datatype TokenRow = TokenRow(user: nat, expiresAt: int, revoked: bool)

  /** The table, and as history the chains of tokens, one per successful login and extended by rotation,
      with the (chain, position) of every token. */
  datatype Store = Store(rows: map<Token, TokenRow>, chains: seq<seq<Token>>, place: map<Token, (nat, nat)>)

  const NO_TOKENS := Store(map[], [], map[])

  const WEEK := 7 * 24 * 60 * 60

  datatype Outcome = Issued(token: Token) | Done | Denied

  datatype Call =
    | Login(user: nat, passwordOk: bool, now: int)
    | Rotate(prev: Token, signed: bool, now: int)
    | Revoke(token: Token)

  /** GenerateTokenPair. */
  function Mint(user: nat, now: int): Token { Token(user, now + WEEK) }

  /** SaveRefreshToken; None when the token is already in the table. */
  function Save(rows: map<Token, TokenRow>, user: nat, t: Token, now: int): Option<map<Token, TokenRow>> {
    if t in rows then None else Some(rows[t := TokenRow(user, now + WEEK, false)])
  }

  function MarkRevoked(rows: map<Token, TokenRow>, t: Token): map<Token, TokenRow> {
    if t in rows then rows[t := rows[t].(revoked := true)] else rows
  }

  predicate IsLive(rows: map<Token, TokenRow>, t: Token, now: int) {
    t in rows && !rows[t].revoked && rows[t].expiresAt > now
  }

  /** The store with a new token behind prev in prev's chain. */
  function Succeed(s: Store, rows: map<Token, TokenRow>, prev: Token, t: Token): Store {
    if prev in s.place && s.place[prev].0 < |s.chains| then
      var k := s.place[prev].0;
      Store(rows, s.chains[k := s.chains[k] + [t]], s.place[t := (k, |s.chains[k]|)])
    else s.(rows := rows)
  }

  function LoginStep(s: Store, user: nat, passwordOk: bool, now: int): (Store, Outcome) {
    var t := Mint(user, now);
    var saved := Save(s.rows, user, t, now);
    if !passwordOk || saved.None? then (s, Denied)
    else (Store(saved.value, s.chains + [[t]], s.place[t := (|s.chains|, 0)]), Issued(t))
  }

  /** A token that is no longer valid is revoked again; a valid one is revoked before its successor is
      saved, and stays revoked when saving fails. */
  function RotateStep(s: Store, prev: Token, signed: bool, now: int): (Store, Outcome) {
    if !signed || prev.exp <= now then (s, Denied)
    else
      var rows := MarkRevoked(s.rows, prev);
      if !IsLive(s.rows, prev, now) then (s.(rows := rows), Denied)
      else
        var t := Mint(prev.sub, now);
        var saved := Save(rows, prev.sub, t, now);
        if saved.None? then (s.(rows := rows), Denied) else (Succeed(s, saved.value, prev, t), Issued(t))
  }

  function StoreStep(s: Store, c: Call): (Store, Outcome) {
    match c
    case Login(user, passwordOk, now) => LoginStep(s, user, passwordOk, now)
    case Rotate(prev, signed, now) => RotateStep(s, prev, signed, now)
    case Revoke(t) => (s.(rows := MarkRevoked(s.rows, t)), if t in s.rows then Done else Denied)
  }

  function StoreRun(calls: seq<Call>): Store {
    if calls == [] then NO_TOKENS else StoreStep(StoreRun(calls[..|calls| - 1]), calls[|calls| - 1]).0
  }

  /** Successful logins of a run. */
  function Logins(calls: seq<Call>): nat {
    if calls == [] then 0
    else
      var before := calls[..|calls| - 1];
      var c := calls[|calls| - 1];
      Logins(before) + (if c.Login? && StoreStep(StoreRun(before), c).1.Issued? then 1 else 0)
  }

  // ---- Lineage

  /** The token is where place says, its chain has one owner, and unless it is revoked it ends its chain. */
  ghost predicate TokenOk(s: Store, t: Token)
    requires t in s.rows
  {
    && t in s.place && s.place[t].0 < |s.chains| && s.place[t].1 < |s.chains[s.place[t].0]|
    && var chain := s.chains[s.place[t].0];
       && chain[s.place[t].1] == t
       && s.rows[t].user == t.sub == chain[0].sub
       && (!s.rows[t].revoked ==> s.place[t].1 == |chain| - 1)
  }

  /** Every position of every chain holds a token of the table whose place it is. */
  ghost predicate PlacesOk(s: Store) {
    forall c, i :: 0 <= c < |s.chains| && 0 <= i < |s.chains[c]| ==>
      s.chains[c][i] in s.rows && s.chains[c][i] in s.place && s.place[s.chains[c][i]] == (c, i)
  }

  ghost predicate Lineage(s: Store) {
    && (forall t :: t in s.rows ==> TokenOk(s, t))
    && PlacesOk(s)
    && (forall c :: 0 <= c < |s.chains| ==> s.chains[c] != [])
  }

  lemma MarkRevokedKeeps(s: Store, t: Token)
    requires Lineage(s)
    ensures Lineage(s.(rows := MarkRevoked(s.rows, t)))
  {
    var s' := s.(rows := MarkRevoked(s.rows, t));
    forall u | u in s'.rows
      ensures TokenOk(s', u)
    {
      assert TokenOk(s, u);
    }
  }

  lemma LoginKeeps(s: Store, user: nat, passwordOk: bool, now: int)
    requires Lineage(s)
    ensures Lineage(LoginStep(s, user, passwordOk, now).0)
  {
    var s' := LoginStep(s, user, passwordOk, now).0;
    forall u | u in s'.rows
      ensures TokenOk(s', u)
    {
      if u in s.rows { assert TokenOk(s, u); }
    }
  }

  lemma SucceedKeeps(s: Store, prev: Token, t: Token, now: int)
    requires Lineage(s) && prev in s.rows && s.rows[prev].revoked && t !in s.rows && t.sub == prev.sub
    requires s.place[prev].1 == |s.chains[s.place[prev].0]| - 1
    ensures Lineage(Succeed(s, s.rows[t := TokenRow(t.sub, now + WEEK, false)], prev, t))
  {
    var s' := Succeed(s, s.rows[t := TokenRow(t.sub, now + WEEK, false)], prev, t);
    assert TokenOk(s, prev);
    forall u | u in s'.rows
      ensures TokenOk(s', u)
    {
      if u != t {
        assert TokenOk(s, u);
        if s.place[u] == s.place[prev] { assert u == prev; }
      }
    }
  }

  lemma RotateKeeps(s: Store, prev: Token, signed: bool, now: int)
    requires Lineage(s)
    ensures Lineage(RotateStep(s, prev, signed, now).0)
  {
    var rows := MarkRevoked(s.rows, prev);
    MarkRevokedKeeps(s, prev);
    if signed && prev.exp > now && IsLive(s.rows, prev, now) && Mint(prev.sub, now) !in rows {
      assert TokenOk(s, prev);
      SucceedKeeps(s.(rows := rows), prev, Mint(prev.sub, now), now);
    }
  }

  lemma StepLineage(s: Store, c: Call)
    requires Lineage(s)
    ensures Lineage(StoreStep(s, c).0)
  {
    match c
    case Login(user, passwordOk, now) => LoginKeeps(s, user, passwordOk, now);
    case Revoke(t) => MarkRevokedKeeps(s, t);
    case Rotate(prev, signed, now) => RotateKeeps(s, prev, signed, now);
  }

  lemma {:induction false} RunLineage(calls: seq<Call>)
    ensures Lineage(StoreRun(calls)) && |StoreRun(calls).chains| == Logins(calls)
  {
    if calls != [] {
      var before := calls[..|calls| - 1];
      RunLineage(before);
      StepLineage(StoreRun(before), calls[|calls| - 1]);
      ChainCount(StoreRun(before), calls[|calls| - 1]);
    }
  }

  lemma ChainCount(s: Store, c: Call)
    ensures var (s', o) := StoreStep(s, c); |s'.chains| == |s.chains| + if c.Login? && o.Issued? then 1 else 0
  {
  }

  /** Rotation makes disjoint chains: a token has one place, hence at most one successor and predecessor. */
  lemma ChainsDisjoint(calls: seq<Call>, c: nat, i: nat, d: nat, j: nat)
    requires var chains := StoreRun(calls).chains;
      && c < |chains| && i < |chains[c]| && d < |chains| && j < |chains[d]| && chains[c][i] == chains[d][j]
    ensures c == d && i == j
  {
    RunLineage(calls);
  }

  /** All tokens of a chain belong to the user who logged in. */
  lemma ChainHasOneOwner(calls: seq<Call>, c: nat, i: nat)
    requires var chains := StoreRun(calls).chains; c < |chains| && i < |chains[c]|
    ensures var s := StoreRun(calls); var t := s.chains[c][i];
      t in s.rows && s.rows[t].user == t.sub == s.chains[c][0].sub
  {
    RunLineage(calls);
    assert TokenOk(StoreRun(calls), StoreRun(calls).chains[c][i]);
  }

  /** At most one token of each login chain is unrevoked: the last. */
  lemma OneLivePerChain(calls: seq<Call>, c: nat, i: nat)
    requires var s := StoreRun(calls);
      && c < |s.chains| && i < |s.chains[c]|
      && s.chains[c][i] in s.rows && !s.rows[s.chains[c][i]].revoked
    ensures i == |StoreRun(calls).chains[c]| - 1
  {
    RunLineage(calls);
    assert TokenOk(StoreRun(calls), StoreRun(calls).chains[c][i]);
  }

  function Unrevoked(s: Store): set<Token> { set t | t in s.rows && !s.rows[t].revoked }

  function Ends(chains: seq<seq<Token>>): set<Token> {
    if chains == [] then {}
    else
      var chain := chains[|chains| - 1];
      Ends(chains[..|chains| - 1]) + (if chain == [] then {} else {chain[|chain| - 1]})
  }

  lemma {:induction false} EndsBound(chains: seq<seq<Token>>)
    ensures |Ends(chains)| <= |chains|
  {
    if chains != [] {
      EndsBound(chains[..|chains| - 1]);
    }
  }

  lemma {:induction false} EndsContain(chains: seq<seq<Token>>, c: nat)
    requires c < |chains| && chains[c] != []
    ensures chains[c][|chains[c]| - 1] in Ends(chains)
  {
    if c < |chains| - 1 {
      EndsContain(chains[..|chains| - 1], c);
    }
  }

  lemma {:induction false} SubsetBound(a: set<Token>, b: set<Token>)
    requires a <= b
    ensures |a| <= |b|
  {
    if a != {} {
      var t :| t in a;
      SubsetBound(a - {t}, b - {t});
      assert |a| == |a - {t}| + 1 && |b| == |b - {t}| + 1;
    }
  }

  lemma LiveIsEnd(s: Store, t: Token)
    requires Lineage(s) && t in s.rows && !s.rows[t].revoked
    ensures t in Ends(s.chains)
  {
    assert TokenOk(s, t);
    EndsContain(s.chains, s.place[t].0);
  }

  lemma LiveAtMostChains(s: Store)
    requires Lineage(s)
    ensures |Unrevoked(s)| <= |s.chains|
  {
    forall t | t in Unrevoked(s)
      ensures t in Ends(s.chains)
    {
      LiveIsEnd(s, t);
    }
    SubsetBound(Unrevoked(s), Ends(s.chains));
    EndsBound(s.chains);
  }

  /** There are never more unrevoked tokens than successful logins. */
  lemma UnrevokedAtMostLogins(calls: seq<Call>)
    ensures |Unrevoked(StoreRun(calls))| <= Logins(calls)
  {
    RunLineage(calls);
    LiveAtMostChains(StoreRun(calls));
  }

  // ---- A token is rotated at most once

  lemma RevokedForever(s: Store, c: Call, t: Token)
    requires t in s.rows && s.rows[t].revoked
    ensures var s' := StoreStep(s, c).0; t in s'.rows && s'.rows[t].revoked
  {
  }

  lemma {:induction false} RevokedThroughout(s: Store, calls: seq<Call>, more: seq<Call>, t: Token)
    requires s == StoreRun(calls) && t in s.rows && s.rows[t].revoked
    ensures var s' := StoreRun(calls + more); t in s'.rows && s'.rows[t].revoked
  {
    if more == [] {
      assert calls + more == calls;
    } else {
      var before := more[..|more| - 1];
      RevokedThroughout(s, calls, before, t);
      assert (calls + more)[..|calls + more| - 1] == calls + before;
      RevokedForever(StoreRun(calls + before), more[|more| - 1], t);
    }
  }

  /** Whatever happens after a rotation succeeded, or was refused on saving the successor, the old token
      never yields another one. */
  lemma RotatedAtMostOnce(calls: seq<Call>, prev: Token, now: int, more: seq<Call>, later: int, signed: bool)
    requires prev in StoreRun(calls).rows && prev.exp > now
    ensures StoreStep(StoreRun(calls + [Rotate(prev, true, now)] + more), Rotate(prev, signed, later)).1 == Denied
  {
    var first := calls + [Rotate(prev, true, now)];
    assert first[..|first| - 1] == calls;
    RevokedThroughout(StoreRun(first), first, more, prev);
  }

  // ---- When a token is issued

  /** A login issues a token if and only if the password is right and the user got no token in this second: the
      token is the user's, it and its row expire in seven days, and it is not revoked. A refused login changes
      nothing. */
  lemma LoginSucceedsExactly(s: Store, user: nat, passwordOk: bool, now: int)
    ensures var (s', o) := LoginStep(s, user, passwordOk, now); var t := Token(user, now + 604800);
      && (o.Issued? <==> passwordOk && t !in s.rows)
      && (o.Issued? ==> o.token == t && s'.rows == s.rows[t := TokenRow(user, now + 604800, false)])
      && (!o.Issued? ==> o == Denied && s' == s)
  {
  }

  /** A rotation that issues a token revokes the old one and adds the new one, again for seven days. */
  lemma RotationIssues(s: Store, prev: Token, signed: bool, now: int)
    ensures var (s', o) := RotateStep(s, prev, signed, now); var t := Token(prev.sub, now + 604800);
      o.Issued? ==>
        && o.token == t && prev in s.rows && t !in s.rows
        && s'.rows == s.rows[prev := s.rows[prev].(revoked := true)][t := TokenRow(prev.sub, now + 604800, false)]
  {
  }

  /** A rotation that issues nothing leaves all rows alone if the token is forged or expired; otherwise the old
      token, valid or not, ends revoked, and no other row changes. */
  lemma RotationRefused(s: Store, prev: Token, signed: bool, now: int)
    ensures var (s', o) := RotateStep(s, prev, signed, now);
      !o.Issued? ==>
        && o == Denied && s'.chains == s.chains && s'.rows.Keys == s.rows.Keys
        && forall u :: u in s.rows ==>
             s'.rows[u] == if u == prev && signed && prev.exp > now then s.rows[u].(revoked := true) else s.rows[u]
  {
  }

  /** Revoking a token revokes it and nothing else; an unknown token is an error. */
  lemma RevocationExactly(s: Store, t: Token)
    ensures var (s', o) := StoreStep(s, Revoke(t));
      && (o == if t in s.rows then Done else Denied)
      && s'.rows.Keys == s.rows.Keys && s'.chains == s.chains
      && forall u :: u in s.rows ==> s'.rows[u] == if u == t then s.rows[u].(revoked := true) else s.rows[u]
  {
  }

  /** The login behind a chain: a call with the right password that issued the chain's first token. */
  ghost predicate BegunBy(calls: seq<Call>, first: Token, i: nat) {
    i < |calls| && calls[i].Login? && calls[i].passwordOk && calls[i].user == first.sub && IssuedAt(calls, i, first)
  }

  /** On every run each chain begins with a token that a login with the right password issued. */
  lemma {:induction false} ChainsBeginWithLogins(calls: seq<Call>, c: nat)
    requires c < |StoreRun(calls).chains| && StoreRun(calls).chains[c] != []
    ensures exists i: nat :: BegunBy(calls, StoreRun(calls).chains[c][0], i)
  {
    if calls != [] {
      var n := |calls| - 1;
      var before := calls[..n];
      RunLineage(before);
      FirstStays(StoreRun(before), calls[n], c);
      if c < |StoreRun(before).chains| {
        ChainsBeginWithLogins(before, c);
        var i: nat :| BegunBy(before, StoreRun(before).chains[c][0], i);
        assert before[..i] == calls[..i];
        assert BegunBy(calls, StoreRun(calls).chains[c][0], i);
      } else {
        assert BegunBy(calls, StoreRun(calls).chains[c][0], n);
      }
    }
  }

  /** A step keeps the first token of every chain; only a login that succeeds opens a chain. */
  lemma FirstStays(s: Store, call: Call, c: nat)
    requires (forall k :: 0 <= k < |s.chains| ==> s.chains[k] != []) && c < |StoreStep(s, call).0.chains|
    ensures var (s', o) := StoreStep(s, call);
      if c < |s.chains| then s'.chains[c] != [] && s'.chains[c][0] == s.chains[c][0]
      else call.Login? && call.passwordOk && o.Issued? && s'.chains[c] == [o.token] && o.token.sub == call.user
  {
  }

  /** The call of that place in the run issued the token. */
  predicate IssuedAt(calls: seq<Call>, i: nat, t: Token) {
    i < |calls| && StoreStep(StoreRun(calls[..i]), calls[i]).1 == Issued(t)
  }

  ghost predicate WasIssued(calls: seq<Call>, t: Token) { exists i: nat :: IssuedAt(calls, i, t) }

  lemma StepRows(s: Store, c: Call, t: Token)
    ensures var (s', o) := StoreStep(s, c); t in s'.rows <==> t in s.rows || o == Issued(t)
  {
  }

  /** On every run the table holds exactly the tokens some login or rotation issued. */
  lemma {:induction false} TokensAreIssued(calls: seq<Call>, t: Token)
    ensures t in StoreRun(calls).rows <==> WasIssued(calls, t)
  {
    if calls != [] {
      var n := |calls| - 1;
      TokensAreIssued(calls[..n], t);
      StepRows(StoreRun(calls[..n]), calls[n], t);
      forall i: nat | i < n
        ensures IssuedAt(calls, i, t) <==> IssuedAt(calls[..n], i, t)
      {
        assert calls[..n][..i] == calls[..i];
      }
      assert IssuedAt(calls, n, t) <==> StoreStep(StoreRun(calls[..n]), calls[n]).1 == Issued(t);
    }
  }

  /** No token of the chain of t is unrevoked. */
  ghost predicate LoggedOut(s: Store, t: Token) {
    && t in s.place && s.place[t].0 < |s.chains|
    && forall i :: 0 <= i < |s.chains[s.place[t].0]| ==>
         s.chains[s.place[t].0][i] in s.rows && s.rows[s.chains[s.place[t].0][i]].revoked
  }

  /** A rotation issues a token if and only if the old one is signed and valid and the new one is not in the
      table yet. If that is all it fails on, the login chain is left without an unrevoked token. */
  lemma RotationSucceedsExactly(s: Store, prev: Token, signed: bool, now: int)
    requires Lineage(s)
    ensures var (s', o) := RotateStep(s, prev, signed, now);
      && (o.Issued? <==>
            && signed && prev.exp > now && prev in s.rows && !s.rows[prev].revoked && s.rows[prev].expiresAt > now
            && Token(prev.sub, now + 604800) !in s.rows)
      && (signed && prev.exp > now && IsLive(s.rows, prev, now) && !o.Issued? ==> o == Denied && LoggedOut(s', prev))
  {
    var s' := RotateStep(s, prev, signed, now).0;
    if IsLive(s.rows, prev, now) {
      assert TokenOk(s, prev);
      var chain := s.chains[s.place[prev].0];
      forall i | 0 <= i < |chain| && s'.chains == s.chains
        ensures chain[i] in s'.rows && (s'.rows == MarkRevoked(s.rows, prev) ==> s'.rows[chain[i]].revoked)
      {
        assert TokenOk(s, chain[i]);
      }
    }
  }

  /** On every run: rotating a valid token fails if and only if the user was issued a token in this very second,
      by any login or rotation. */
  lemma RotationFailsExactly(calls: seq<Call>, prev: Token, now: int)
    requires IsLive(StoreRun(calls).rows, prev, now) && prev.exp > now
    ensures var (s', o) := RotateStep(StoreRun(calls), prev, true, now);
      && (!o.Issued? <==> WasIssued(calls, Token(prev.sub, now + 604800)))
      && (!o.Issued? ==> LoggedOut(s', prev))
  {
    RunLineage(calls);
    RotationSucceedsExactly(StoreRun(calls), prev, true, now);
    TokensAreIssued(calls, Mint(prev.sub, now));
  }

  /** A rotation within the second of the token's own minting fails on the unique token and logs the user
      out: the chain is left without an unrevoked token. */
  lemma SameSecondRotationFails(s: Store, user: nat, now: int)
    requires Lineage(s) && Mint(user, now) !in s.rows
    ensures var (s1, issued) := LoginStep(s, user, true, now);
      && issued == Issued(Mint(user, now))
      && var (s2, again) := RotateStep(s1, issued.token, true, now);
         again == Denied && s2.rows[issued.token].revoked && s2.chains == s1.chains && LoggedOut(s2, issued.token)
  {
    LoginKeeps(s, user, true, now);
    RotationSucceedsExactly(LoginStep(s, user, true, now).0, Mint(user, now), true, now);
  }

  /** So does the rotation of an older token in the second of another login of the same user: the other device's
      login goes through, this one is logged out. */
  lemma OtherLoginFailsRotation(s: Store, prev: Token, now: int)
    requires Lineage(s) && IsLive(s.rows, prev, now) && prev.exp > now && Mint(prev.sub, now) !in s.rows
    ensures var (s1, issued) := LoginStep(s, prev.sub, true, now);
      && issued == Issued(Mint(prev.sub, now)) && issued.token != prev
      && var (s2, o) := RotateStep(s1, prev, true, now);
         o == Denied && LoggedOut(s2, prev) && IsLive(s2.rows, issued.token, now)
  {
    LoginKeeps(s, prev.sub, true, now);
    RotationSucceedsExactly(LoginStep(s, prev.sub, true, now).0, prev, true, now);
  }
}
