/** The token operations of the authentication service, in place over the RefreshToken table. */
module Auth {
  import opened RefreshTokens

  /** internals/service/auth_service.go over internals/repository/user_repository.go. chains and place
      record the lineage. */
  class AuthService {
    var rows: map<Token, TokenRow>
    ghost var chains: seq<seq<Token>>
    ghost var place: map<Token, (nat, nat)>

    ghost function Tokens(): Store
      reads this
    {
      Store(rows, chains, place)
    }

    constructor ()
      ensures Tokens() == NO_TOKENS && Lineage(Tokens())
    {
      rows, chains, place := map[], [], map[];
    }

    method SaveRefreshToken(user: nat, t: Token, now: int) returns (saved: bool)
      modifies this`rows
      ensures saved <==> t !in old(rows)
      ensures rows == if saved then old(rows)[t := TokenRow(user, now + WEEK, false)] else old(rows)
    {
      if t in rows {
        return false;
      }
      rows := rows[t := TokenRow(user, now + WEEK, false)];
      return true;
    }

    method RevokeRefreshToken(t: Token) returns (found: bool)
      modifies this`rows
      ensures found <==> t in old(rows)
      ensures rows == MarkRevoked(old(rows), t)
      ensures old(Lineage(Tokens())) ==> Lineage(Tokens())
    {
      if Lineage(Tokens()) { MarkRevokedKeeps(Tokens(), t); }
      found := t in rows;
      if found {
        rows := rows[t := rows[t].(revoked := true)];
      }
    }

    method Login(user: nat, passwordOk: bool, now: int) returns (o: Outcome)
      requires Lineage(Tokens())
      modifies this
      ensures (Tokens(), o) == LoginStep(old(Tokens()), user, passwordOk, now)
      ensures o.Issued? <==> passwordOk && Token(user, now + 604800) !in old(rows)
      ensures !o.Issued? ==> rows == old(rows)
      ensures Lineage(Tokens())
    {
      LoginKeeps(Tokens(), user, passwordOk, now);
      if !passwordOk {
        return Denied;
      }
      var t := Mint(user, now);
      var saved := SaveRefreshToken(user, t, now);
      if !saved {
        return Denied;
      }
      place := place[t := (|chains|, 0)];
      chains := chains + [[t]];
      return Issued(t);
    }

    /** signed stands for the signature check of jwt.Parse. */
    method RotateRefreshToken(prev: Token, signed: bool, now: int) returns (o: Outcome)
      requires Lineage(Tokens())
      modifies this
      ensures (Tokens(), o) == RotateStep(old(Tokens()), prev, signed, now)
      ensures Lineage(Tokens())
      ensures o.Issued? ==> prev in old(rows) && !old(rows)[prev].revoked && o.token.sub == prev.sub
    {
      RotateKeeps(Tokens(), prev, signed, now);
      if !signed || prev.exp <= now {
        return Denied;
      }
      var valid := IsLive(rows, prev, now);
      var _ := RevokeRefreshToken(prev);
      if !valid {
        return Denied;
      }
      var t := Mint(prev.sub, now);
      var saved := SaveRefreshToken(prev.sub, t, now);
      if !saved {
        return Denied;
      }
      assert TokenOk(old(Tokens()), prev);
      var k := place[prev].0;
      place, chains := place[t := (k, |chains[k]|)], chains[k := chains[k] + [t]];
      return Issued(t);
    }
  }
}
