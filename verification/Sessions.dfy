/** The session object: its throttle table and its tokens, both pruned in place,
    and what a token's validity comes to over a history of calls. */
module Sessions {
  import opened Common
  import opened Throttle

  type Tokens = map<string, nat>

  function Expire(tokens: Tokens, now: nat): Tokens {
    map t | t in tokens && now <= tokens[t] :: tokens[t]
  }

  datatype TokenOp = Grant(token: string) | Logout(token: string) | RevokeAll

  datatype Dated = Dated(op: TokenOp, at: nat)

  function Changed(tokens: Tokens, d: Dated, ttl: nat): Tokens {
    match d.op
    case Grant(token) => Expire(tokens, d.at)[token := d.at + ttl]
    case Logout(token) => tokens - {token}
    case RevokeAll => map[]
  }

  function TokensAfter(calls: seq<Dated>, ttl: nat): Tokens {
    if calls == [] then map[]
    else Changed(TokensAfter(calls[..|calls| - 1], ttl), calls[|calls| - 1], ttl)
  }

  predicate IsValid(tokens: Tokens, token: string, now: nat) {
    token in tokens && now < tokens[token]
  }

  /** The history's verdict: when the token's last grant runs out, unless it was
      logged out or everything revoked since. */
  function ExpiryOf(calls: seq<Dated>, token: string, ttl: nat): Option<nat> {
    if calls == [] then None
    else
      var d := calls[|calls| - 1];
      if d.op == Grant(token) then Some(d.at + ttl)
      else if d.op == Logout(token) || d.op.RevokeAll? then None
      else ExpiryOf(calls[..|calls| - 1], token, ttl)
  }

  predicate DatesInOrder(calls: seq<Dated>) {
    forall i, j :: 0 <= i < j < |calls| ==> calls[i].at <= calls[j].at
  }

  function LastDate(calls: seq<Dated>): nat {
    if calls == [] then 0 else calls[|calls| - 1].at
  }

  /** The table never holds a wrong expiry, and lacks only what has run out. */
  lemma {:induction false} TokensTrack(calls: seq<Dated>, token: string, ttl: nat, now: nat)
    requires DatesInOrder(calls) && LastDate(calls) <= now
    ensures var tokens, expiry := TokensAfter(calls, ttl), ExpiryOf(calls, token, ttl);
      if token in tokens then expiry == Some(tokens[token]) else expiry == None || now > expiry.value
    decreases |calls|
  {
    if calls != [] {
      TokensTrack(calls[..|calls| - 1], token, ttl, calls[|calls| - 1].at);
    }
  }

  /** Granted, not run out, and neither logged out nor revoked since. */
  predicate Stands(calls: seq<Dated>, token: string, ttl: nat, now: nat) {
    ExpiryOf(calls, token, ttl).Some? && now < ExpiryOf(calls, token, ttl).value
  }

  /** A token is valid exactly when it was granted, has not run out, and was
      neither logged out nor revoked since; deleting expired entries does not
      show. */
  lemma {:induction false} ValidExact(calls: seq<Dated>, token: string, ttl: nat, now: nat)
    requires DatesInOrder(calls) && LastDate(calls) <= now
    ensures IsValid(TokensAfter(calls, ttl), token, now) <==> Stands(calls, token, ttl, now)
  {
    TokensTrack(calls, token, ttl, now);
  }

  function LastAsk(asks: seq<Timed>): nat {
    if asks == [] then 1 else asks[|asks| - 1].at
  }

  predicate AsksInOrder(asks: seq<Timed>) {
    InOrder(asks) && forall i :: 0 <= i < |asks| ==> asks[i].at > 0
  }

  lemma AskMore(asks: seq<Timed>, x: Timed)
    requires AsksInOrder(asks) && LastAsk(asks) <= x.at && x.at > 0
    ensures AsksInOrder(asks + [x])
    ensures After(asks + [x], true) == Call(After(asks, true).0, x.op, x.at, true)
  {
    hide Call;
    var xs := asks + [x];
    assert xs[|xs| - 1] == x && LastAsk(asks) >= 0;
    assert (asks + [x])[..|asks|] == asks;
  }

  lemma AsksMeaning(asks: seq<Timed>)
    requires AsksInOrder(asks)
    ensures InOrder(asks) && (forall i :: 0 <= i < |asks| ==> asks[i].at > 0) && LastAsk(asks) > 0
  {
  }

  lemma CallMore(calls: seq<Dated>, d: Dated, ttl: nat)
    requires DatesInOrder(calls) && LastDate(calls) <= d.at
    ensures DatesInOrder(calls + [d])
    ensures TokensAfter(calls + [d], ttl) == Changed(TokensAfter(calls, ttl), d, ttl)
  {
    hide Changed;
    assert (calls + [d])[..|calls|] == calls;
  }

  /** The object, with the histories of calls its tables stand for. Logging out,
      revoking and succeeding read no clock: they are dated like the call before. */
  class Sessions {
    const ttl: nat
    var tokens: Tokens
    var attempts: Table
    ghost var calls: seq<Dated>
    ghost var asks: seq<Timed>

    ghost predicate Tracks()
      reads this
    {
      && tokens == TokensAfter(calls, ttl) && DatesInOrder(calls)
      && attempts == After(asks, true).0 && AsksInOrder(asks)
    }

    constructor (ttl: nat)
      ensures Tracks() && this.ttl == ttl && calls == [] && asks == []
    {
      this.ttl := ttl;
      tokens, attempts := map[], map[];
      calls, asks := [], [];
    }

    method PruneAttempts(now: nat)
      modifies this`attempts
      ensures attempts == Prune(old(attempts), now)
    {
      var rest := attempts.Keys;
      while rest != {}
        invariant rest <= old(attempts).Keys
        invariant attempts == map ip | ip in old(attempts) && (ip in rest || !Expired(old(attempts)[ip], now)) :: old(attempts)[ip]
        decreases |rest|
      {
        var ip :| ip in rest;
        rest := rest - {ip};
        if Expired(attempts[ip], now) {
          attempts := attempts - {ip};
        }
      }
    }

    /** The answer is the one a table that is never pruned would give. */
    method LoginAllowed(ip: string, now: nat) returns (wait: nat, ok: bool)
      requires Tracks() && LastAsk(asks) <= now && now > 0
      modifies this`attempts, this`asks
      ensures Tracks() && asks == old(asks) + [Timed(Ask(ip), now)]
      ensures wait == After(asks, false).1 && ok == (wait == 0)
    {
      hide After, TokensAfter, AsksInOrder, DatesInOrder;
      PruneAttempts(now);
      AskMore(asks, Timed(Ask(ip), now));
      asks := asks + [Timed(Ask(ip), now)];
      AsksMeaning(asks);
      PruningUnobservable(asks);
      if ip in attempts && attempts[ip].lockedUntil > now {
        return attempts[ip].lockedUntil - now, false;
      }
      return 0, true;
    }

    method LoginFailed(ip: string, now: nat)
      requires Tracks() && LastAsk(asks) <= now && now > 0
      modifies this`attempts, this`asks
      ensures Tracks() && asks == old(asks) + [Timed(Fail(ip), now)]
    {
      hide After, TokensAfter, AsksInOrder, DatesInOrder;
      var rec := if ip in attempts then attempts[ip] else Attempts(0, 0, 0);
      if now > rec.windowEnds {
        rec := rec.(failures := 0, windowEnds := now + WINDOW);
      }
      rec := rec.(failures := rec.failures + 1);
      if rec.failures >= MAX_FAILURES {
        rec := rec.(lockedUntil := now + LOCKOUT, failures := 0);
      }
      assert rec == Counted(Recorded(attempts, ip), now);
      attempts := attempts[ip := rec];
      AskMore(asks, Timed(Fail(ip), now));
      asks := asks + [Timed(Fail(ip), now)];
    }

    method LoginSucceeded(ip: string)
      requires Tracks()
      modifies this`attempts, this`asks
      ensures Tracks() && asks == old(asks) + [Timed(Succeed(ip), LastAsk(old(asks)))]
    {
      hide After, TokensAfter, AsksInOrder, DatesInOrder;
      attempts := attempts - {ip};
      AsksMeaning(asks);
      AskMore(asks, Timed(Succeed(ip), LastAsk(asks)));
      asks := asks + [Timed(Succeed(ip), LastAsk(asks))];
    }

    method ExpireTokens(now: nat)
      modifies this`tokens
      ensures tokens == Expire(old(tokens), now)
    {
      var rest := tokens.Keys;
      while rest != {}
        invariant rest <= old(tokens).Keys
        invariant tokens == map t | t in old(tokens) && (t in rest || now <= old(tokens)[t]) :: old(tokens)[t]
        decreases |rest|
      {
        var t :| t in rest;
        rest := rest - {t};
        if now > tokens[t] {
          tokens := tokens - {t};
        }
      }
    }

    /** The token is 32 random bytes in base64; here the caller draws it. */
    method GrantToken(token: string, now: nat)
      requires Tracks() && LastDate(calls) <= now
      modifies this`tokens, this`calls
      ensures Tracks() && calls == old(calls) + [Dated(Grant(token), now)]
    {
      hide After, TokensAfter, AsksInOrder, DatesInOrder;
      ExpireTokens(now);
      tokens := tokens[token := now + ttl];
      CallMore(calls, Dated(Grant(token), now), ttl);
      calls := calls + [Dated(Grant(token), now)];
    }

    /** Whatever was deleted on the way, the answer is the history's. */
    method Valid(token: string, now: nat) returns (valid: bool)
      requires Tracks() && LastDate(calls) <= now
      ensures valid <==> Stands(calls, token, ttl, now)
    {
      hide After, TokensAfter, AsksInOrder, DatesInOrder;
      ValidExact(calls, token, ttl, now);
      return token in tokens && now < tokens[token];
    }

    method EndSession(token: string)
      requires Tracks()
      modifies this`tokens, this`calls
      ensures Tracks() && calls == old(calls) + [Dated(Logout(token), LastDate(old(calls)))]
    {
      hide After, TokensAfter, AsksInOrder, DatesInOrder;
      tokens := tokens - {token};
      CallMore(calls, Dated(Logout(token), LastDate(calls)), ttl);
      calls := calls + [Dated(Logout(token), LastDate(calls))];
    }

    method RevokeTokens()
      requires Tracks()
      modifies this`tokens, this`calls
      ensures Tracks() && calls == old(calls) + [Dated(RevokeAll, LastDate(old(calls)))]
    {
      hide After, TokensAfter, AsksInOrder, DatesInOrder;
      tokens := map[];
      CallMore(calls, Dated(RevokeAll, LastDate(calls)), ttl);
      calls := calls + [Dated(RevokeAll, LastDate(calls))];
    }
  }
}
