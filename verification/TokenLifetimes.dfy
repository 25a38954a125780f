/** How long tokens and blacklist entries last, and what each call answers (src/auth/auth.service.ts). */
module TokenLifetimes {
  import opened Prelude
  import opened AuthTokens
  import opened TokenRotation

  /** An entry made for a living token outlasts it, by less than a second. */
  lemma EntryCoversToken(now: int, exp: int)
    requires now < exp
    ensures exp <= EntryExpiry(now, exp - now) < exp + 1000
  {}

  // ---- Redeemed tokens ---------------------------------------------------

  /** The id stays listed until the token expires, unless logout was handed it as well. */
  predicate ListedOut(st: State, t: Token) {
    t.jti.Some? &&
    (t.jti.value in st.presented || (t.jti.value in st.blacklist && t.exp <= st.blacklist[t.jti.value]))
  }

  ghost predicate RedeemedListed(st: State) { forall t :: t in st.redeemed ==> ListedOut(st, t) }

  lemma SameIdSameToken(st: State, t: Token, u: Token)
    requires IdsFresh(st) && t in st.issued && u in st.issued && t.jti == u.jti
    ensures t == u
  {
    var i :| 0 <= i < |st.issued| && st.issued[i] == t;
    var k :| 0 <= k < |st.issued| && st.issued[k] == u;
    assert !(i < k) && !(k < i);
  }

  lemma RefreshListed(st: State, token: Token, fails: bool)
    requires Sound(st) && RedeemedListed(st)
    ensures RedeemedListed(Refreshed(st, token, fails).0)
  {
    var next := Refreshed(st, token, fails).0;
    if next.blacklist != st.blacklist || next.redeemed != st.redeemed {
      EntryCoversToken(st.now, token.exp);
      forall t | t in next.redeemed ensures ListedOut(next, t) {
        if t in st.redeemed {
          assert ListedOut(st, t);
          if t.jti == token.jti { SameIdSameToken(st, t, token); }
        }
      }
    } else {
      forall t | t in next.redeemed ensures ListedOut(next, t) { assert ListedOut(st, t); }
    }
  }

  lemma OthersListed(st: State, a: Action)
    requires RedeemedListed(st) && !a.RefreshWith?
    ensures RedeemedListed(Step(st, a))
  {
    forall t | t in Step(st, a).redeemed ensures ListedOut(Step(st, a), t) { assert ListedOut(st, t); }
  }

  lemma {:induction false} RunListed(actions: seq<Action>)
    ensures RedeemedListed(Run(START, actions))
  {
    if actions != [] {
      var n := |actions| - 1;
      RunListed(actions[..n]);
      RunSound(START, actions[..n]);
      var st := Run(START, actions[..n]);
      match actions[n]
      case RefreshWith(token, fails) => RefreshListed(st, token, fails);
      case _ => OthersListed(st, actions[n]);
    }
  }

  /** In every run a redeemed token's id is blacklisted until the token itself expires. */
  lemma RedeemedStaysBlacklisted(actions: seq<Action>, t: Token)
    ensures var st := Run(START, actions);
            t in st.redeemed && t.jti.Some? && t.jti.value !in st.presented && st.now < t.exp ==>
              IsBlacklisted(st, t.jti.value)
  {
    RunListed(actions);
    if t in Run(START, actions).redeemed { assert ListedOut(Run(START, actions), t); }
  }

  // ---- Each call ---------------------------------------------------------

  /** Login answers an active account, and only that. */
  lemma LoginExactly(st: State, u: string)
    ensures var (next, r) := LoggedIn(st, u);
            (r.Ok? <==> u in st.users && st.users[u].active) && (r.Err? ==> next == st && r.error == NotActive) &&
            (r.Ok? ==>
               r.value.accessToken.kind == Access && r.value.refreshToken.kind == Refresh &&
               r.value.accessToken.sub == r.value.refreshToken.sub == u &&
               r.value.accessToken.jti != r.value.refreshToken.jti && Live(next, r.value.refreshToken) &&
               r.value.accessToken.exp == st.now + 15 * 60 * 1000)
  {}

  /** The refresh token just issued can be redeemed for seven days less a millisecond, and no longer. */
  lemma FreshTokenLives(actions: seq<Action>, u: string, ms: nat)
    requires var st := Run(START, actions); u in st.users && st.users[u].active && st.nextJti + 1 !in st.presented
    ensures var (next, r) := LoggedIn(Run(START, actions), u);
            Redeemable(Step(next, Wait(ms)), r.value.refreshToken) <==> ms < 7 * 24 * 60 * 60 * 1000
  {
    RunSound(START, actions);
  }

  predicate Passes(st: State, token: Token) { token in st.issued && st.now < token.exp }

  /** Every refusal of `refreshTokens`, by its cause; the causes are tried in this order. */
  lemma RefreshRefusedExactly(st: State, token: Token, fails: bool)
    ensures var r := Refreshed(st, token, fails).1;
            var known := token.sub in st.users && st.users[token.sub].refreshToken.Some?;
            var active := known && st.users[token.sub].active;
            var mine := active && Live(st, token);
            (r == Err(AccessDenied) <==> Passes(st, token) && (!known || (active && !mine))) &&
            (r == Err(NotActive) <==> Passes(st, token) && known && !active) &&
            (r == Err(BadFormat) <==> Passes(st, token) && mine && token.jti.None?) &&
            (r == Err(Revoked) <==> Passes(st, token) && mine && token.jti.Some? && IsBlacklisted(st, token.jti.value)) &&
            (r == Err(InvalidOrExpired) <==> !Passes(st, token) || (fails && Redeemable(st, token)))
  {}

  /** A completed rotation stores the new refresh token in place of the old one, and records the redemption. */
  lemma RotationRenews(st: State, token: Token)
    ensures var (next, r) := Refreshed(st, token, false);
            r.Ok? ==>
              var renewed := r.value.refreshToken;
              Live(next, renewed) && renewed.sub == token.sub && renewed.jti == Some(st.nextJti + 1) &&
              renewed.exp == st.now + REFRESH_TTL_MS && next.issued == st.issued + [renewed] &&
              next.redeemed == st.redeemed + [token] && r.value.accessToken.sub == token.sub &&
              r.value.accessToken.kind == Access
  {}

  /** So what a redemption answers can be redeemed in turn, until it expires. */
  lemma RotationGoesOn(actions: seq<Action>, token: Token, ms: nat)
    requires Redeemable(Run(START, actions), token)
    requires Run(START, actions).nextJti + 1 !in Run(START, actions).presented
    ensures RenewalLives(Run(START, actions), token, ms)
  {
    RunIdsFresh(actions);
    RenewedLives(Run(START, actions), token, ms);
  }

  /** The token redeems, and `ms` later the one it was exchanged for redeems exactly within seven days. */
  predicate RenewalLives(st: State, token: Token, ms: nat) {
    var (next, r) := Refreshed(st, token, false);
    r.Ok? && (Redeemable(Step(next, Wait(ms)), r.value.refreshToken) <==> ms < 7 * 24 * 60 * 60 * 1000)
  }

  lemma RunIdsFresh(actions: seq<Action>)
    ensures IdsFresh(Run(START, actions))
  {
    RunSound(START, actions);
  }

  lemma RedeemableIsIssued(st: State, token: Token)
    requires IdsFresh(st) && Redeemable(st, token)
    ensures token in st.issued && token.jti.Some? && token.jti.value < st.nextJti
  {
    IdBelowNext(st, token);
  }

  lemma RenewedLives(st: State, token: Token, ms: nat)
    requires IdsFresh(st) && Redeemable(st, token) && st.nextJti + 1 !in st.presented
    ensures RenewalLives(st, token, ms)
  {
    RedeemableIsIssued(st, token);
    var (next, r) := Refreshed(st, token, false);
    var renewed := r.value.refreshToken;
    assert Live(next, renewed) && renewed in next.issued && renewed.jti == Some(st.nextJti + 1) &&
           renewed.sub == token.sub && renewed.exp == st.now + REFRESH_TTL_MS by { RotationRenews(st, token); }
    assert st.nextJti + 1 !in next.blacklist && next.now == st.now && next.users[token.sub].active by {
      RenewedUnlisted(st, token);
    }
    LivesUntilExpiry(next, renewed, ms);
  }

  lemma RenewedUnlisted(st: State, token: Token)
    requires IdsFresh(st) && Redeemable(st, token) && token.jti.Some? && token.jti.value < st.nextJti
    requires st.nextJti + 1 !in st.presented
    ensures var next := Refreshed(st, token, false).0;
            st.nextJti + 1 !in next.blacklist && next.now == st.now && token.sub in next.users && next.users[token.sub].active
  {}

  /** A stored token whose id is not listed redeems exactly until it expires. */
  lemma LivesUntilExpiry(st: State, t: Token, ms: nat)
    requires Live(st, t) && t in st.issued && st.users[t.sub].active && t.jti.Some? && t.jti.value !in st.blacklist
    ensures Redeemable(Step(st, Wait(ms)), t) <==> st.now + ms < t.exp
  {}

  lemma IdBelowNext(st: State, token: Token)
    requires IdsFresh(st) && token in st.issued
    ensures token.jti.Some? && token.jti.value < st.nextJti
  {
    var i :| 0 <= i < |st.issued| && st.issued[i] == token;
  }

  /** A reuse that is noticed ends the user's session; a refusal otherwise changes nothing. */
  lemma RefusalChanges(st: State, token: Token)
    ensures var (next, r) := Refreshed(st, token, false);
            (r == Err(Revoked) ==> next == st.(users := WithHash(st.users, token.sub, None)) && !Live(next, token)) &&
            (r.Err? && r.error != Revoked ==> next == st)
  {}

  /** Logout forgets the user's hash and lists the given id until its own expiry; other users keep theirs. */
  lemma LogoutExactly(st: State, u: string, given: Option<Token>)
    ensures var next := LoggedOut(st, u, given);
            (u in st.users ==> next.users[u] == User(st.users[u].active, None)) &&
            (given.Some? && given.value.jti.Some? && st.now < given.value.exp ==>
               given.value.jti.value in next.blacklist && given.value.exp <= next.blacklist[given.value.jti.value]) &&
            (forall j :: !(given.Some? && given.value.jti == Some(j)) ==>
               (j in next.blacklist <==> j in st.blacklist) && (j in st.blacklist ==> next.blacklist[j] == st.blacklist[j]))
  {
    if given.Some? && st.now < given.value.exp { EntryCoversToken(st.now, given.value.exp); }
  }

  function Subject(a: Action): Option<string> {
    match a
    case Login(u) => Some(u)
    case RefreshWith(token, _) => Some(token.sub)
    case Logout(u, _) => Some(u)
    case SetUser(u, _) => Some(u)
    case Wait(_) => None
  }

  /** No call touches another user's account or session. */
  lemma OthersKeepSession(st: State, a: Action, v: string)
    requires Subject(a) != Some(v)
    ensures v in Step(st, a).users <==> v in st.users
    ensures v in st.users ==> Step(st, a).users[v] == st.users[v]
    ensures LastTo(Step(st, a).issued, v) == LastTo(st.issued, v)
  {
    match a
    case Login(u) => LastToAppend(st.issued, NewTokens(st, u).refreshToken, v);
    case RefreshWith(token, _) => LastToAppend(st.issued, NewTokens(st, token.sub).refreshToken, v);
    case _ =>
  }
}
