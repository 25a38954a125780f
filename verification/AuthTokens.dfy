/** Refresh-token rotation as a sequential state machine (src/auth/auth.service.ts). */
module AuthTokens {
  import opened Prelude

  datatype TokenKind = Access | Refresh

  /** A decoded JWT; `exp` in milliseconds. */
  datatype Token = Token(kind: TokenKind, sub: string, jti: Option<nat>, exp: int)

  /** The HMAC of a token, taken to be collision-free. */
  datatype Hash = Hash(token: Token)

  datatype User = User(active: bool, refreshToken: Option<Hash>)

  /** `issued` lists refresh tokens in order; `redeemed` and `interrupted` are history. */
  datatype State = State(
    users: map<string, User>,
    blacklist: map<nat, int>,      // jti to the time its entry expires
    issued: seq<Token>,
    nextJti: nat,
    now: int,
    redeemed: seq<Token>,
    interrupted: set<nat>,         // jtis whose rotation failed after they were blacklisted
    presented: set<nat>            // jtis handed to logout
  )

  datatype Error = InvalidOrExpired | AccessDenied | NotActive | BadFormat | Revoked

  datatype Tokens = Tokens(accessToken: Token, refreshToken: Token)

  const ACCESS_TTL_MS := 15 * 60 * 1000
  const REFRESH_TTL_MS := 7 * 24 * 60 * 60 * 1000

  // ---- Pieces ------------------------------------------------------------

  /** `jwtService.verify`: only tokens this service signed as refresh tokens pass, until they expire. */
  predicate Verifies(st: State, token: Token) { token in st.issued && st.now < token.exp }

  predicate IsBlacklisted(st: State, jti: nat) { jti in st.blacklist && st.now < st.blacklist[jti] }

  /** The entry lives for the remaining time, rounded up to whole seconds. */
  function EntryExpiry(now: int, remainingMs: int): int { now + (remainingMs + 999) / 1000 * 1000 }

  function NewTokens(st: State, u: string): Tokens {
    Tokens(Token(Access, u, Some(st.nextJti), st.now + ACCESS_TTL_MS),
           Token(Refresh, u, Some(st.nextJti + 1), st.now + REFRESH_TTL_MS))
  }

  function WithHash(users: map<string, User>, u: string, hash: Option<Hash>): map<string, User> {
    if u in users then users[u := users[u].(refreshToken := hash)] else users
  }

  function Issue(st: State, u: string): (State, Tokens) {
    var tokens := NewTokens(st, u);
    (st.(users := WithHash(st.users, u, Some(Hash(tokens.refreshToken))),
         issued := st.issued + [tokens.refreshToken], nextJti := st.nextJti + 2),
     tokens)
  }

  // ---- What each operation should do -------------------------------------

  function LoggedIn(st: State, u: string): (State, Result<Tokens, Error>) {
    if u !in st.users || !st.users[u].active then (st, Err(NotActive))
    else var (next, tokens) := Issue(st, u); (next, Ok(tokens))
  }

  /** `fails`: signing the new tokens throws, after the old token was blacklisted. */
  function Refreshed(st: State, token: Token, fails: bool): (State, Result<Tokens, Error>) {
    if !Verifies(st, token) then (st, Err(InvalidOrExpired))
    else if token.sub !in st.users || st.users[token.sub].refreshToken.None? then (st, Err(AccessDenied))
    else if !st.users[token.sub].active then (st, Err(NotActive))
    else if st.users[token.sub].refreshToken != Some(Hash(token)) then (st, Err(AccessDenied))
    else if token.jti.None? then (st, Err(BadFormat))
    else if IsBlacklisted(st, token.jti.value) then
      (st.(users := WithHash(st.users, token.sub, None)), Err(Revoked))
    else
      var blocked := st.(blacklist := st.blacklist[token.jti.value := EntryExpiry(st.now, token.exp - st.now)]);
      if fails then (blocked.(interrupted := st.interrupted + {token.jti.value}), Err(InvalidOrExpired))
      else
        var (next, tokens) := Issue(blocked, token.sub);
        (next.(redeemed := st.redeemed + [token]), Ok(tokens))
  }

  /** The given token is only decoded, not verified. */
  function LoggedOut(st: State, u: string, given: Option<Token>): State {
    var blocked :=
      if given.Some? && given.value.jti.Some? && given.value.exp - st.now > 0 then
        st.(blacklist := st.blacklist[given.value.jti.value := EntryExpiry(st.now, given.value.exp - st.now)],
            presented := st.presented + {given.value.jti.value})
      else st;
    blocked.(users := WithHash(st.users, u, None))
  }

  class AuthService {
    var users: map<string, User>
    var blacklist: map<nat, int>
    var issued: seq<Token>
    var nextJti: nat
    var now: int
    ghost var redeemed: seq<Token>
    ghost var interrupted: set<nat>
    ghost var presented: set<nat>

    constructor (users: map<string, User>, now: int)
      ensures Current() == State(users, map[], [], 0, now, [], {}, {})
    {
      this.users, blacklist, issued, nextJti, this.now := users, map[], [], 0, now;
      redeemed, interrupted, presented := [], {}, {};
    }

    ghost function Current(): State
      reads this
    {
      State(users, blacklist, issued, nextJti, now, redeemed, interrupted, presented)
    }

    method AddToBlacklist(jti: nat, expiresInMs: int)
      modifies this`blacklist
      ensures blacklist == old(blacklist)[jti := EntryExpiry(now, expiresInMs)]
    {
      var ttlSeconds := (expiresInMs + 999) / 1000;
      blacklist := blacklist[jti := now + ttlSeconds * 1000];
    }

    method RevokeUserTokens(u: string)
      modifies this`users
      ensures users == WithHash(old(users), u, None)
    {
      if u in users { users := users[u := users[u].(refreshToken := None)]; }
    }

    method UpdateRefreshTokenHash(u: string, token: Token)
      modifies this`users
      ensures users == WithHash(old(users), u, Some(Hash(token)))
    {
      if u in users { users := users[u := users[u].(refreshToken := Some(Hash(token)))]; }
    }

    method GenerateTokens(u: string) returns (tokens: Tokens)
      modifies this`issued, this`nextJti
      ensures tokens == NewTokens(old(Current()), u)
      ensures issued == old(issued) + [tokens.refreshToken] && nextJti == old(nextJti) + 2
    {
      var accessJti, refreshJti := nextJti, nextJti + 1;
      nextJti := nextJti + 2;
      tokens := Tokens(Token(Access, u, Some(accessJti), now + ACCESS_TTL_MS),
                       Token(Refresh, u, Some(refreshJti), now + REFRESH_TTL_MS));
      issued := issued + [tokens.refreshToken];
    }

    method Login(u: string) returns (r: Result<Tokens, Error>)
      modifies this
      ensures (Current(), r) == LoggedIn(old(Current()), u)
    {
      if u !in users || !users[u].active { return Err(NotActive); }
      var tokens := GenerateTokens(u);
      UpdateRefreshTokenHash(u, tokens.refreshToken);
      r := Ok(tokens);
    }

    method RefreshTokens(token: Token, fails: bool) returns (r: Result<Tokens, Error>)
      modifies this
      ensures (Current(), r) == Refreshed(old(Current()), token, fails)
    {
      if token !in issued || now >= token.exp { return Err(InvalidOrExpired); }
      var u := token.sub;
      if u !in users || users[u].refreshToken.None? { return Err(AccessDenied); }
      if !users[u].active { return Err(NotActive); }
      if Hash(token) != users[u].refreshToken.value { return Err(AccessDenied); }
      if token.jti.None? { return Err(BadFormat); }
      var jti := token.jti.value;
      if jti in blacklist && now < blacklist[jti] {
        RevokeUserTokens(u);
        return Err(Revoked);
      }
      var expiresInMs := token.exp - now;
      if expiresInMs > 0 {
        AddToBlacklist(jti, expiresInMs);
      }
      if fails {
        interrupted := interrupted + {jti};
        return Err(InvalidOrExpired);
      }
      var tokens := GenerateTokens(u);
      UpdateRefreshTokenHash(u, tokens.refreshToken);
      redeemed := redeemed + [token];
      r := Ok(tokens);
    }

    method Logout(u: string, given: Option<Token>)
      modifies this
      ensures Current() == LoggedOut(old(Current()), u, given)
    {
      if given.Some? && given.value.jti.Some? {
        var remainingMs := given.value.exp - now;
        if remainingMs > 0 {
          AddToBlacklist(given.value.jti.value, remainingMs);
          presented := presented + {given.value.jti.value};
        }
      }
      RevokeUserTokens(u);
    }
  }
}
