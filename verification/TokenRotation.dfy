/** Whole-run guarantees of login, refresh and logout. */
module TokenRotation {
  import opened Prelude
  import opened AuthTokens

  datatype Action =
    | Login(u: string)
    | RefreshWith(token: Token, fails: bool)
    | Logout(u: string, given: Option<Token>)
    | SetUser(u: string, active: bool)       // an account appears or changes status
    | Wait(ms: nat)

  function Step(st: State, a: Action): State {
    match a
    case Login(u) => LoggedIn(st, u).0
    case RefreshWith(token, fails) => Refreshed(st, token, fails).0
    case Logout(u, given) => LoggedOut(st, u, given)
    case SetUser(u, active) =>
      st.(users := st.users[u := User(active, if u in st.users then st.users[u].refreshToken else None)])
    case Wait(ms) => st.(now := st.now + ms)
  }

  function Run(st: State, actions: seq<Action>): State {
    if actions == [] then st else Step(Run(st, actions[..|actions| - 1]), actions[|actions| - 1])
  }

  const START := State(map[], map[], [], 0, 0, [], {}, {})

  /** The newest refresh token issued to a user. */
  function LastTo(issued: seq<Token>, u: string): Option<Token> {
    if issued == [] then None
    else if issued[|issued| - 1].sub == u then Some(issued[|issued| - 1])
    else LastTo(issued[..|issued| - 1], u)
  }

  /** The user's stored hash is this token's. */
  predicate Live(st: State, token: Token) {
    token.sub in st.users && st.users[token.sub].refreshToken == Some(Hash(token))
  }

  // ---- Invariants --------------------------------------------------------

  ghost predicate IdsFresh(st: State) {
    (forall i :: 0 <= i < |st.issued| ==>
       st.issued[i].jti.Some? && st.issued[i].jti.value < st.nextJti) &&
    (forall i, k :: 0 <= i < k < |st.issued| ==> st.issued[i].jti.value < st.issued[k].jti.value) &&
    (forall j :: j in st.blacklist ==> j < st.nextJti || j in st.presented)
  }

  ghost predicate StoredIsLast(st: State) {
    forall u :: u in st.users && st.users[u].refreshToken.Some? ==>
      LastTo(st.issued, u) == Some(st.users[u].refreshToken.value.token)
  }

  ghost predicate RedeemedIsDead(st: State) {
    forall t :: t in st.redeemed ==> t in st.issued && !Live(st, t)
  }

  predicate NoRepeats(ts: seq<Token>) { forall i, k :: 0 <= i < k < |ts| ==> ts[i] != ts[k] }

  /** A stored token is blacklisted only if its own rotation broke off, or logout was handed its id. */
  ghost predicate BlacklistExplained(st: State) {
    forall u :: u in st.users && st.users[u].refreshToken.Some? ==>
      var t := st.users[u].refreshToken.value.token;
      t.jti.Some? && (t.jti.value in st.blacklist ==> t.jti.value in st.interrupted + st.presented)
  }

  ghost predicate Sound(st: State) {
    IdsFresh(st) && StoredIsLast(st) && RedeemedIsDead(st) && NoRepeats(st.redeemed) && BlacklistExplained(st)
  }

  lemma {:induction false} LastToIsIssued(issued: seq<Token>, u: string)
    ensures LastTo(issued, u).Some? ==> LastTo(issued, u).value in issued && LastTo(issued, u).value.sub == u
  {
    if issued != [] { LastToIsIssued(issued[..|issued| - 1], u); }
  }

  lemma LastToAppend(issued: seq<Token>, t: Token, u: string)
    ensures LastTo(issued + [t], u) == if t.sub == u then Some(t) else LastTo(issued, u)
  {
    assert (issued + [t])[..|issued|] == issued;
  }

  /** Taking stored tokens away, or moving the clock, keeps everything. */
  lemma FewerStored(st: State, next: State)
    requires Sound(st) && next.issued == st.issued && next.nextJti == st.nextJti
    requires next.blacklist == st.blacklist && next.redeemed == st.redeemed
    requires next.interrupted == st.interrupted && next.presented == st.presented
    requires forall u :: u in next.users && next.users[u].refreshToken.Some? ==>
               u in st.users && next.users[u].refreshToken == st.users[u].refreshToken
    ensures Sound(next)
  {
    forall t | t in next.redeemed ensures !Live(next, t) { assert !Live(st, t); }
  }

  lemma IssueFresh(st: State, u: string)
    requires IdsFresh(st)
    ensures IdsFresh(Issue(st, u).0)
    ensures forall i :: 0 <= i < |st.issued| ==> st.issued[i] != NewTokens(st, u).refreshToken
  {}

  /** A new token replaces the user's stored one. */
  lemma IssueSound(st: State, u: string)
    requires Sound(st) && u in st.users
    ensures Sound(Issue(st, u).0)
    ensures forall t :: t in st.issued ==> t.sub == u ==> !Live(Issue(st, u).0, t)
  {
    var (next, tokens) := Issue(st, u);
    IssueFresh(st, u);
    forall v | v in next.users && next.users[v].refreshToken.Some?
      ensures LastTo(next.issued, v) == Some(next.users[v].refreshToken.value.token)
    {
      LastToAppend(st.issued, tokens.refreshToken, v);
    }
    forall t | t in next.redeemed ensures t in next.issued && !Live(next, t) {
      assert t in st.issued && !Live(st, t);
    }
  }

  lemma BlockSound(st: State, jti: nat, expiry: int, interrupted: set<nat>, presented: set<nat>)
    requires Sound(st) && st.interrupted <= interrupted && st.presented <= presented
    requires jti in interrupted + presented && (jti < st.nextJti || jti in presented)
    ensures Sound(st.(blacklist := st.blacklist[jti := expiry], interrupted := interrupted, presented := presented))
  {
    var next := st.(blacklist := st.blacklist[jti := expiry], interrupted := interrupted, presented := presented);
    forall t | t in next.redeemed ensures t in next.issued && !Live(next, t) {
      assert !Live(st, t);
    }
  }

  /** A stored token is the user's newest, so it was issued, to that user. */
  lemma LiveIsIssued(st: State, token: Token)
    requires Sound(st) && Live(st, token)
    ensures token in st.issued && LastTo(st.issued, token.sub) == Some(token)
  {
    LastToIsIssued(st.issued, token.sub);
  }

  /** Rotation blacklists the old token and stores another, so the blacklisted one is no longer stored. */
  lemma RotateSound(st: State, token: Token)
    requires Sound(st) && Live(st, token) && token.jti.Some?
    ensures var blocked := st.(blacklist := st.blacklist[token.jti.value := EntryExpiry(st.now, token.exp - st.now)]);
            Sound(Issue(blocked, token.sub).0.(redeemed := st.redeemed + [token]))
  {
    LiveIsIssued(st, token);
    // Seen without its stored token the user is in a state where the entry explains nothing.
    var bare := st.(users := WithHash(st.users, token.sub, None));
    FewerStored(st, bare);
    RotateBare(bare, token, EntryExpiry(st.now, token.exp - st.now));
    var blocked := st.(blacklist := st.blacklist[token.jti.value := EntryExpiry(st.now, token.exp - st.now)]);
    var fromBare := bare.(blacklist := blocked.blacklist);
    assert Issue(blocked, token.sub).0.users == Issue(fromBare, token.sub).0.users;
    assert token !in st.redeemed;
  }

  lemma RotateBare(st: State, token: Token, expiry: int)
    requires Sound(st) && token in st.issued && token !in st.redeemed && token.jti.Some?
    requires token.sub in st.users && st.users[token.sub].refreshToken.None?
    ensures var blocked := st.(blacklist := st.blacklist[token.jti.value := expiry]);
            Sound(Issue(blocked, token.sub).0.(redeemed := st.redeemed + [token]))
  {
    var blocked := st.(blacklist := st.blacklist[token.jti.value := expiry]);
    OthersKeepTheirIds(st, token);
    assert Sound(blocked) by {
      forall t | t in blocked.redeemed ensures t in blocked.issued && !Live(blocked, t) { assert !Live(st, t); }
    }
    IssueSound(blocked, token.sub);
  }

  /** Nobody else's stored token shares the id. */
  lemma OthersKeepTheirIds(st: State, token: Token)
    requires Sound(st) && token in st.issued && token.jti.Some?
    requires token.sub in st.users && st.users[token.sub].refreshToken.None?
    ensures forall u :: u in st.users && st.users[u].refreshToken.Some? ==>
              st.users[u].refreshToken.value.token.jti != token.jti
  {
    forall u | u in st.users && st.users[u].refreshToken.Some?
      ensures st.users[u].refreshToken.value.token.jti != token.jti
    {
      var other := st.users[u].refreshToken.value.token;
      LastToIsIssued(st.issued, u);
      var i :| 0 <= i < |st.issued| && st.issued[i] == token;
      var k :| 0 <= k < |st.issued| && st.issued[k] == other;
      assert i != k;
    }
  }

  lemma RefreshSound(st: State, token: Token, fails: bool)
    requires Sound(st)
    ensures Sound(Refreshed(st, token, fails).0)
  {
    if Verifies(st, token) && Live(st, token) && st.users[token.sub].active && token.jti.Some? {
      var jti := token.jti.value;
      if IsBlacklisted(st, jti) {
        FewerStored(st, Refreshed(st, token, fails).0);
      } else if fails {
        BlockSound(st, jti, EntryExpiry(st.now, token.exp - st.now), st.interrupted + {jti}, st.presented);
      } else {
        RotateSound(st, token);
      }
    }
  }

  lemma LogoutSound(st: State, u: string, given: Option<Token>)
    requires Sound(st)
    ensures Sound(LoggedOut(st, u, given))
  {
    var bare := st.(users := WithHash(st.users, u, None));
    FewerStored(st, bare);
    if given.Some? && given.value.jti.Some? && given.value.exp - st.now > 0 {
      var jti := given.value.jti.value;
      BlockSound(bare, jti, EntryExpiry(st.now, given.value.exp - st.now), st.interrupted, st.presented + {jti});
    }
  }

  lemma {:induction false} RunSound(st: State, actions: seq<Action>)
    requires Sound(st)
    ensures Sound(Run(st, actions))
  {
    if actions != [] {
      RunSound(st, actions[..|actions| - 1]);
      var prior := Run(st, actions[..|actions| - 1]);
      match actions[|actions| - 1]
      case Login(u) => if u in prior.users && prior.users[u].active { IssueSound(prior, u); }
      case RefreshWith(token, fails) => RefreshSound(prior, token, fails);
      case Logout(u, given) => LogoutSound(prior, u, given);
      case SetUser(u, active) => FewerStored(prior, Step(prior, SetUser(u, active)));
      case Wait(ms) => FewerStored(prior, Step(prior, Wait(ms)));
    }
  }

  // ---- Guarantees --------------------------------------------------------

  predicate Redeemable(st: State, token: Token) { Refreshed(st, token, false).1.Ok? }

  /** The only token a user can redeem is the last one issued to them, and exactly on these terms. */
  lemma OnlyTheLastIssued(actions: seq<Action>, token: Token)
    ensures var st := Run(START, actions);
            Redeemable(st, token) <==>
              LastTo(st.issued, token.sub) == Some(token) && token.sub in st.users &&
              st.users[token.sub].refreshToken.Some? && st.users[token.sub].active && st.now < token.exp &&
              token.jti.Some? && !IsBlacklisted(st, token.jti.value)
  {
    RunSound(START, actions);
    LastToIsIssued(Run(START, actions).issued, token.sub);
  }

  lemma RedeemedOnce(actions: seq<Action>)
    ensures NoRepeats(Run(START, actions).redeemed)
  {
    RunSound(START, actions);
  }

  lemma {:induction false} HistoryGrows(st: State, actions: seq<Action>)
    ensures st.redeemed <= Run(st, actions).redeemed
  {
    if actions != [] { HistoryGrows(st, actions[..|actions| - 1]); }
  }

  /**
   * A token that was redeemed once is refused ever after, with no change of state: it fails the hash
   * comparison, so the branch that would revoke the session on reuse is not reached.
   */
  lemma ReuseIsRefusedQuietly(past: seq<Action>, since: seq<Action>, token: Token, fails: bool)
    requires token in Run(START, past).redeemed
    ensures var st := Run(Run(START, past), since);
            Refreshed(st, token, fails).0 == st && Refreshed(st, token, fails).1.Err? &&
            Refreshed(st, token, fails).1.error != Revoked
  {
    RunSound(START, past);
    RunSound(Run(START, past), since);
    HistoryGrows(Run(START, past), since);
    assert Run(START, past).redeemed <= Run(Run(START, past), since).redeemed;
    assert token in Run(Run(START, past), since).redeemed;
  }

  predicate LogsIn(actions: seq<Action>, u: string) { exists i :: 0 <= i < |actions| && actions[i] == Login(u) }

  lemma {:induction false} StaysLoggedOut(st: State, actions: seq<Action>, u: string)
    requires Sound(st) && (u in st.users ==> st.users[u].refreshToken.None?) && !LogsIn(actions, u)
    ensures u in Run(st, actions).users ==> Run(st, actions).users[u].refreshToken.None?
  {
    if actions != [] {
      var n := |actions| - 1;
      StaysLoggedOut(st, actions[..n], u);
      assert actions[n] != Login(u);
    }
  }

  /** After a logout nothing is redeemable for the user until they log in again. */
  lemma NothingAfterLogout(past: seq<Action>, u: string, given: Option<Token>, since: seq<Action>, token: Token)
    requires token.sub == u && !LogsIn(since, u)
    ensures !Redeemable(Run(LoggedOut(Run(START, past), u, given), since), token)
  {
    RunSound(START, past);
    LogoutSound(Run(START, past), u, given);
    StaysLoggedOut(LoggedOut(Run(START, past), u, given), since, u);
  }

  /** The reuse branch is reached only through a broken-off rotation or an id handed to logout. */
  lemma ReuseBranchExplained(actions: seq<Action>, token: Token, fails: bool)
    ensures var st := Run(START, actions);
            Refreshed(st, token, fails).1 == Err(Revoked) ==>
              Live(st, token) && token.jti.value in st.interrupted + st.presented
  {
    RunSound(START, actions);
  }

  /** A stored token whose own id met neither is not blacklisted: it redeems until it expires. */
  lemma StoredTokenRedeems(actions: seq<Action>, token: Token)
    ensures var st := Run(START, actions);
            Live(st, token) && st.users[token.sub].active && st.now < token.exp && token.jti.Some? &&
            token.jti.value !in st.interrupted + st.presented ==>
              Redeemable(st, token)
  {
    RunSound(START, actions);
    var st := Run(START, actions);
    if Live(st, token) { LiveIsIssued(st, token); }
  }

  /** A rotation that breaks off after blacklisting leaves the user with a token that cannot redeem. */
  lemma BrokenRotationLocksOut(st: State, token: Token)
    requires Sound(st) && Redeemable(st, token)
    ensures var broken := Refreshed(st, token, true).0;
            Live(broken, token) && !Redeemable(broken, token) &&
            Refreshed(broken, token, false).1 == Err(Revoked) &&
            !Live(Refreshed(broken, token, false).0, token)
  {}
}
