/** Refresh-token rotation: find, revoke if still active, issue - three steps that other
    logins, refreshes, logouts and password changes may come between. */
module RefreshTokens {
  import opened Clock
  import opened Options

  type TokenId = int
  type UserId = int
  type RequestId = int
  type SessionId = int

  /** A stored refresh token, identified by its hash. */
  datatype Token = Token(user: UserId, expiresAt: Instant, revokedAt: Option<Instant>)

  /** A refresh that has revoked a token and not yet issued its successor. */
  datatype Rotation = Rotation(token: TokenId)

  /** The table, the refreshes in flight, and - for the record only - the session each
      token belongs to and the token it replaced. */
  datatype State = State(tokens: map<TokenId, Token>, inFlight: map<RequestId, Rotation>,
                         session: map<TokenId, SessionId>, replaced: map<TokenId, TokenId>, sessions: set<SessionId>)

  const EMPTY: State := State(map[], map[], map[], map[], {})

  predicate Unrevoked(s: State, t: TokenId) {
    t in s.tokens && s.tokens[t].revokedAt.None?
  }

  function Revoked(tokens: map<TokenId, Token>, t: TokenId, now: Instant): map<TokenId, Token> {
    if t in tokens && tokens[t].revokedAt.None? then tokens[t := tokens[t].(revokedAt := Some(now))] else tokens
  }

  function AllRevoked(tokens: map<TokenId, Token>, user: UserId, now: Instant): map<TokenId, Token> {
    map t | t in tokens ::
      if tokens[t].user == user && tokens[t].revokedAt.None? then tokens[t].(revokedAt := Some(now)) else tokens[t]
  }

  /** Afterwards exactly the tokens that were revoked before or are the user's are revoked; only
      the user's unrevoked ones have changed. */
  lemma AllRevokedExactly(tokens: map<TokenId, Token>, user: UserId, now: Instant, t: TokenId)
    requires t in tokens
    ensures var after := AllRevoked(tokens, user, now);
            && after.Keys == tokens.Keys
            && (after[t].revokedAt.Some? <==> tokens[t].revokedAt.Some? || tokens[t].user == user)
            && (after[t] != tokens[t] <==> tokens[t].revokedAt.None? && tokens[t].user == user)
            && (after[t] != tokens[t] ==> after[t] == Token(user, tokens[t].expiresAt, Some(now)))
  {
  }

  /** Every token but one is stored exactly as before. */
  ghost predicate OnlyTokenChanged(before: map<TokenId, Token>, after: map<TokenId, Token>, token: TokenId) {
    && after.Keys == before.Keys
    && forall t :: t in before && t != token ==> after[t] == before[t]
  }

  /** Revoking one token stamps that token, if it is unrevoked, and no other. */
  lemma RevokedExactly(tokens: map<TokenId, Token>, token: TokenId, now: Instant)
    ensures OnlyTokenChanged(tokens, Revoked(tokens, token, now), token)
    ensures token in tokens ==>
              Revoked(tokens, token, now)[token] ==
              if tokens[token].revokedAt.None? then tokens[token].(revokedAt := Some(now)) else tokens[token]
  {
  }

  datatype Event =
    | /** a login, or a password change's own new pair: a session begins */
      Login(id: TokenId, user: UserId, session: SessionId, expiresAt: Instant)
    | /** a refresh's revoke-if-active, for a token it found active some time ago */
      Claim(req: RequestId, token: TokenId, now: Instant)
    | /** the same refresh issues the new token */
      Issue(req: RequestId, id: TokenId, expiresAt: Instant)
    | /** the same refresh fails to load its user */
      Abandon(req: RequestId)
    | Revoke(token: TokenId, now: Instant)
    | RevokeAll(user: UserId, now: Instant)

  /** One step. A step that cannot happen now leaves the state as it is. */
  function Apply(s: State, e: Event): State {
    match e
    case Login(id, user, session, expiresAt) =>
      if id in s.tokens || session in s.sessions then s
      else s.(tokens := s.tokens[id := Token(user, expiresAt, None)], session := s.session[id := session],
              sessions := s.sessions + {session})
    case Claim(req, token, now) =>
      if req in s.inFlight || !Unrevoked(s, token) then s
      else s.(tokens := Revoked(s.tokens, token, now), inFlight := s.inFlight[req := Rotation(token)])
    case Issue(req, id, expiresAt) =>
      if req !in s.inFlight || id in s.tokens
         || s.inFlight[req].token !in s.tokens || s.inFlight[req].token !in s.session then s
      else
        var prior := s.inFlight[req].token;
        s.(tokens := s.tokens[id := Token(s.tokens[prior].user, expiresAt, None)], inFlight := s.inFlight - {req},
           session := s.session[id := s.session[prior]], replaced := s.replaced[id := prior])
    case Abandon(req) => s.(inFlight := s.inFlight - {req})
    case Revoke(token, now) => s.(tokens := Revoked(s.tokens, token, now))
    case RevokeAll(user, now) => s.(tokens := AllRevoked(s.tokens, user, now))
  }

  function Run(s: State, events: seq<Event>): State {
    if events == [] then s
    else Apply(Run(s, events[..|events| - 1]), events[|events| - 1])
  }

  // ----- a session is one thread of tokens -----

  /** Records agree with the table; a token replaced or being replaced is revoked, and by
      one refresh only. */
  ghost predicate Recorded(s: State) {
    && s.session.Keys == s.tokens.Keys
    && (forall t :: t in s.session ==> s.session[t] in s.sessions)
    && (forall r :: r in s.inFlight ==> var t := s.inFlight[r].token; t in s.tokens && s.tokens[t].revokedAt.Some?)
    && (forall r, q :: r in s.inFlight && q in s.inFlight && r != q ==> s.inFlight[r].token != s.inFlight[q].token)
    && (forall t :: t in s.replaced ==>
          var prior := s.replaced[t];
          t in s.tokens && prior in s.tokens && s.tokens[prior].revokedAt.Some?
          && s.session[t] == s.session[prior] && s.tokens[t].user == s.tokens[prior].user)
    && (forall t, u :: t in s.replaced && u in s.replaced && t != u ==> s.replaced[t] != s.replaced[u])
    && (forall t, r :: t in s.replaced && r in s.inFlight ==> s.replaced[t] != s.inFlight[r].token)
  }

  /** A session's unrevoked tokens and refreshes in flight are never two. */
  ghost predicate SingleThreaded(s: State)
    requires Recorded(s)
  {
    && (forall t, u :: Unrevoked(s, t) && Unrevoked(s, u) && s.session[t] == s.session[u] ==> t == u)
    && (forall r, q :: r in s.inFlight && q in s.inFlight && r != q ==>
          s.session[s.inFlight[r].token] != s.session[s.inFlight[q].token])
    && (forall t, r :: Unrevoked(s, t) && r in s.inFlight ==> s.session[t] != s.session[s.inFlight[r].token])
  }

  ghost predicate Inv(s: State) {
    Recorded(s) && SingleThreaded(s)
  }

  /** Same tokens of the same users, some of them now revoked. */
  ghost predicate OnlyRevokes(before: map<TokenId, Token>, after: map<TokenId, Token>) {
    && before.Keys == after.Keys
    && forall t :: t in before ==> after[t].user == before[t].user && (before[t].revokedAt.Some? ==> after[t] == before[t])
  }

  lemma RevokingKeepsInv(s: State, tokens: map<TokenId, Token>)
    requires Inv(s) && OnlyRevokes(s.tokens, tokens)
    ensures Inv(s.(tokens := tokens))
  {
    var s' := s.(tokens := tokens);
    assert Recorded(s');
    assert forall t :: Unrevoked(s', t) ==> Unrevoked(s, t);
  }

  lemma ClaimKeepsInv(s: State, req: RequestId, token: TokenId)
    requires Inv(s) && req !in s.inFlight && token in s.tokens && s.tokens[token].revokedAt.Some?
    requires forall t :: Unrevoked(s, t) ==> s.session[t] != s.session[token]
    requires forall r :: r in s.inFlight ==> s.session[s.inFlight[r].token] != s.session[token]
    requires forall t :: t in s.replaced ==> s.replaced[t] != token
    ensures Inv(s.(inFlight := s.inFlight[req := Rotation(token)]))
  {
    assert Recorded(s.(inFlight := s.inFlight[req := Rotation(token)]));
  }

  lemma IssueKeepsInv(s: State, req: RequestId, id: TokenId, expiresAt: Instant)
    requires Inv(s) && req in s.inFlight && id !in s.tokens
    ensures Inv(Apply(s, Issue(req, id, expiresAt)))
  {
    var s' := Apply(s, Issue(req, id, expiresAt));
    assert Recorded(s');
    assert forall t :: Unrevoked(s', t) ==> t == id || Unrevoked(s, t);
  }

  lemma LoginKeepsInv(s: State, id: TokenId, user: UserId, session: SessionId, expiresAt: Instant)
    requires Inv(s) && id !in s.tokens && session !in s.sessions
    ensures Inv(Apply(s, Login(id, user, session, expiresAt)))
  {
    var s' := Apply(s, Login(id, user, session, expiresAt));
    assert Recorded(s');
    assert forall t :: Unrevoked(s', t) ==> t == id || Unrevoked(s, t);
  }

  lemma StepKeepsInv(s: State, e: Event)
    requires Inv(s)
    ensures Inv(Apply(s, e))
  {
    match e {
      case Login(id, user, session, expiresAt) =>
        if Apply(s, e) != s {
          LoginKeepsInv(s, id, user, session, expiresAt);
        }
      case Claim(req, token, now) =>
        if Apply(s, e) != s {
          var revoked := s.(tokens := Revoked(s.tokens, token, now));
          RevokingKeepsInv(s, revoked.tokens);
          assert forall t :: Unrevoked(revoked, t) ==> Unrevoked(s, t) && t != token;
          ClaimKeepsInv(revoked, req, token);
        }
      case Issue(req, id, expiresAt) =>
        if Apply(s, e) != s {
          IssueKeepsInv(s, req, id, expiresAt);
        }
      case Abandon(req) => AbandonKeepsInv(s, req);
      case Revoke(token, now) => RevokingKeepsInv(s, Revoked(s.tokens, token, now));
      case RevokeAll(user, now) => RevokingKeepsInv(s, AllRevoked(s.tokens, user, now));
    }
  }

  lemma AbandonKeepsInv(s: State, req: RequestId)
    requires Inv(s)
    ensures Inv(Apply(s, Abandon(req)))
  {
    assert Recorded(Apply(s, Abandon(req)));
  }

  lemma {:induction false} RunKeepsInv(s: State, events: seq<Event>)
    requires Inv(s)
    ensures Inv(Run(s, events))
  {
    if events != [] {
      RunKeepsInv(s, events[..|events| - 1]);
      StepKeepsInv(Run(s, events[..|events| - 1]), events[|events| - 1]);
    }
  }

  function LiveTokens(s: State, session: SessionId): set<TokenId> {
    set t | t in s.tokens && t in s.session && s.tokens[t].revokedAt.None? && s.session[t] == session
  }

  function InFlightOf(s: State, session: SessionId): set<RequestId> {
    set r | r in s.inFlight && s.inFlight[r].token in s.session && s.session[s.inFlight[r].token] == session
  }

  /** The tokens issued in place of token. */
  function Successors(s: State, token: TokenId): set<TokenId> {
    set t | t in s.replaced && s.replaced[t] == token
  }

  lemma AtMostOne<T>(a: set<T>)
    requires forall x, y :: x in a && y in a ==> x == y
    ensures |a| <= 1
  {
    if a != {} {
      var x :| x in a;
      assert a == {x};
    }
  }

  /** In every reachable state each session has at most one unrevoked token or refresh
      between revoke and issue, counted together; and each token has at most one
      successor, so of any number of concurrent refreshes of it at most one issues. */
  lemma SessionsAreSingleThreaded(events: seq<Event>, session: SessionId, token: TokenId)
    ensures var s := Run(EMPTY, events);
            && |LiveTokens(s, session)| + |InFlightOf(s, session)| <= 1
            && |Successors(s, token)| <= 1
  {
    RunKeepsInv(EMPTY, events);
    var s := Run(EMPTY, events);
    UnitsOfSession(s, session);
    forall t, u | t in Successors(s, token) && u in Successors(s, token) ensures t == u {
      assert t in s.replaced && u in s.replaced;
    }
    AtMostOne(Successors(s, token));
  }

  lemma UnitsOfSession(s: State, session: SessionId)
    requires Inv(s)
    ensures |LiveTokens(s, session)| + |InFlightOf(s, session)| <= 1
  {
    var live, flying := LiveTokens(s, session), InFlightOf(s, session);
    forall t, u | t in live && u in live ensures t == u {
      assert Unrevoked(s, t) && Unrevoked(s, u);
    }
    AtMostOne(live);
    forall r, q | r in flying && q in flying ensures r == q {
      assert r in s.inFlight && q in s.inFlight;
    }
    AtMostOne(flying);
    if live != {} {
      var t := Member(live);
      assert Unrevoked(s, t);
      forall r | r in s.inFlight ensures r !in flying {
        assert s.session[t] != s.session[s.inFlight[r].token];
      }
      assert flying == {};
    }
  }

  /** Tokens are never deleted, and a revoked one keeps its revocation for good. */
  lemma {:induction false} RevocationIsPermanent(s: State, events: seq<Event>, t: TokenId)
    requires t in s.tokens
    ensures t in Run(s, events).tokens
    ensures s.tokens[t].revokedAt.Some? ==> Run(s, events).tokens[t] == s.tokens[t]
  {
    if events != [] {
      RevocationIsPermanent(s, events[..|events| - 1], t);
    }
  }

  // ----- logging out everywhere -----

  ghost predicate Dead(s: State, session: SessionId) {
    LiveTokens(s, session) == {} && InFlightOf(s, session) == {}
  }

  lemma DeadStep(s: State, e: Event, session: SessionId)
    requires Inv(s) && session in s.sessions && Dead(s, session)
    ensures Dead(Apply(s, e), session) && session in Apply(s, e).sessions
  {
    var s' := Apply(s, e);
    assert forall t :: t in s.tokens && s.session[t] == session ==> t !in LiveTokens(s, session);
    assert forall r :: r in s.inFlight && s.session[s.inFlight[r].token] == session ==> r !in InFlightOf(s, session);
    assert LiveTokens(s', session) == {};
    assert InFlightOf(s', session) == {};
  }

  lemma {:induction false} DeadForever(s: State, events: seq<Event>, session: SessionId)
    requires Inv(s) && session in s.sessions && Dead(s, session)
    ensures Dead(Run(s, events), session) && session in Run(s, events).sessions
  {
    if events != [] {
      DeadForever(s, events[..|events| - 1], session);
      RunKeepsInv(s, events[..|events| - 1]);
      DeadStep(Run(s, events[..|events| - 1]), events[|events| - 1], session);
    }
  }

  /** All tokens of a session are one user's. */
  ghost predicate OneUser(s: State)
    requires Recorded(s)
  {
    forall t, u :: t in s.tokens && u in s.tokens && s.session[t] == s.session[u] ==> s.tokens[t].user == s.tokens[u].user
  }

  lemma SameUsers(s: State, s': State)
    requires Recorded(s) && OneUser(s) && Recorded(s') && s'.session == s.session
    requires forall t :: t in s'.tokens ==> t in s.tokens && s'.tokens[t].user == s.tokens[t].user
    ensures OneUser(s')
  {
  }

  lemma NewTokenKeepsUsers(s: State, s': State, id: TokenId, token: Token, session: SessionId)
    requires Recorded(s) && OneUser(s) && Recorded(s') && id !in s.tokens
    requires s'.tokens == s.tokens[id := token] && s'.session == s.session[id := session]
    requires forall t :: t in s.tokens && s.session[t] == session ==> s.tokens[t].user == token.user
    ensures OneUser(s')
  {
  }

  lemma StepKeepsUsers(s: State, e: Event)
    requires Inv(s) && OneUser(s) && Inv(Apply(s, e))
    ensures OneUser(Apply(s, e))
  {
    var s' := Apply(s, e);
    if s'.tokens.Keys == s.tokens.Keys {
      SameUsers(s, s');
    } else if e.Login? {
      NewTokenKeepsUsers(s, s', e.id, Token(e.user, e.expiresAt, None), e.session);
    } else {
      var prior := s.inFlight[e.req].token;
      NewTokenKeepsUsers(s, s', e.id, Token(s.tokens[prior].user, e.expiresAt, None), s.session[prior]);
    }
  }

  lemma {:induction false} ReachableHasOneUser(events: seq<Event>)
    ensures Inv(Run(EMPTY, events)) && OneUser(Run(EMPTY, events))
  {
    if events != [] {
      ReachableHasOneUser(events[..|events| - 1]);
      StepKeepsInv(Run(EMPTY, events[..|events| - 1]), events[|events| - 1]);
      StepKeepsUsers(Run(EMPTY, events[..|events| - 1]), events[|events| - 1]);
    }
  }

  /** In any reachable state, revoking all of a user's tokens ends the session of any of them for
      good - no later run has an unrevoked token of it - exactly when no refresh of it is in flight. */
  lemma RevokeAllEndsSessions(past: seq<Event>, token: TokenId, now: Instant)
    requires token in Run(EMPTY, past).tokens
    ensures var s := Run(EMPTY, past);
            && token in s.session
            && var after := Apply(s, RevokeAll(s.tokens[token].user, now));
               (forall events: seq<Event> :: LiveTokens(Run(after, events), s.session[token]) == {})
               <==> InFlightOf(s, s.session[token]) == {}
  {
    ReachableHasOneUser(past);
    RevokeAllEnds(Run(EMPTY, past), token, now);
  }

  lemma RevokeAllEnds(s: State, token: TokenId, now: Instant)
    requires Inv(s) && OneUser(s) && token in s.tokens
    ensures var after := Apply(s, RevokeAll(s.tokens[token].user, now));
            (forall events: seq<Event> :: LiveTokens(Run(after, events), s.session[token]) == {})
            <==> InFlightOf(s, s.session[token]) == {}
  {
    var session := s.session[token];
    var after := Apply(s, RevokeAll(s.tokens[token].user, now));
    StepKeepsInv(s, RevokeAll(s.tokens[token].user, now));
    assert InFlightOf(after, session) == InFlightOf(s, session);
    if InFlightOf(s, session) == {} {
      assert Dead(after, session) by {
        assert forall t :: t in s.tokens && s.session[t] == session ==> after.tokens[t].revokedAt.Some?;
        assert LiveTokens(after, session) == {};
      }
      forall events: seq<Event> ensures LiveTokens(Run(after, events), session) == {} {
        DeadForever(after, events, session);
      }
    } else {
      var events := FlightLands(after, session);
    }
  }

  /** A refresh in flight can still issue. */
  lemma FlightLands(s: State, session: SessionId) returns (events: seq<Event>)
    requires Inv(s) && InFlightOf(s, session) != {}
    ensures LiveTokens(Run(s, events), session) != {}
  {
    var r := Member(InFlightOf(s, session));
    var id := FreshToken(s.tokens.Keys);
    events := [Issue(r, id, 0)];
    assert events[..0] == [];
    assert Run(s, events) == Apply(s, events[0]);
    assert id in LiveTokens(Run(s, events), session);
  }

  lemma {:induction false} FreshToken(used: set<TokenId>) returns (id: TokenId)
    ensures id !in used
    ensures forall u :: u in used ==> u < id
  {
    if used == {} {
      id := 0;
    } else {
      var u := Member(used);
      id := FreshToken(used - {u});
      assert forall w :: w in used ==> w == u || w in used - {u};
      if id <= u {
        id := u + 1;
      }
    }
  }

  lemma Member<T>(s: set<T>) returns (x: T)
    requires s != {}
    ensures x in s
  {
    x :| x in s;
  }

  // ----- the requests themselves -----

  /** The token table, with the record of the state above kept beside it. */
  class TokenStore {
    var tokens: map<TokenId, Token>
    var inFlight: map<RequestId, Rotation>
    var session: map<TokenId, SessionId>
    var replaced: map<TokenId, TokenId>
    var sessions: set<SessionId>

    constructor ()
      ensures Abs() == EMPTY
    {
      tokens, inFlight, session, replaced, sessions := map[], map[], map[], map[], {};
    }

    ghost function Abs(): State
      reads this
    {
      State(tokens, inFlight, session, replaced, sessions)
    }

    method Create(id: TokenId, user: UserId, expiresAt: Instant)
      requires id !in tokens
      modifies this`tokens
      ensures tokens == old(tokens)[id := Token(user, expiresAt, None)]
    {
      tokens := tokens[id := Token(user, expiresAt, None)];
    }

    method FindActive(id: TokenId, now: Instant) returns (r: Option<Token>)
      ensures r == if id in tokens && tokens[id].revokedAt.None? && tokens[id].expiresAt > now then Some(tokens[id]) else None
    {
      r := if id in tokens && tokens[id].revokedAt.None? && tokens[id].expiresAt > now then Some(tokens[id]) else None;
    }

    /** Revokes the token and tells whether this call did it. */
    method RevokeIfActive(id: TokenId, now: Instant) returns (revoked: bool)
      modifies this`tokens
      ensures revoked <==> Unrevoked(old(Abs()), id)
      ensures tokens == Revoked(old(tokens), id, now)
      ensures OnlyTokenChanged(old(tokens), tokens, id)
      ensures revoked ==> tokens[id] == old(tokens)[id].(revokedAt := Some(now))
      ensures !revoked ==> tokens == old(tokens)
    {
      revoked := id in tokens && tokens[id].revokedAt.None?;
      if revoked {
        tokens := tokens[id := tokens[id].(revokedAt := Some(now))];
      }
    }

    method RevokeAllForUser(user: UserId, now: Instant)
      modifies this`tokens
      ensures tokens == AllRevoked(old(tokens), user, now)
    {
      tokens := AllRevoked(tokens, user, now);
    }

    /** What other requests do meanwhile. */
    method Others(env: seq<Event>)
      modifies this
      ensures Abs() == Run(old(Abs()), env)
    {
      var s := Run(State(tokens, inFlight, session, replaced, sessions), env);
      tokens, inFlight, session, replaced, sessions := s.tokens, s.inFlight, s.session, s.replaced, s.sessions;
    }
  }

  /** Nothing in the events is the rest of request req. */
  predicate LeavesRequest(events: seq<Event>, req: RequestId) {
    forall e :: e in events ==> !(e.Issue? && e.req == req) && !(e.Abandon? && e.req == req)
  }

  lemma {:induction false} RequestStays(s: State, events: seq<Event>, req: RequestId)
    requires req in s.inFlight && LeavesRequest(events, req)
    ensures req in Run(s, events).inFlight && Run(s, events).inFlight[req] == s.inFlight[req]
  {
    if events != [] {
      assert forall e :: e in events[..|events| - 1] ==> e in events;
      RequestStays(s, events[..|events| - 1], req);
      assert events[|events| - 1] in events;
    }
  }

  /** The revoke step of refresh req. */
  method ClaimToken(store: TokenStore, req: RequestId, token: TokenId, now: Instant) returns (revoked: bool)
    requires Inv(store.Abs()) && req !in store.inFlight
    modifies store
    ensures Inv(store.Abs())
    ensures revoked <==> Unrevoked(old(store.Abs()), token)
    ensures store.Abs() == Apply(old(store.Abs()), Claim(req, token, now))
    ensures OnlyTokenChanged(old(store.tokens), store.tokens, token)
    ensures !revoked ==> store.Abs() == old(store.Abs())
  {
    StepKeepsInv(store.Abs(), Claim(req, token, now));
    revoked := store.RevokeIfActive(token, now);
    if revoked {
      store.inFlight := store.inFlight[req := Rotation(token)];
    }
  }

  /** The issue step of refresh req, for the user its token belongs to. */
  method IssueSuccessor(store: TokenStore, req: RequestId, user: UserId, newId: TokenId, expiresAt: Instant)
    requires Inv(store.Abs()) && req in store.inFlight && newId !in store.tokens
    requires store.tokens[store.inFlight[req].token].user == user
    modifies store
    ensures Inv(store.Abs())
    ensures store.Abs() == Apply(old(store.Abs()), Issue(req, newId, expiresAt))
    ensures store.tokens == old(store.tokens)[newId := Token(user, expiresAt, None)]
    ensures Successors(store.Abs(), old(store.inFlight)[req].token) == {newId}
  {
    StepKeepsInv(store.Abs(), Issue(req, newId, expiresAt));
    OneSuccessor(store.Abs(), req, newId, expiresAt);
    var token := store.inFlight[req].token;
    store.Create(newId, user, expiresAt);
    store.session := store.session[newId := store.session[token]];
    store.replaced := store.replaced[newId := token];
    store.inFlight := store.inFlight - {req};
  }

  /** A login: the first token of a new session. */
  method BeginSession(store: TokenStore, user: UserId, newId: TokenId, newSession: SessionId, expiresAt: Instant)
    requires Inv(store.Abs()) && newId !in store.tokens && newSession !in store.sessions
    modifies store
    ensures Inv(store.Abs())
    ensures store.Abs() == Apply(old(store.Abs()), Login(newId, user, newSession, expiresAt))
    ensures store.tokens == old(store.tokens)[newId := Token(user, expiresAt, None)]
  {
    StepKeepsInv(store.Abs(), Login(newId, user, newSession, expiresAt));
    store.Create(newId, user, expiresAt);
    store.session, store.sessions := store.session[newId := newSession], store.sessions + {newSession};
  }

  /** The rest of refresh req once it has revoked token: load the user, issue. */
  method FinishRefresh(store: TokenStore, token: TokenId, req: RequestId, user: UserId, newId: TokenId, userFound: bool,
                       expiresAt: Instant, rest: seq<Event>) returns (issued: Option<TokenId>)
    requires Inv(store.Abs()) && req in store.inFlight && store.inFlight[req] == Rotation(token)
    requires store.tokens[token].user == user && LeavesRequest(rest, req)
    requires newId !in Run(store.Abs(), rest).tokens
    modifies store
    ensures Inv(store.Abs())
    ensures issued == if userFound then Some(newId) else None
    ensures store.Abs() == Apply(Run(old(store.Abs()), rest), if userFound then Issue(req, newId, expiresAt) else Abandon(req))
    ensures userFound ==> newId in store.tokens && store.tokens[newId] == Token(user, expiresAt, None)
                          && Successors(store.Abs(), token) == {newId}
  {
    RunKeepsInv(store.Abs(), rest);
    RequestStays(store.Abs(), rest, req);
    UserIsKept(store.Abs(), rest, token);
    store.Others(rest);
    if !userFound {
      StepKeepsInv(store.Abs(), Abandon(req));
      store.inFlight := store.inFlight - {req};
      return None;
    }
    IssueSuccessor(store, req, user, newId, expiresAt);
    issued := Some(newId);
  }

  /** The issue step stores one new token, of its predecessor's user, and touches no other. */
  lemma IssueAddsOne(s: State, req: RequestId, id: TokenId, expiresAt: Instant)
    requires Inv(s) && req in s.inFlight && id !in s.tokens
    ensures var prior := s.inFlight[req].token;
            && prior in s.tokens
            && Apply(s, Issue(req, id, expiresAt)).tokens == s.tokens[id := Token(s.tokens[prior].user, expiresAt, None)]
  {
  }

  /** What the state is once refresh req, having found token active in s, tried to revoke it. */
  ghost function AfterClaim(s: State, first: seq<Event>, req: RequestId, token: TokenId, now: Instant): State {
    Apply(Run(s, first), Claim(req, token, now))
  }

  /** Rotates token: first runs between the look-up and the revoke, rest between the
      revoke and the issue. The result is the new token's id. */
  method Refresh(store: TokenStore, token: TokenId, req: RequestId, newId: TokenId, userFound: bool, now: Instant,
                 expiresAt: Instant, first: seq<Event>, rest: seq<Event>) returns (issued: Option<TokenId>)
    requires Inv(store.Abs())
    requires req !in Run(store.Abs(), first).inFlight && LeavesRequest(rest, req)
    requires newId !in Run(AfterClaim(store.Abs(), first, req, token, now), rest).tokens
    modifies store
    ensures Inv(store.Abs())
    ensures var s := old(store.Abs());
            if !Unrevoked(s, token) || s.tokens[token].expiresAt <= now then issued == None && store.Abs() == s
            else if !Unrevoked(Run(s, first), token) then issued == None && store.Abs() == Run(s, first)
            else
              && issued == (if userFound then Some(newId) else None)
              && store.Abs() == Apply(Run(AfterClaim(s, first, req, token, now), rest),
                                      if userFound then Issue(req, newId, expiresAt) else Abandon(req))
              && (userFound ==> newId in store.tokens && store.tokens[newId] == Token(s.tokens[token].user, expiresAt, None)
                                && Successors(store.Abs(), token) == {newId})
    ensures OnlyTokenChanged(Run(old(store.Abs()), first).tokens,
                             AfterClaim(old(store.Abs()), first, req, token, now).tokens, token)
  {
    RevokedExactly(Run(store.Abs(), first).tokens, token, now);
    var existing := store.FindActive(token, now);
    if existing.None? {
      return None;
    }
    RunKeepsInv(store.Abs(), first);
    UserIsKept(store.Abs(), first, token);
    store.Others(first);
    var revoked := ClaimToken(store, req, token, now);
    if !revoked {
      return None;
    }
    issued := FinishRefresh(store, token, req, existing.value.user, newId, userFound, expiresAt, rest);
  }

  lemma {:induction false} UserIsKept(s: State, events: seq<Event>, t: TokenId)
    requires t in s.tokens
    ensures t in Run(s, events).tokens && Run(s, events).tokens[t].user == s.tokens[t].user
  {
    if events != [] {
      UserIsKept(s, events[..|events| - 1], t);
    }
  }

  lemma OneSuccessor(s: State, req: RequestId, newId: TokenId, expiresAt: Instant)
    requires Inv(s) && req in s.inFlight && newId !in s.tokens
    ensures var s' := Apply(s, Issue(req, newId, expiresAt));
            Successors(s', s.inFlight[req].token) == {newId}
  {
    var s' := Apply(s, Issue(req, newId, expiresAt));
    assert newId in Successors(s', s.inFlight[req].token);
    forall t | t in s'.replaced && t != newId ensures s'.replaced[t] != s.inFlight[req].token {
      assert t in s.replaced;
    }
  }

  method LogoutEverywhere(store: TokenStore, user: UserId, now: Instant)
    requires Inv(store.Abs())
    modifies store`tokens
    ensures Inv(store.Abs()) && store.Abs() == Apply(old(store.Abs()), RevokeAll(user, now))
  {
    StepKeepsInv(store.Abs(), RevokeAll(user, now));
    ghost var expected := Apply(store.Abs(), RevokeAll(user, now));
    store.RevokeAllForUser(user, now);
    assert store.Abs() == expected;
  }

  /** The unrevoked, unexpired token of that user. */
  predicate OwnActive(tokens: map<TokenId, Token>, user: UserId, token: TokenId, now: Instant) {
    token in tokens && tokens[token].revokedAt.None? && tokens[token].expiresAt > now && tokens[token].user == user
  }

  method RevokeOne(store: TokenStore, token: TokenId, now: Instant)
    requires Inv(store.Abs())
    modifies store`tokens
    ensures Inv(store.Abs()) && store.Abs() == Apply(old(store.Abs()), Revoke(token, now)) && !Unrevoked(store.Abs(), token)
    ensures OnlyTokenChanged(old(store.tokens), store.tokens, token)
  {
    StepKeepsInv(store.Abs(), Revoke(token, now));
    ghost var expected := Apply(store.Abs(), Revoke(token, now));
    var _ := store.RevokeIfActive(token, now);
    assert store.Abs() == expected;
  }

  method LogoutOne(store: TokenStore, user: UserId, token: TokenId, now: Instant, first: seq<Event>)
    requires Inv(store.Abs())
    modifies store
    ensures Inv(store.Abs())
    ensures store.Abs() == if OwnActive(old(store.tokens), user, token, now)
                           then Apply(Run(old(store.Abs()), first), Revoke(token, now)) else old(store.Abs())
    ensures OwnActive(old(store.tokens), user, token, now) ==>
              && !Unrevoked(store.Abs(), token)
              && OnlyTokenChanged(Run(old(store.Abs()), first).tokens, store.tokens, token)
  {
    var existing := store.FindActive(token, now);
    if existing.None? || existing.value.user != user {
      return;
    }
    RunKeepsInv(store.Abs(), first);
    store.Others(first);
    RevokeOne(store, token, now);
  }

  /** Revokes one of the user's own tokens, or all of them when none is named; first
      runs between the look-up and the revoke. */
  method Logout(store: TokenStore, user: UserId, token: Option<TokenId>, now: Instant, first: seq<Event>)
    requires Inv(store.Abs())
    modifies store
    ensures Inv(store.Abs())
    ensures token.None? ==> store.Abs() == Apply(old(store.Abs()), RevokeAll(user, now))
    ensures token.Some? ==>
              if OwnActive(old(store.tokens), user, token.value, now)
              then
                && store.Abs() == Apply(Run(old(store.Abs()), first), Revoke(token.value, now))
                && !Unrevoked(store.Abs(), token.value)
                && OnlyTokenChanged(Run(old(store.Abs()), first).tokens, store.tokens, token.value)
              else store.Abs() == old(store.Abs())
  {
    if token.None? {
      LogoutEverywhere(store, user, now);
    } else {
      LogoutOne(store, user, token.value, now, first);
    }
  }

  /** Once the new password is stored: revokes every token of the user, then issues one
      of a new session; between runs in between. */
  method ChangePassword(store: TokenStore, user: UserId, newId: TokenId, newSession: SessionId, now: Instant,
                        expiresAt: Instant, between: seq<Event>)
    requires Inv(store.Abs())
    requires var s := Run(Apply(store.Abs(), RevokeAll(user, now)), between);
             newId !in s.tokens && newSession !in s.sessions
    modifies store
    ensures Inv(store.Abs())
    ensures store.Abs() == Apply(Run(Apply(old(store.Abs()), RevokeAll(user, now)), between),
                                 Login(newId, user, newSession, expiresAt))
    ensures newId in store.tokens && store.tokens[newId] == Token(user, expiresAt, None)
    ensures forall t :: t in old(store.tokens) && old(store.tokens)[t].user == user ==> !Unrevoked(store.Abs(), t)
  {
    AllStayRevoked(store.Abs(), user, now, between);
    LogoutEverywhere(store, user, now);
    RunKeepsInv(store.Abs(), between);
    store.Others(between);
    BeginSession(store, user, newId, newSession, expiresAt);
  }

  lemma AllStayRevoked(s: State, user: UserId, now: Instant, events: seq<Event>)
    ensures forall t :: t in s.tokens && s.tokens[t].user == user ==>
              t in Run(Apply(s, RevokeAll(user, now)), events).tokens
              && !Unrevoked(Run(Apply(s, RevokeAll(user, now)), events), t)
  {
    var revoked := Apply(s, RevokeAll(user, now));
    forall t | t in s.tokens && s.tokens[t].user == user
      ensures t in Run(revoked, events).tokens && !Unrevoked(Run(revoked, events), t)
    {
      RevocationIsPermanent(revoked, events, t);
    }
  }
}
