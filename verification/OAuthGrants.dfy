/**
 The two OAuth stores together: tokens are minted only for a code that was just exchanged
 (src/oauth/sessions.rs, src/oauth/tokens.rs).
 */
module OAuthGrants {
  import opened Wrappers
  import S = Sessions
  import T = Tokens

  datatype Call =
    | OnSessions(s: S.Call)
    | OnTokens(t: T.Call)
    | Exchange(consume: S.Call, draw: T.Draw, ok: bool)   // the token endpoint: consume, then mint

  /** Both stores, and for every grant the code it was minted for. */
  datatype World = World(sessions: S.World, tokens: T.World, codeOf: map<nat, string>)

  const INITIAL := World(S.INITIAL, T.INITIAL, map[])

  ghost function Verdict(w: World, c: S.Call): Result<S.ConsumedCode, S.ExchangeError>
    requires c.CallConsume?
  {
    S.Consume(w.sessions.table, c.code, c.client, c.redirectUri, c.verifier, c.now).1
  }

  /** The mint that follows a successful exchange. */
  function MintFor(grant: S.ConsumedCode, c: Call): T.Call
    requires c.Exchange? && c.consume.CallConsume?
  {
    T.CallMint(grant.client, grant.scope, c.draw, c.consume.now, c.ok)
  }

  ghost predicate Possible(w: World, c: Call) {
    match c
    case OnSessions(s) => S.Possible(w.sessions, s) && !s.CallConsume?
    case OnTokens(t) => T.Possible(w.tokens, t) && !t.CallMint?
    case Exchange(consume, draw, _) => consume.CallConsume? && T.FreshDraw(w.tokens, draw)
  }

  ghost function Next(w: World, c: Call): World
    requires Possible(w, c)
  {
    match c
    case OnSessions(s) => w.(sessions := S.Next(w.sessions, s))
    case OnTokens(t) => w.(tokens := T.Next(w.tokens, t))
    case Exchange(consume, _, _) =>
      var w1 := w.(sessions := S.Next(w.sessions, consume));
      match Verdict(w, consume)
      case Err(_) => w1
      case Ok(grant) =>
        w1.(tokens := T.Next(w.tokens, MintFor(grant, c)), codeOf := w.codeOf[w.tokens.families := consume.code])
  }

  ghost predicate Trace(calls: seq<Call>)
    decreases |calls|, 0
  {
    calls == [] ||
    (Trace(calls[..|calls| - 1]) && Possible(Run(calls[..|calls| - 1]), calls[|calls| - 1]))
  }

  ghost function Run(calls: seq<Call>): World
    requires Trace(calls)
    decreases |calls|, 1
  {
    if calls == [] then INITIAL else Next(Run(calls[..|calls| - 1]), calls[|calls| - 1])
  }

  /** The last thing that happened to the session was the exchange of this code. */
  ghost predicate ExchangedBy(w: S.World, id: S.SessionId, code: string) {
    && id in w.history && w.history[id] != []
    && w.history[id][|w.history[id]| - 1].Exchanged? && w.history[id][|w.history[id]| - 1].code == code
  }

  ghost predicate GrantsMatch(w: World) {
    && (forall f: nat :: f in w.codeOf <==> f < w.tokens.families)
    && (forall f | f in w.codeOf :: exists id :: ExchangedBy(w.sessions, id, w.codeOf[f]))
    && (forall f, g | f in w.codeOf && g in w.codeOf && w.codeOf[f] == w.codeOf[g] :: f == g)
  }

  /** The session exchanged the code, and was opened for this client and scope. */
  ghost predicate Granted(w: S.World, id: S.SessionId, code: string, client: string, scope: Option<string>) {
    && ExchangedBy(w, id, code)
    && w.history[id][0].Created? && w.history[id][0].req.client == client && w.history[id][0].req.scope == scope
  }

  ghost predicate IsServed(w: World, id: T.TokenId) {
    && id in w.tokens.issued && w.tokens.issued[id].family in w.codeOf
    && exists session :: Granted(w.sessions, session, w.codeOf[w.tokens.issued[id].family],
                                 w.tokens.issued[id].client, w.tokens.issued[id].scope)
  }

  /** Every token issued is for the client and the scope that were asked for when its session was opened. */
  ghost predicate RequestsServed(w: World) {
    forall id | id in w.tokens.issued :: IsServed(w, id)
  }

  ghost predicate Consistent(w: World) {
    S.Consistent(w.sessions) && T.Consistent(w.tokens) && GrantsMatch(w) && RequestsServed(w)
  }

  /** A session that exchanged its code carries none, so no other session carries that code either. */
  lemma ExchangedCodeIsGone(w: S.World, id: S.SessionId, code: string, other: S.SessionId)
    requires S.Consistent(w) && ExchangedBy(w, id, code)
    ensures !S.Carries(w.table, other, code)
  {
    S.CodeOfExchange(w, id, |w.history[id]| - 1);
    S.LifecycleBegins(w.history[id]);
  }

  /** Nothing happens to a session after its exchange. */
  lemma ExchangeStays(w: S.World, c: S.Call, id: S.SessionId, code: string)
    requires S.Consistent(w) && S.Possible(w, c) && ExchangedBy(w, id, code)
    ensures ExchangedBy(S.Next(w, c), id, code) && S.Next(w, c).history[id][0] == w.history[id][0]
  {
    S.LifecycleBegins(w.history[id]);
    if c.CallConsume? {
      S.FoundCarries(w.table, c.code);
    }
  }

  lemma SessionStepKeepsServed(w: World, c: S.Call)
    requires Consistent(w) && S.Possible(w.sessions, c)
    ensures RequestsServed(w.(sessions := S.Next(w.sessions, c)))
  {
    hide S.Next, S.Consistent, S.Possible, ExchangedBy;
    var w' := w.(sessions := S.Next(w.sessions, c));
    forall id | id in w'.tokens.issued
      ensures IsServed(w', id)
    {
      var issue := w.tokens.issued[id];
      assert IsServed(w, id);
      var session :| Granted(w.sessions, session, w.codeOf[issue.family], issue.client, issue.scope);
      ExchangeStays(w.sessions, c, session, w.codeOf[issue.family]);
      assert Granted(w'.sessions, session, w'.codeOf[issue.family], issue.client, issue.scope);
    }
  }

  /** A token drawn by a rotation is for what the one before it was for. */
  lemma IssuedByRotation(w: T.World, t: T.Call, id: T.TokenId)
    requires T.Consistent(w) && T.Possible(w, t) && !t.CallMint? && id in T.Next(w, t).issued
    ensures
      || (id in w.issued && T.Next(w, t).issued[id] == w.issued[id])
      || exists prior :: prior in w.issued && T.Next(w, t).issued[id].family == w.issued[prior].family
           && T.Next(w, t).issued[id].client == w.issued[prior].client
           && T.Next(w, t).issued[id].scope == w.issued[prior].scope
  {
    if t.CallRotate? {
      T.FoundByHash(w.store.refreshById, t.presented);
    }
  }

  lemma TokenStepKeepsServed(w: World, t: T.Call)
    requires Consistent(w) && T.Possible(w.tokens, t) && !t.CallMint?
    ensures RequestsServed(w.(tokens := T.Next(w.tokens, t)))
  {
    hide T.Next, T.Consistent, T.Possible, Granted, S.Consistent, GrantsMatch;
    var w' := w.(tokens := T.Next(w.tokens, t));
    forall id | id in w'.tokens.issued
      ensures IsServed(w', id)
    {
      IssuedByRotation(w.tokens, t, id);
      if !(id in w.tokens.issued && w'.tokens.issued[id] == w.tokens.issued[id]) {
        var prior :| prior in w.tokens.issued && w'.tokens.issued[id].family == w.tokens.issued[prior].family
          && w'.tokens.issued[id].client == w.tokens.issued[prior].client
          && w'.tokens.issued[id].scope == w.tokens.issued[prior].scope;
        assert IsServed(w, prior);
      } else {
        assert IsServed(w, id);
      }
    }
  }

  lemma MintKeepsServed(w: World, mint: T.Call, code: string, session: S.SessionId)
    requires RequestsServed(w) && GrantsMatch(w) && mint.CallMint? && T.Possible(w.tokens, mint)
    requires Granted(w.sessions, session, code, mint.client, mint.scope)
    ensures RequestsServed(w.(tokens := T.Next(w.tokens, mint), codeOf := w.codeOf[w.tokens.families := code]))
  {
    hide Granted;
    var w' := w.(tokens := T.Next(w.tokens, mint), codeOf := w.codeOf[w.tokens.families := code]);
    forall id | id in w'.tokens.issued
      ensures IsServed(w', id)
    {
      if id == mint.draw.id {
        assert Granted(w'.sessions, session, w'.codeOf[w'.tokens.issued[id].family], mint.client, mint.scope);
      } else {
        assert IsServed(w, id);
      }
    }
  }

  lemma SessionStepKeepsGrants(w: World, c: S.Call)
    requires Consistent(w) && S.Possible(w.sessions, c)
    ensures S.Consistent(S.Next(w.sessions, c)) && GrantsMatch(w.(sessions := S.Next(w.sessions, c)))
  {
    hide S.Next, S.Consistent, S.Possible;
    S.NextKeepsConsistent(w.sessions, c);
    var w' := w.(sessions := S.Next(w.sessions, c));
    forall f | f in w.codeOf
      ensures exists id :: ExchangedBy(w'.sessions, id, w'.codeOf[f])
    {
      var id :| ExchangedBy(w.sessions, id, w.codeOf[f]);
      ExchangeStays(w.sessions, c, id, w.codeOf[f]);
    }
  }

  lemma ExchangeIsRecorded(w: World, c: S.Call) returns (id: S.SessionId)
    requires S.Consistent(w.sessions) && c.CallConsume? && Verdict(w, c).Ok?
    ensures ExchangedBy(S.Next(w.sessions, c), id, c.code) && S.Carries(w.sessions.table, id, c.code)
    ensures Granted(S.Next(w.sessions, c), id, c.code, Verdict(w, c).value.client, Verdict(w, c).value.scope)
  {
    S.FoundCarries(w.sessions.table, c.code);
    id := S.FindByCode(w.sessions.table, c.code).value;
    S.RecordTells(w.sessions.history[id]);
  }

  /** A mint for a code that no grant was minted for. */
  lemma MintExtendsGrants(w: World, mint: T.Call, code: string, id: S.SessionId)
    requires GrantsMatch(w) && mint.CallMint? && T.Possible(w.tokens, mint)
    requires ExchangedBy(w.sessions, id, code) && forall f | f in w.codeOf :: w.codeOf[f] != code
    ensures GrantsMatch(w.(tokens := T.Next(w.tokens, mint), codeOf := w.codeOf[w.tokens.families := code]))
  {
    hide T.Next, T.Possible;
    NextMintCounts(w.tokens, mint);
    var w' := w.(tokens := T.Next(w.tokens, mint), codeOf := w.codeOf[w.tokens.families := code]);
    forall f | f in w'.codeOf
      ensures exists s :: ExchangedBy(w'.sessions, s, w'.codeOf[f])
    {
      if f == w.tokens.families {
        assert ExchangedBy(w'.sessions, id, w'.codeOf[f]);
      } else {
        var s :| ExchangedBy(w.sessions, s, w.codeOf[f]);
        assert ExchangedBy(w'.sessions, s, w'.codeOf[f]);
      }
    }
  }

  lemma CodeIsNew(w: World, code: string, id: S.SessionId)
    requires S.Consistent(w.sessions) && GrantsMatch(w) && S.Carries(w.sessions.table, id, code)
    ensures forall f | f in w.codeOf :: w.codeOf[f] != code
  {
    hide S.Consistent;
    forall f | f in w.codeOf
      ensures w.codeOf[f] != code
    {
      var before :| ExchangedBy(w.sessions, before, w.codeOf[f]);
      ExchangedCodeIsGone(w.sessions, before, w.codeOf[f], id);
    }
  }

  lemma ExchangeKeepsConsistent(w: World, c: Call)
    requires Consistent(w) && Possible(w, c) && c.Exchange?
    ensures Consistent(Next(w, c))
  {
    hide S.Next, T.Next, S.Consistent, T.Consistent, S.Consume, GrantsMatch, S.Carries, ExchangedBy, RequestsServed;
    SessionStepKeepsGrants(w, c.consume);
    SessionStepKeepsServed(w, c.consume);
    if Verdict(w, c.consume).Ok? {
      var mint := MintFor(Verdict(w, c.consume).value, c);
      T.NextKeepsConsistent(w.tokens, mint);
      var id := ExchangeIsRecorded(w, c.consume);
      CodeIsNew(w, c.consume.code, id);
      MintExtendsGrants(w.(sessions := S.Next(w.sessions, c.consume)), mint, c.consume.code, id);
      MintKeepsServed(w.(sessions := S.Next(w.sessions, c.consume)), mint, c.consume.code, id);
    }
  }

  lemma NextMintCounts(w: T.World, c: T.Call)
    requires T.Possible(w, c)
    ensures T.Next(w, c).families == w.families + (if c.CallMint? then 1 else 0)
  {
  }

  lemma NextKeepsConsistent(w: World, c: Call)
    requires Consistent(w) && Possible(w, c)
    ensures Consistent(Next(w, c))
  {
    hide S.Next, T.Next, S.Consistent, T.Consistent, GrantsMatch, RequestsServed;
    match c
    case OnSessions(s) =>
      SessionStepKeepsGrants(w, s);
      SessionStepKeepsServed(w, s);
    case OnTokens(t) =>
      TokenStepKeepsServed(w, t);
      T.NextKeepsConsistent(w.tokens, t);
      TokenStepKeepsGrants(w, t);
    case Exchange(_, _, _) => ExchangeKeepsConsistent(w, c);
  }

  lemma TokenStepKeepsGrants(w: World, t: T.Call)
    requires GrantsMatch(w) && T.Possible(w.tokens, t) && !t.CallMint?
    ensures GrantsMatch(w.(tokens := T.Next(w.tokens, t)))
  {
    NextMintCounts(w.tokens, t);
  }

  lemma {:induction false} RunKeepsConsistent(calls: seq<Call>)
    requires Trace(calls)
    ensures Consistent(Run(calls)) && forall f | f in Run(calls).codeOf :: f < Run(calls).tokens.families
  {
    if calls != [] {
      var n := |calls| - 1;
      RunKeepsConsistent(calls[..n]);
      NextKeepsConsistent(Run(calls[..n]), calls[n]);
    }
  }

  /** The grant that an issued token id belongs to. */
  ghost predicate OfCode(w: World, id: T.TokenId, code: string) {
    && id in w.tokens.issued && w.tokens.issued[id].family in w.codeOf
    && w.codeOf[w.tokens.issued[id].family] == code
  }

  /** Every token that is accepted or kept, in memory or in the file, stands for the client and the scope for which
      the session was opened whose code it goes back to. */
  lemma TokensServeTheirRequest(calls: seq<Call>)
    requires Trace(calls)
    ensures
      var w := Run(calls);
      && (forall id | id in w.tokens.store.refreshById :: Serves(w, w.tokens.store.refreshById[id], id))
      && (forall id | id in w.tokens.store.disk :: Serves(w, w.tokens.store.disk[id], id))
      && (forall h | h in w.tokens.store.accessByHash ::
            var a := w.tokens.store.accessByHash[h];
            IsServed(w, a.origin) && a.client == w.tokens.issued[a.origin].client
            && a.scope == w.tokens.issued[a.origin].scope)
  {
    RunKeepsConsistent(calls);
  }

  ghost predicate Serves(w: World, token: T.RefreshToken, id: T.TokenId) {
    IsServed(w, id) && token.client == w.tokens.issued[id].client && token.scope == w.tokens.issued[id].scope
  }

  /** Sections 4.1.2 and 6 of RFC 6749: every token ever issued goes back to one code that its session
      exchanged, and whatever was rotated, revoked, lost in a failed save or brought back by a restart,
      a code never has two live refresh tokens or two live access tokens. */
  lemma OneLivePairPerCode(calls: seq<Call>)
    requires Trace(calls)
    ensures
      var w := Run(calls);
      && (forall id | id in w.tokens.issued ::
            w.tokens.issued[id].family in w.codeOf
            && exists session :: ExchangedBy(w.sessions, session, w.codeOf[w.tokens.issued[id].family]))
      && (forall a, b, code | a in w.tokens.store.refreshById && b in w.tokens.store.refreshById
                              && OfCode(w, a, code) && OfCode(w, b, code) :: a == b)
      && (forall h, k, code | h in w.tokens.store.accessByHash && k in w.tokens.store.accessByHash
                              && OfCode(w, w.tokens.store.accessByHash[h].origin, code)
                              && OfCode(w, w.tokens.store.accessByHash[k].origin, code) :: h == k)
  {
    RunKeepsConsistent(calls);
    var w := Run(calls);
    forall h, k, code | h in w.tokens.store.accessByHash && k in w.tokens.store.accessByHash
                        && OfCode(w, w.tokens.store.accessByHash[h].origin, code)
                        && OfCode(w, w.tokens.store.accessByHash[k].origin, code)
      ensures h == k
    {
      var a, b := w.tokens.store.accessByHash[h].origin, w.tokens.store.accessByHash[k].origin;
      assert w.tokens.issued[a].family == w.tokens.issued[b].family;
      assert a == b;
    }
  }
}
