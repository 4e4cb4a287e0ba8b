/**
 The registry of issued OAuth tokens (src/oauth/tokens.rs): refresh tokens in memory and on
 disk, access tokens in memory only, rotation, and the revocation cascades.

 Every save may fail, leaving the old file in place, and the daemon may restart between any
 two calls. Random ids and tokens are parameters, assumed never to repeat. Times are in
 seconds.
 */
module Tokens {
  import opened Wrappers

  type TokenId = string
  type ClientId = string
  type Scope = Option<string>
  type Time = int

  /** The hash under which a token is stored; as a constructor it is injective. */
  datatype Digest = Sha256(plain: string)

  const ACCESS_TTL: int := 3600

  datatype AccessToken = AccessToken(origin: TokenId, client: ClientId, scope: Scope, expiresAt: Time)

  datatype RefreshToken = RefreshToken(
    hash: Digest, client: ClientId, scope: Scope, createdAt: Time, lastUsedAt: Option<Time>)

  datatype Store = Store(
    refreshById: map<TokenId, RefreshToken>,
    accessByHash: map<Digest, AccessToken>,
    disk: map<TokenId, RefreshToken>)

  /** What the random generators return to one mint. */
  datatype Draw = Draw(id: TokenId, access: string, refresh: string)

  datatype Reply =
    | SaveFailed
    | Minted(draw: Draw, scope: Scope)  // Ok(tokens) or Ok(Some(tokens))
    | NoGrant                           // Ok(None)
    | Flag(found: bool)
    | Count(n: nat)
    | Done

  const EMPTY := Store(map[], map[], map[])

  function Saved(s: Store, ok: bool): Store {
    if ok then s.(disk := s.refreshById) else s
  }

  function WithoutOrigins(access: map<Digest, AccessToken>, ids: set<TokenId>): map<Digest, AccessToken> {
    map h | h in access && access[h].origin !in ids :: access[h]
  }

  function MintPair(s: Store, client: ClientId, scope: Scope, draw: Draw, now: Time, ok: bool): (Store, Reply) {
    var access := s.accessByHash[Sha256(draw.access) := AccessToken(draw.id, client, scope, now + ACCESS_TTL)];
    var refresh := s.refreshById[draw.id := RefreshToken(Sha256(draw.refresh), client, scope, now, None)];
    (Saved(s.(accessByHash := access, refreshById := refresh), ok),
     if ok then Minted(draw, scope) else SaveFailed)
  }

  ghost function FindByRefreshHash(refresh: map<TokenId, RefreshToken>, presented: string): Option<TokenId> {
    if exists id :: id in refresh && refresh[id].hash == Sha256(presented)
    then var id :| id in refresh && refresh[id].hash == Sha256(presented); Some(id)
    else None
  }

  ghost function RotateRefresh(s: Store, presented: string, client: ClientId, draw: Draw, now: Time, ok: bool)
    : (Store, Reply)
  {
    match FindByRefreshHash(s.refreshById, presented)
    case None => (s, NoGrant)
    case Some(id) =>
      var prior := s.refreshById[id];
      if prior.client != client then (s, NoGrant)
      else MintPair(s.(refreshById := s.refreshById - {id}, accessByHash := WithoutOrigins(s.accessByHash, {id})),
                    prior.client, prior.scope, draw, now, ok)
  }

  function RevokeById(s: Store, id: TokenId, ok: bool): (Store, Reply) {
    var s' := s.(refreshById := s.refreshById - {id}, accessByHash := WithoutOrigins(s.accessByHash, {id}));
    if id !in s.refreshById then (s', Flag(false))
    else (Saved(s', ok), if ok then Flag(true) else SaveFailed)
  }

  ghost function RevokeRefreshPlain(s: Store, presented: string, ok: bool): (Store, Reply) {
    match FindByRefreshHash(s.refreshById, presented)
    case None => (s, Flag(false))
    case Some(id) => RevokeById(s, id, ok)
  }

  function RevokeAccessPlain(s: Store, presented: string): (Store, Reply) {
    (s.(accessByHash := s.accessByHash - {Sha256(presented)}), Flag(Sha256(presented) in s.accessByHash))
  }

  function OfClient(refresh: map<TokenId, RefreshToken>, client: ClientId): set<TokenId> {
    set id | id in refresh && refresh[id].client == client
  }

  function RevokeByClient(s: Store, client: ClientId, ok: bool): (Store, Reply) {
    var removed := OfClient(s.refreshById, client);
    var s' := s.(refreshById := s.refreshById - removed,
                 accessByHash :=
                   map h | h in s.accessByHash && s.accessByHash[h].client != client :: s.accessByHash[h]);
    if removed == {} then (s', Count(0))
    else (Saved(s', ok), if ok then Count(|removed|) else SaveFailed)
  }

  function Touch(s: Store, id: TokenId, now: Time, ok: bool): (Store, Reply) {
    if id !in s.refreshById then (s, Done)
    else
      var s' := s.(refreshById := s.refreshById[id := s.refreshById[id].(lastUsedAt := Some(now))]);
      (Saved(s', ok), if ok then Done else SaveFailed)
  }

  function SweepAccess(s: Store, now: Time): Store {
    s.(accessByHash := map h | h in s.accessByHash && now < s.accessByHash[h].expiresAt :: s.accessByHash[h])
  }

  function VerifyAccess(s: Store, presented: string, now: Time): Option<AccessToken> {
    if Sha256(presented) !in s.accessByHash then None
    else if now >= s.accessByHash[Sha256(presented)].expiresAt then None
    else Some(s.accessByHash[Sha256(presented)])
  }

  function Restarted(s: Store): Store {
    Store(s.disk, map[], s.disk)
  }

  // ---- Runs ----

  datatype Call =
    | CallMint(client: ClientId, scope: Scope, draw: Draw, now: Time, ok: bool)
    | CallRotate(presented: string, client: ClientId, draw: Draw, now: Time, ok: bool)
    | CallRevokeId(id: TokenId, ok: bool)
    | CallRevokeRefresh(presented: string, ok: bool)
    | CallRevokeAccess(presented: string)
    | CallRevokeClient(client: ClientId, ok: bool)
    | CallTouch(id: TokenId, now: Time, ok: bool)
    | CallSweep(now: Time)
    | Restart

  ghost function Answer(s: Store, c: Call): (Store, Reply) {
    match c
    case CallMint(client, scope, draw, now, ok) => MintPair(s, client, scope, draw, now, ok)
    case CallRotate(presented, client, draw, now, ok) => RotateRefresh(s, presented, client, draw, now, ok)
    case CallRevokeId(id, ok) => RevokeById(s, id, ok)
    case CallRevokeRefresh(presented, ok) => RevokeRefreshPlain(s, presented, ok)
    case CallRevokeAccess(presented) => RevokeAccessPlain(s, presented)
    case CallRevokeClient(client, ok) => RevokeByClient(s, client, ok)
    case CallTouch(id, now, ok) => Touch(s, id, now, ok)
    case CallSweep(now) => (SweepAccess(s, now), Done)
    case Restart => (Restarted(s), Done)
  }

  /** What was ever issued under a token id. `family` is the number of the mint that started the grant. */
  datatype Issue = Issue(family: nat, hash: Digest, accessHash: Digest, client: ClientId, scope: Scope, at: Time)

  /** The store together with everything it ever issued and every id that a call reported removed. */
  datatype World = World(store: Store, issued: map<TokenId, Issue>, families: nat, retired: set<TokenId>)

  const INITIAL := World(EMPTY, map[], 0, {})

  ghost predicate FreshDraw(w: World, draw: Draw) {
    && draw.id !in w.issued
    && (forall id | id in w.issued ::
          w.issued[id].hash != Sha256(draw.refresh) && w.issued[id].accessHash != Sha256(draw.access))
  }

  ghost predicate Possible(w: World, c: Call) {
    c.CallMint? || c.CallRotate? ==> FreshDraw(w, c.draw)
  }

  /** The refresh token that a rotation consumes. */
  ghost function Rotated(s: Store, c: Call): Option<TokenId> {
    if !c.CallRotate? then None
    else
      match FindByRefreshHash(s.refreshById, c.presented)
      case None => None
      case Some(id) => if s.refreshById[id].client == c.client then Some(id) else None
  }

  ghost function IssuedBy(w: World, c: Call): map<TokenId, Issue> {
    match c
    case CallMint(client, scope, draw, now, _) =>
      w.issued[draw.id := Issue(w.families, Sha256(draw.refresh), Sha256(draw.access), client, scope, now)]
    case CallRotate(_, client, draw, now, _) =>
      (match Rotated(w.store, c)
       case None => w.issued
       case Some(id) =>
         var (family, scope) :=
           if id in w.issued then (w.issued[id].family, w.issued[id].scope) else (w.families, None);
         w.issued[draw.id := Issue(family, Sha256(draw.refresh), Sha256(draw.access), client, scope, now)])
    case _ => w.issued
  }

  /** The refresh tokens that a call removed and reported as removed. */
  ghost function Reported(s: Store, c: Call): set<TokenId> {
    var (s', reply) := Answer(s, c);
    if c.Restart? || reply.SaveFailed? then {}
    else s.refreshById.Keys - s'.refreshById.Keys
  }

  ghost function Next(w: World, c: Call): World
    requires Possible(w, c)
  {
    World(Answer(w.store, c).0, IssuedBy(w, c), w.families + (if c.CallMint? then 1 else 0),
          w.retired + Reported(w.store, c))
  }

  ghost predicate Trace(calls: seq<Call>)
    decreases |calls|, 0
  {
    calls == [] ||
    (Trace(calls[..|calls| - 1]) && Possible(Run(calls[..|calls| - 1]), calls[|calls| - 1]))
  }

  /** The world after the calls, starting with an empty store. */
  ghost function Run(calls: seq<Call>): World
    requires Trace(calls)
    decreases |calls|, 1
  {
    if calls == [] then INITIAL
    else Next(Run(calls[..|calls| - 1]), calls[|calls| - 1])
  }

  // ---- The invariant ----

  ghost predicate Recorded(issued: map<TokenId, Issue>, refresh: map<TokenId, RefreshToken>) {
    forall id | id in refresh ::
      && id in issued && refresh[id].hash == issued[id].hash
      && refresh[id].client == issued[id].client && refresh[id].scope == issued[id].scope
  }

  ghost predicate OnePerFamily(issued: map<TokenId, Issue>, refresh: map<TokenId, RefreshToken>) {
    forall a, b | a in refresh && b in refresh && a in issued && b in issued
                  && issued[a].family == issued[b].family :: a == b
  }

  ghost predicate IssuesApart(w: World) {
    && (forall a, b | a in w.issued && b in w.issued && a != b ::
          w.issued[a].hash != w.issued[b].hash && w.issued[a].accessHash != w.issued[b].accessHash)
    && (forall a | a in w.issued :: w.issued[a].family < w.families)
  }

  /** Every access record was minted together with a refresh record that is still there. */
  ghost predicate AccessBacked(w: World) {
    forall h | h in w.store.accessByHash ::
      var a := w.store.accessByHash[h];
      && a.origin in w.store.refreshById && a.origin in w.issued
      && a.client == w.store.refreshById[a.origin].client && a.scope == w.store.refreshById[a.origin].scope
      && h == w.issued[a.origin].accessHash
      && a.expiresAt == w.issued[a.origin].at + ACCESS_TTL
  }

  ghost predicate RetiredGone(w: World) {
    && w.retired <= w.issued.Keys
    && w.retired !! w.store.refreshById.Keys
    && w.retired !! w.store.disk.Keys
  }

  ghost predicate Consistent(w: World) {
    && IssuesApart(w)
    && Recorded(w.issued, w.store.refreshById) && Recorded(w.issued, w.store.disk)
    && OnePerFamily(w.issued, w.store.refreshById) && OnePerFamily(w.issued, w.store.disk)
    && AccessBacked(w)
    && RetiredGone(w)
  }

  // ---- The parts that calls are made of ----

  function Dropped(s: Store, ids: set<TokenId>): Store {
    s.(refreshById := s.refreshById - ids, accessByHash := WithoutOrigins(s.accessByHash, ids))
  }

  lemma DropKeepsConsistent(w: World, ids: set<TokenId>)
    requires Consistent(w)
    ensures Consistent(w.(store := Dropped(w.store, ids)))
  {
  }

  lemma SaveKeepsConsistent(w: World, ok: bool, removed: set<TokenId>)
    requires Consistent(w) && removed <= w.issued.Keys && removed !! w.store.refreshById.Keys
    ensures Consistent(World(Saved(w.store, ok), w.issued, w.families, w.retired + if ok then removed else {}))
  {
  }

  lemma OnlySaveKeepsConsistent(w: World, ok: bool)
    requires Consistent(w)
    ensures Consistent(w.(store := Saved(w.store, ok)))
  {
    assert w.retired + {} == w.retired;
    SaveKeepsConsistent(w, ok, {});
  }

  ghost function Added(w: World, client: ClientId, scope: Scope, draw: Draw, now: Time, family: nat): World {
    World(
      w.store.(
        refreshById := w.store.refreshById[draw.id := RefreshToken(Sha256(draw.refresh), client, scope, now, None)],
        accessByHash :=
          w.store.accessByHash[Sha256(draw.access) := AccessToken(draw.id, client, scope, now + ACCESS_TTL)]),
      w.issued[draw.id := Issue(family, Sha256(draw.refresh), Sha256(draw.access), client, scope, now)],
      if family < w.families then w.families else family + 1,
      w.retired)
  }

  lemma AddKeepsRecords(w: World, client: ClientId, scope: Scope, draw: Draw, now: Time, family: nat)
    requires Consistent(w) && FreshDraw(w, draw)
    requires forall id | id in w.store.refreshById && id in w.issued :: w.issued[id].family != family
    ensures
      var w' := Added(w, client, scope, draw, now, family);
      && IssuesApart(w')
      && Recorded(w'.issued, w'.store.refreshById) && Recorded(w'.issued, w'.store.disk)
      && OnePerFamily(w'.issued, w'.store.refreshById)
  {
  }

  lemma AddKeepsDisk(w: World, client: ClientId, scope: Scope, draw: Draw, now: Time, family: nat)
    requires Consistent(w) && FreshDraw(w, draw)
    ensures
      var w' := Added(w, client, scope, draw, now, family);
      OnePerFamily(w'.issued, w'.store.disk) && RetiredGone(w')
  {
    var w' := Added(w, client, scope, draw, now, family);
    assert draw.id !in w.store.disk;
    forall a, b | a in w.store.disk && b in w.store.disk && w'.issued[a].family == w'.issued[b].family
      ensures a == b
    {
      assert w'.issued[a] == w.issued[a] && w'.issued[b] == w.issued[b];
    }
  }

  lemma AddKeepsAccess(w: World, client: ClientId, scope: Scope, draw: Draw, now: Time, family: nat)
    requires Consistent(w) && FreshDraw(w, draw)
    ensures AccessBacked(Added(w, client, scope, draw, now, family))
  {
    forall h | h in w.store.accessByHash
      ensures h != Sha256(draw.access)
    {
      assert w.store.accessByHash[h].origin in w.issued;
    }
  }

  lemma AddKeepsConsistent(w: World, client: ClientId, scope: Scope, draw: Draw, now: Time, family: nat)
    requires Consistent(w) && FreshDraw(w, draw)
    requires forall id | id in w.store.refreshById && id in w.issued :: w.issued[id].family != family
    ensures Consistent(Added(w, client, scope, draw, now, family))
  {
    hide Added, IssuesApart, Recorded, OnePerFamily, AccessBacked, RetiredGone;
    AddKeepsRecords(w, client, scope, draw, now, family);
    AddKeepsDisk(w, client, scope, draw, now, family);
    AddKeepsAccess(w, client, scope, draw, now, family);
  }

  // ---- Every call ----

  lemma {:induction false} FoundByHash(refresh: map<TokenId, RefreshToken>, presented: string)
    ensures
      match FindByRefreshHash(refresh, presented)
      case None => forall id | id in refresh :: refresh[id].hash != Sha256(presented)
      case Some(id) => id in refresh && refresh[id].hash == Sha256(presented)
  {
    if id :| id in refresh && refresh[id].hash == Sha256(presented) {
      assert FindByRefreshHash(refresh, presented).Some?;
    }
  }

  lemma NextOfMint(w: World, c: Call)
    requires Possible(w, c) && c.CallMint?
    ensures
      var w1 := Added(w, c.client, c.scope, c.draw, c.now, w.families);
      Next(w, c) == World(Saved(w1.store, c.ok), w1.issued, w1.families, w1.retired)
  {
    assert Reported(w.store, c) == {};
  }

  lemma MintKeepsConsistent(w: World, c: Call)
    requires Consistent(w) && Possible(w, c) && c.CallMint?
    ensures Consistent(Next(w, c))
  {
    AddKeepsConsistent(w, c.client, c.scope, c.draw, c.now, w.families);
    OnlySaveKeepsConsistent(Added(w, c.client, c.scope, c.draw, c.now, w.families), c.ok);
    NextOfMint(w, c);
  }

  lemma NextOfRotate(w: World, c: Call, id: TokenId)
    requires Possible(w, c) && Rotated(w.store, c) == Some(id)
    requires id in w.issued && w.issued[id].family < w.families && id in w.store.refreshById
    requires w.issued[id].scope == w.store.refreshById[id].scope && c.draw.id !in w.store.refreshById
    ensures
      var prior := w.store.refreshById[id];
      var w1 := w.(store := Dropped(w.store, {id}));
      var w2 := Added(w1, prior.client, prior.scope, c.draw, c.now, w.issued[id].family);
      Next(w, c) == World(Saved(w2.store, c.ok), w2.issued, w2.families, w2.retired + if c.ok then {id} else {})
  {
    var prior := w.store.refreshById[id];
    var w1 := w.(store := Dropped(w.store, {id}));
    var w2 := Added(w1, prior.client, prior.scope, c.draw, c.now, w.issued[id].family);
    assert Answer(w.store, c) == (Saved(w2.store, c.ok), if c.ok then Minted(c.draw, prior.scope) else SaveFailed);
    assert w.store.refreshById.Keys - w2.store.refreshById.Keys == {id};
  }

  lemma RotateKeepsConsistent(w: World, c: Call)
    requires Consistent(w) && Possible(w, c) && c.CallRotate?
    ensures Consistent(Next(w, c))
  {
    FoundByHash(w.store.refreshById, c.presented);
    match Rotated(w.store, c) {
      case None =>
        assert Next(w, c) == w;
      case Some(id) =>
        RotationKeepsConsistent(w, c, id);
        NextOfRotate(w, c, id);
    }
  }

  lemma RotationKeepsConsistent(w: World, c: Call, id: TokenId)
    requires Consistent(w) && Possible(w, c) && c.CallRotate? && id in w.store.refreshById
    ensures id in w.issued && w.issued[id].family < w.families && c.draw.id !in w.store.refreshById
    ensures
      var prior := w.store.refreshById[id];
      var w1 := w.(store := Dropped(w.store, {id}));
      var w2 := Added(w1, prior.client, prior.scope, c.draw, c.now, w.issued[id].family);
      Consistent(World(Saved(w2.store, c.ok), w2.issued, w2.families, w2.retired + if c.ok then {id} else {}))
  {
    var prior := w.store.refreshById[id];
    var w1 := w.(store := Dropped(w.store, {id}));
    DropKeepsConsistent(w, {id});
    AddKeepsConsistent(w1, prior.client, prior.scope, c.draw, c.now, w.issued[id].family);
    SaveKeepsConsistent(Added(w1, prior.client, prior.scope, c.draw, c.now, w.issued[id].family), c.ok, {id});
  }

  /** A revocation by any handle drops a set of refresh tokens and then saves, unless the set is empty. */
  lemma RevokeKeepsConsistent(w: World, ids: set<TokenId>, ok: bool)
    requires Consistent(w) && ids <= w.store.refreshById.Keys
    ensures
      Consistent(World(Saved(Dropped(w.store, ids), ok), w.issued, w.families, w.retired + if ok then ids else {}))
  {
    DropKeepsConsistent(w, ids);
    SaveKeepsConsistent(w.(store := Dropped(w.store, ids)), ok, ids);
  }

  /** With every access record backed, evicting by client is evicting by the client's token ids. */
  lemma EvictionByClientIsByOrigin(w: World, client: ClientId)
    requires AccessBacked(w)
    ensures
      (map h | h in w.store.accessByHash && w.store.accessByHash[h].client != client :: w.store.accessByHash[h])
      == WithoutOrigins(w.store.accessByHash, OfClient(w.store.refreshById, client))
  {
    forall h | h in w.store.accessByHash
      ensures w.store.accessByHash[h].client == client
              <==> w.store.accessByHash[h].origin in OfClient(w.store.refreshById, client)
    {
    }
  }

  lemma NextOfRevokeId(w: World, c: Call)
    requires AccessBacked(w) && c.CallRevokeId?
    ensures
      var ids := if c.id in w.store.refreshById then {c.id} else {};
      var ok := c.ok && ids != {};
      Next(w, c) == World(Saved(Dropped(w.store, ids), ok), w.issued, w.families, w.retired + if ok then ids else {})
  {
    if c.id in w.store.refreshById {
      assert w.store.refreshById.Keys - Dropped(w.store, {c.id}).refreshById.Keys == {c.id};
    } else {
      assert WithoutOrigins(w.store.accessByHash, {c.id}) == WithoutOrigins(w.store.accessByHash, {});
    }
  }

  lemma NextOfRevokeRefresh(w: World, c: Call)
    requires c.CallRevokeRefresh?
    ensures
      match FindByRefreshHash(w.store.refreshById, c.presented)
      case None => Next(w, c) == w
      case Some(id) => Next(w, c) == Next(w, CallRevokeId(id, c.ok))
  {
    if FindByRefreshHash(w.store.refreshById, c.presented).None? {
      assert Reported(w.store, c) == {};
    }
  }

  lemma NextOfRevokeClient(w: World, c: Call)
    requires AccessBacked(w) && c.CallRevokeClient?
    ensures
      var ids := OfClient(w.store.refreshById, c.client);
      var ok := c.ok && ids != {};
      Next(w, c) == World(Saved(Dropped(w.store, ids), ok), w.issued, w.families, w.retired + if ok then ids else {})
  {
    EvictionByClientIsByOrigin(w, c.client);
    var ids := OfClient(w.store.refreshById, c.client);
    assert w.store.refreshById.Keys - Dropped(w.store, ids).refreshById.Keys == ids;
  }

  lemma RevocationsKeepConsistent(w: World, c: Call)
    requires Consistent(w) && (c.CallRevokeId? || c.CallRevokeRefresh? || c.CallRevokeClient?)
    ensures Consistent(Next(w, c))
    decreases c.CallRevokeRefresh?
  {
    match c {
      case CallRevokeId(id, ok) =>
        var ids := if id in w.store.refreshById then {id} else {};
        RevokeKeepsConsistent(w, ids, ok && ids != {});
        NextOfRevokeId(w, c);
      case CallRevokeRefresh(presented, ok) =>
        NextOfRevokeRefresh(w, c);
        match FindByRefreshHash(w.store.refreshById, presented) {
          case None =>
          case Some(id) => RevocationsKeepConsistent(w, CallRevokeId(id, ok));
        }
      case CallRevokeClient(client, ok) =>
        var ids := OfClient(w.store.refreshById, client);
        RevokeKeepsConsistent(w, ids, ok && ids != {});
        NextOfRevokeClient(w, c);
    }
  }

  lemma EvictKeepsConsistent(w: World, w': World)
    requires Consistent(w) && w' == w.(store := w.store.(accessByHash := w'.store.accessByHash))
    requires forall h | h in w'.store.accessByHash ::
               h in w.store.accessByHash && w'.store.accessByHash[h] == w.store.accessByHash[h]
    ensures Consistent(w')
  {
  }

  lemma StampKeepsConsistent(w: World, id: TokenId, stamp: Time)
    requires Consistent(w) && id in w.store.refreshById
    ensures
      var refresh := w.store.refreshById;
      Consistent(w.(store := w.store.(refreshById := refresh[id := refresh[id].(lastUsedAt := Some(stamp))])))
  {
    var refresh := w.store.refreshById;
    var refresh' := refresh[id := refresh[id].(lastUsedAt := Some(stamp))];
    assert refresh'.Keys == refresh.Keys;
    assert Recorded(w.issued, refresh');
  }

  lemma TouchKeepsConsistent(w: World, c: Call)
    requires Consistent(w) && c.CallTouch?
    ensures Consistent(Next(w, c))
  {
    NextOfTouch(w, c);
    if c.id in w.store.refreshById {
      StampKeepsConsistent(w, c.id, c.now);
      var refresh := w.store.refreshById;
      OnlySaveKeepsConsistent(
        w.(store := w.store.(refreshById := refresh[c.id := refresh[c.id].(lastUsedAt := Some(c.now))])), c.ok);
    }
  }

  lemma NextOfTouch(w: World, c: Call)
    requires c.CallTouch?
    ensures c.id !in w.store.refreshById ==> Next(w, c) == w
    ensures c.id in w.store.refreshById ==>
              var refresh := w.store.refreshById;
              var s := w.store.(refreshById := refresh[c.id := refresh[c.id].(lastUsedAt := Some(c.now))]);
              Next(w, c) == World(Saved(s, c.ok), w.issued, w.families, w.retired)
  {
    assert Reported(w.store, c) == {};
  }

  lemma RestartKeepsConsistent(w: World)
    requires Consistent(w)
    ensures Consistent(Next(w, Restart))
  {
    assert Next(w, Restart) == World(Restarted(w.store), w.issued, w.families, w.retired);
  }

  lemma NextKeepsConsistent(w: World, c: Call)
    requires Consistent(w) && Possible(w, c)
    ensures Consistent(Next(w, c))
  {
    match c {
      case CallMint(_, _, _, _, _) => MintKeepsConsistent(w, c);
      case CallRotate(_, _, _, _, _) => RotateKeepsConsistent(w, c);
      case CallTouch(_, _, _) => TouchKeepsConsistent(w, c);
      case Restart => RestartKeepsConsistent(w);
      case CallRevokeAccess(_) => EvictKeepsConsistent(w, Next(w, c));
      case CallSweep(_) => EvictKeepsConsistent(w, Next(w, c));
      case _ => RevocationsKeepConsistent(w, c);
    }
  }

  /** Every run keeps the invariant; in particular no id is known, in memory or on disk, that was not issued. */
  lemma {:induction false} RunsAreConsistent(calls: seq<Call>)
    requires Trace(calls)
    ensures Consistent(Run(calls))
    ensures Run(calls).store.refreshById.Keys + Run(calls).store.disk.Keys <= Run(calls).issued.Keys
  {
    if calls != [] {
      var n := |calls| - 1;
      RunsAreConsistent(calls[..n]);
      NextKeepsConsistent(Run(calls[..n]), calls[n]);
    }
  }

  // ---- What follows for every run ----

  /** A grant, however often it was rotated and whatever was lost in failed saves and restarts,
      never has two live refresh tokens or two live access tokens. */
  lemma OneLivePairPerGrant(calls: seq<Call>)
    requires Trace(calls)
    ensures
      var w := Run(calls);
      && OnePerFamily(w.issued, w.store.refreshById) && OnePerFamily(w.issued, w.store.disk)
      && forall h, k | h in w.store.accessByHash && k in w.store.accessByHash ::
           var a, b := w.store.accessByHash[h].origin, w.store.accessByHash[k].origin;
           a in w.issued && b in w.issued && (w.issued[a].family == w.issued[b].family ==> h == k)
  {
    RunsAreConsistent(calls);
  }

  /** An access token is accepted only for an hour after its mint, and only while the refresh
      token it was minted with has been neither rotated nor revoked. */
  lemma AcceptedAccessIsBacked(calls: seq<Call>, presented: string, now: Time)
    requires Trace(calls) && VerifyAccess(Run(calls).store, presented, now).Some?
    ensures
      var w := Run(calls);
      var a := VerifyAccess(w.store, presented, now).value;
      && a.origin in w.store.refreshById && w.store.refreshById[a.origin].client == a.client
      && a.origin !in w.retired
      && a.origin in w.issued && w.issued[a.origin].accessHash == Sha256(presented)
      && now < w.issued[a.origin].at + ACCESS_TTL
  {
    RunsAreConsistent(calls);
  }

  // ---- How long a token is accepted ----

  /** The call draws a new pair of tokens. */
  ghost predicate Draws(s: Store, c: Call) {
    c.CallMint? || (c.CallRotate? && Rotated(s, c).Some?)
  }

  /** The scope of the pair that the call draws: a rotation hands it on. */
  ghost function ScopeDrawn(s: Store, c: Call): Scope
    requires Draws(s, c)
  {
    if c.CallMint? then c.scope
    else
      FoundByHash(s.refreshById, c.presented);
      s.refreshById[Rotated(s, c).value].scope
  }

  /** The call ends the access token of a pair that was drawn for `client` at time `at`. */
  predicate EndsAccess(c: Call, draw: Draw, client: ClientId, at: Time) {
    match c
    case CallMint(_, _, _, _, _) => false
    case CallRotate(presented, rotating, _, _, _) => presented == draw.refresh && rotating == client
    case CallRevokeId(id, _) => id == draw.id
    case CallRevokeRefresh(presented, _) => presented == draw.refresh
    case CallRevokeAccess(presented) => presented == draw.access
    case CallRevokeClient(revoked, _) => revoked == client
    case CallTouch(_, _, _) => false
    case CallSweep(now) => now >= at + ACCESS_TTL
    case Restart => true
  }

  /** The access record of the pair is what the call that drew it made of it; or it is gone for good. */
  ghost predicate HoldsPair(w: World, draw: Draw, client: ClientId, scope: Scope, at: Time) {
    && draw.id in w.issued
    && w.issued[draw.id].hash == Sha256(draw.refresh) && w.issued[draw.id].accessHash == Sha256(draw.access)
    && Sha256(draw.access) in w.store.accessByHash
    && w.store.accessByHash[Sha256(draw.access)] == AccessToken(draw.id, client, scope, at + ACCESS_TTL)
  }

  ghost predicate PairIsGone(w: World, draw: Draw) {
    && draw.id in w.issued && w.issued[draw.id].accessHash == Sha256(draw.access)
    && Sha256(draw.access) !in w.store.accessByHash
  }

  lemma DrawnPairIsHeld(w: World, c: Call)
    requires Consistent(w) && Possible(w, c) && Draws(w.store, c)
    ensures HoldsPair(Next(w, c), c.draw, c.client, ScopeDrawn(w.store, c), c.now)
  {
    FoundByHash(w.store.refreshById, if c.CallRotate? then c.presented else "");
  }

  lemma GonePairStaysGone(w: World, c: Call, draw: Draw)
    requires Consistent(w) && Possible(w, c) && PairIsGone(w, draw)
    ensures PairIsGone(Next(w, c), draw)
  {
  }

  lemma RotationOf(w: World, c: Call, draw: Draw, client: ClientId, scope: Scope, at: Time)
    requires Consistent(w) && HoldsPair(w, draw, client, scope, at) && (c.CallRotate? || c.CallRevokeRefresh?)
    ensures FindByRefreshHash(w.store.refreshById, c.presented) == Some(draw.id) <==> c.presented == draw.refresh
    ensures draw.id in w.store.refreshById && w.store.refreshById[draw.id].client == client
  {
    FoundByHash(w.store.refreshById, c.presented);
  }

  lemma HeldAfterRotation(w: World, c: Call, draw: Draw, client: ClientId, scope: Scope, at: Time)
    requires Consistent(w) && Possible(w, c) && HoldsPair(w, draw, client, scope, at) && c.CallRotate?
    ensures if EndsAccess(c, draw, client, at) then PairIsGone(Next(w, c), draw)
            else HoldsPair(Next(w, c), draw, client, scope, at)
  {
    RotationOf(w, c, draw, client, scope, at);
    FoundByHash(w.store.refreshById, c.presented);
  }

  lemma HeldAfterRevocation(w: World, c: Call, draw: Draw, client: ClientId, scope: Scope, at: Time)
    requires Consistent(w) && HoldsPair(w, draw, client, scope, at)
    requires c.CallRevokeId? || c.CallRevokeRefresh? || c.CallRevokeClient?
    ensures if EndsAccess(c, draw, client, at) then PairIsGone(Next(w, c), draw)
            else HoldsPair(Next(w, c), draw, client, scope, at)
  {
    match c {
      case CallRevokeId(id, ok) => NextOfRevokeId(w, c);
      case CallRevokeRefresh(presented, ok) =>
        RotationOf(w, c, draw, client, scope, at);
        NextOfRevokeRefresh(w, c);
        match FindByRefreshHash(w.store.refreshById, presented) {
          case None =>
          case Some(id) => NextOfRevokeId(w, CallRevokeId(id, ok));
        }
      case CallRevokeClient(_, _) => NextOfRevokeClient(w, c);
    }
  }

  lemma HeldPairStays(w: World, c: Call, draw: Draw, client: ClientId, scope: Scope, at: Time)
    requires Consistent(w) && Possible(w, c) && HoldsPair(w, draw, client, scope, at)
    ensures if EndsAccess(c, draw, client, at) then PairIsGone(Next(w, c), draw)
            else HoldsPair(Next(w, c), draw, client, scope, at)
  {
    match c {
      case CallRotate(_, _, _, _, _) => HeldAfterRotation(w, c, draw, client, scope, at);
      case CallRevokeId(_, _) => HeldAfterRevocation(w, c, draw, client, scope, at);
      case CallRevokeRefresh(_, _) => HeldAfterRevocation(w, c, draw, client, scope, at);
      case CallRevokeClient(_, _) => HeldAfterRevocation(w, c, draw, client, scope, at);
      case CallTouch(_, _, _) => NextOfTouch(w, c);
      case _ =>
    }
  }

  predicate Ended(more: seq<Call>, draw: Draw, client: ClientId, at: Time) {
    exists i :: 0 <= i < |more| && EndsAccess(more[i], draw, client, at)
  }

  lemma EndedStepwise(more: seq<Call>, draw: Draw, client: ClientId, at: Time)
    requires more != []
    ensures Ended(more, draw, client, at) <==>
            Ended(more[..|more| - 1], draw, client, at) || EndsAccess(more[|more| - 1], draw, client, at)
  {
    var n := |more| - 1;
    if i :| 0 <= i < n && EndsAccess(more[..n][i], draw, client, at) {
      assert EndsAccess(more[i], draw, client, at);
    }
    if i :| 0 <= i < |more| && EndsAccess(more[i], draw, client, at) {
      assert i < n ==> EndsAccess(more[..n][i], draw, client, at);
    }
  }

  lemma {:induction false} PairAfterCalls(
      calls: seq<Call>, more: seq<Call>, draw: Draw, client: ClientId, scope: Scope, at: Time)
    requires Trace(calls) && Trace(calls + more) && HoldsPair(Run(calls), draw, client, scope, at)
    ensures if Ended(more, draw, client, at) then PairIsGone(Run(calls + more), draw)
            else HoldsPair(Run(calls + more), draw, client, scope, at)
    decreases |more|
  {
    hide Next, Possible, Consistent, HoldsPair, PairIsGone, Ended, EndsAccess, Run, Trace;
    if more == [] {
      assert calls + more == calls;
      NotEnded(draw, client, at);
    } else {
      var n := |more| - 1;
      FrontOf(calls, more);
      PairAfterCalls(calls, more[..n], draw, client, scope, at);
      RunsAreConsistent(calls + more[..n]);
      EndedStepwise(more, draw, client, at);
      var w := Run(calls + more[..n]);
      if Ended(more[..n], draw, client, at) {
        GonePairStaysGone(w, more[n], draw);
      } else {
        HeldPairStays(w, more[n], draw, client, scope, at);
      }
    }
  }

  lemma NotEnded(draw: Draw, client: ClientId, at: Time)
    ensures !Ended([], draw, client, at)
  {
  }

  /**
   An access token is accepted if and only if its hour is not over and no call since its mint has ended it: a
   restart, the rotation or revocation of its refresh token, the revocation of the token itself or of its
   client, or a sweep after its hour. It then stands for the client and the scope it was minted for.
   */
  lemma AcceptedExactly(calls: seq<Call>, c: Call, more: seq<Call>, now: Time)
    requires Trace(calls) && Trace(calls + [c]) && Trace(calls + [c] + more) && Draws(Run(calls).store, c)
    ensures VerifyAccess(Run(calls + [c] + more).store, c.draw.access, now)
         == if now < c.now + ACCESS_TTL && !Ended(more, c.draw, c.client, c.now)
            then Some(AccessToken(c.draw.id, c.client, ScopeDrawn(Run(calls).store, c), c.now + ACCESS_TTL))
            else None
  {
    hide Next, Consistent, Ended;
    assert (calls + [c])[..|calls|] == calls;
    RunsAreConsistent(calls);
    DrawnPairIsHeld(Run(calls), c);
    PairAfterCalls(calls + [c], more, c.draw, c.client, ScopeDrawn(Run(calls).store, c), c.now);
  }

  /** The call ends the refresh token of a pair that was drawn for `client`. */
  predicate EndsRefresh(c: Call, draw: Draw, client: ClientId) {
    match c
    case CallRotate(presented, rotating, _, _, _) => presented == draw.refresh && rotating == client
    case CallRevokeId(id, _) => id == draw.id
    case CallRevokeRefresh(presented, _) => presented == draw.refresh
    case CallRevokeClient(revoked, _) => revoked == client
    case _ => false
  }

  /** The refresh token of the pair is in memory, or it is not. */
  ghost predicate HoldsRefresh(w: World, id: TokenId, record: RefreshToken, held: bool) {
    && id in w.issued && w.issued[id].hash == record.hash && w.issued[id].client == record.client
    && (id in w.store.refreshById <==> held)
    && (held ==> w.store.refreshById[id] == record)
  }

  /** The record of a pair that was drawn and not used yet. */
  function NewRecord(draw: Draw, client: ClientId, scope: Scope, at: Time): RefreshToken {
    RefreshToken(Sha256(draw.refresh), client, scope, at, None)
  }

  function Touched(record: RefreshToken, c: Call, id: TokenId): RefreshToken {
    if c.CallTouch? && c.id == id then record.(lastUsedAt := Some(c.now)) else record
  }

  lemma DrawnRefreshIsHeld(w: World, c: Call)
    requires Consistent(w) && Possible(w, c) && Draws(w.store, c)
    ensures HoldsRefresh(Next(w, c), c.draw.id, NewRecord(c.draw, c.client, ScopeDrawn(w.store, c), c.now), true)
  {
    FoundByHash(w.store.refreshById, if c.CallRotate? then c.presented else "");
  }

  /** A presented token is found exactly if it is the one of the pair, while that is held. */
  lemma PresentedIsFound(w: World, presented: string, draw: Draw, record: RefreshToken, held: bool)
    requires Consistent(w) && HoldsRefresh(w, draw.id, record, held) && record.hash == Sha256(draw.refresh)
    ensures FindByRefreshHash(w.store.refreshById, presented) == Some(draw.id) <==> held && presented == draw.refresh
    ensures presented == draw.refresh && !held ==> FindByRefreshHash(w.store.refreshById, presented).None?
    ensures held ==> w.store.refreshById[draw.id] == record
  {
    FoundByHash(w.store.refreshById, presented);
  }

  lemma RefreshAfterRotation(w: World, c: Call, draw: Draw, record: RefreshToken, held: bool)
    requires Consistent(w) && Possible(w, c) && HoldsRefresh(w, draw.id, record, held)
    requires record.hash == Sha256(draw.refresh) && c.CallRotate?
    ensures HoldsRefresh(Next(w, c), draw.id, Touched(record, c, draw.id), held && !EndsRefresh(c, draw, record.client))
  {
    PresentedIsFound(w, c.presented, draw, record, held);
    FoundByHash(w.store.refreshById, c.presented);
  }

  lemma RefreshAfterRevocation(w: World, c: Call, draw: Draw, record: RefreshToken, held: bool)
    requires Consistent(w) && HoldsRefresh(w, draw.id, record, held) && record.hash == Sha256(draw.refresh)
    requires c.CallRevokeId? || c.CallRevokeRefresh? || c.CallRevokeClient?
    ensures HoldsRefresh(Next(w, c), draw.id, Touched(record, c, draw.id), held && !EndsRefresh(c, draw, record.client))
  {
    match c {
      case CallRevokeId(_, _) => NextOfRevokeId(w, c);
      case CallRevokeRefresh(presented, ok) =>
        PresentedIsFound(w, presented, draw, record, held);
        NextOfRevokeRefresh(w, c);
        match FindByRefreshHash(w.store.refreshById, presented) {
          case None =>
          case Some(id) => NextOfRevokeId(w, CallRevokeId(id, ok));
        }
      case CallRevokeClient(_, _) =>
        NextOfRevokeClient(w, c);
        PresentedIsFound(w, draw.refresh, draw, record, held);
    }
  }

  lemma RefreshAfterCall(w: World, c: Call, draw: Draw, record: RefreshToken, held: bool)
    requires Consistent(w) && Possible(w, c) && HoldsRefresh(w, draw.id, record, held)
    requires record.hash == Sha256(draw.refresh) && !c.Restart?
    ensures HoldsRefresh(Next(w, c), draw.id, Touched(record, c, draw.id), held && !EndsRefresh(c, draw, record.client))
  {
    match c {
      case CallRotate(_, _, _, _, _) => RefreshAfterRotation(w, c, draw, record, held);
      case CallRevokeId(_, _) => RefreshAfterRevocation(w, c, draw, record, held);
      case CallRevokeRefresh(_, _) => RefreshAfterRevocation(w, c, draw, record, held);
      case CallRevokeClient(_, _) => RefreshAfterRevocation(w, c, draw, record, held);
      case CallTouch(_, _, _) => NextOfTouch(w, c);
      case _ =>
    }
  }

  predicate NoRestart(more: seq<Call>) {
    forall i | 0 <= i < |more| :: !more[i].Restart?
  }

  predicate Removed(more: seq<Call>, draw: Draw, client: ClientId) {
    exists i :: 0 <= i < |more| && EndsRefresh(more[i], draw, client)
  }

  lemma RemovedStepwise(more: seq<Call>, draw: Draw, client: ClientId)
    requires more != []
    ensures Removed(more, draw, client) <==>
            Removed(more[..|more| - 1], draw, client) || EndsRefresh(more[|more| - 1], draw, client)
    ensures NoRestart(more) ==> NoRestart(more[..|more| - 1]) && !more[|more| - 1].Restart?
  {
    var n := |more| - 1;
    if i :| 0 <= i < n && EndsRefresh(more[..n][i], draw, client) {
      assert EndsRefresh(more[i], draw, client);
    }
    if i :| 0 <= i < |more| && EndsRefresh(more[i], draw, client) {
      assert i < n ==> EndsRefresh(more[..n][i], draw, client);
    }
  }

  /** The record as the last touch among the calls leaves it. */
  function LastTouched(record: RefreshToken, more: seq<Call>, id: TokenId): RefreshToken {
    if more == [] then record
    else
      var n := |more| - 1;
      if more[n].CallTouch? && more[n].id == id then record.(lastUsedAt := Some(more[n].now))
      else LastTouched(record, more[..n], id)
  }

  lemma {:induction false} TouchesOnlyMark(record: RefreshToken, more: seq<Call>, id: TokenId)
    ensures
      var last := LastTouched(record, more, id);
      && last.hash == record.hash && last.client == record.client
      && last.(lastUsedAt := None) == record.(lastUsedAt := None)
  {
    if more != [] {
      TouchesOnlyMark(record, more[..|more| - 1], id);
    }
  }

  lemma {:induction false} RefreshAfterCalls(calls: seq<Call>, more: seq<Call>, draw: Draw, record: RefreshToken)
    requires Trace(calls) && Trace(calls + more) && HoldsRefresh(Run(calls), draw.id, record, true)
    requires NoRestart(more) && record.hash == Sha256(draw.refresh)
    ensures HoldsRefresh(Run(calls + more), draw.id, LastTouched(record, more, draw.id),
                         !Removed(more, draw, record.client))
    decreases |more|
  {
    hide Next, Possible, Consistent, HoldsRefresh, Removed, NoRestart, EndsRefresh, Run, Trace;
    if more == [] {
      assert calls + more == calls;
      NotRemoved(draw, record.client);
    } else {
      var n := |more| - 1;
      FrontOf(calls, more);
      RemovedStepwise(more, draw, record.client);
      RefreshAfterCalls(calls, more[..n], draw, record);
      RunsAreConsistent(calls + more[..n]);
      var before := LastTouched(record, more[..n], draw.id);
      TouchesOnlyMark(record, more[..n], draw.id);
      RefreshAfterCall(Run(calls + more[..n]), more[n], draw, before, !Removed(more[..n], draw, record.client));
      assert Touched(before, more[n], draw.id) == LastTouched(record, more, draw.id);
    }
  }

  lemma NotRemoved(draw: Draw, client: ClientId)
    ensures !Removed([], draw, client)
  {
  }

  /**
   Without a restart, a refresh token can be rotated if and only if it was neither rotated by its client nor
   revoked, by itself or with its client; only its client can do it, and the scope stays the same. The retry
   of anything that ended it is answered "no grant". Until then its record tells when it was minted and
   when it was last touched.
   */
  lemma RotatesExactly(
      calls: seq<Call>, c: Call, more: seq<Call>, client: ClientId, draw: Draw, now: Time, ok: bool)
    requires Trace(calls) && Trace(calls + [c]) && Trace(calls + [c] + more) && Draws(Run(calls).store, c)
    requires NoRestart(more)
    ensures RotateRefresh(Run(calls + [c] + more).store, c.draw.refresh, client, draw, now, ok).1
         == if Removed(more, c.draw, c.client) || client != c.client then NoGrant
            else if ok then Minted(draw, ScopeDrawn(Run(calls).store, c)) else SaveFailed
    ensures
      var s := Run(calls + [c] + more).store;
      if Removed(more, c.draw, c.client) then c.draw.id !in s.refreshById
      else
        && c.draw.id in s.refreshById
        && s.refreshById[c.draw.id]
           == LastTouched(NewRecord(c.draw, c.client, ScopeDrawn(Run(calls).store, c), c.now), more, c.draw.id)
  {
    hide Next, Consistent, Removed, NoRestart;
    assert (calls + [c])[..|calls|] == calls;
    RunsAreConsistent(calls);
    DrawnRefreshIsHeld(Run(calls), c);
    var record := NewRecord(c.draw, c.client, ScopeDrawn(Run(calls).store, c), c.now);
    RefreshAfterCalls(calls + [c], more, c.draw, record);
    RunsAreConsistent(calls + [c] + more);
    TouchesOnlyMark(record, more, c.draw.id);
    PresentedIsFound(Run(calls + [c] + more), c.draw.refresh, c.draw, LastTouched(record, more, c.draw.id),
                     !Removed(more, c.draw, c.client));
  }

  /** What a revocation by id answers is what it did: a refused save leaves the file, otherwise the flag tells
      whether the token was there, and in any case neither it nor its access tokens are left in memory. */
  lemma RevocationTells(s: Store, id: TokenId, ok: bool)
    ensures
      var (s', reply) := RevokeById(s, id, ok);
      && id !in s'.refreshById && (forall h | h in s'.accessByHash :: s'.accessByHash[h].origin != id)
      && (if reply.SaveFailed? then s'.disk == s.disk else reply == Flag(id in s.refreshById))
      && (reply == Flag(true) ==> id !in s'.disk)
  {
  }

  /** A revocation by the token itself is one by its id; an unknown token changes nothing. */
  lemma RefreshRevocationTells(calls: seq<Call>, presented: string, ok: bool)
    requires Trace(calls)
    ensures
      var s := Run(calls).store;
      var (s', reply) := RevokeRefreshPlain(s, presented, ok);
      && FindByRefreshHash(s'.refreshById, presented).None?
      && (forall id | id in s.refreshById && s.refreshById[id].hash == Sha256(presented) ::
            (s', reply) == RevokeById(s, id, ok))
      && ((forall id | id in s.refreshById :: s.refreshById[id].hash != Sha256(presented)) ==>
            (s', reply) == (s, Flag(false)))
  {
    hide Next;
    RunsAreConsistent(calls);
    var s := Run(calls).store;
    FoundByHash(s.refreshById, presented);
    FoundByHash(RevokeRefreshPlain(s, presented, ok).0.refreshById, presented);
  }

  /** So does the revocation of an access token, which is never saved. */
  lemma AccessRevocationTells(s: Store, presented: string, now: Time)
    ensures
      var (s', reply) := RevokeAccessPlain(s, presented);
      && VerifyAccess(s', presented, now).None? && reply == Flag(Sha256(presented) in s.accessByHash)
      && s'.refreshById == s.refreshById && s'.disk == s.disk
  {
  }

  /** And the revocation of a client, which counts its refresh tokens. */
  lemma ClientRevocationTells(s: Store, client: ClientId, ok: bool)
    ensures
      var (s', reply) := RevokeByClient(s, client, ok);
      && OfClient(s'.refreshById, client) == {}
      && (forall h | h in s'.accessByHash :: s'.accessByHash[h].client != client)
      && (if reply.SaveFailed? then s'.disk == s.disk else reply == Count(|OfClient(s.refreshById, client)|))
      && (reply.Count? && reply.n > 0 ==> OfClient(s'.disk, client) == {})
  {
  }

  /** The refresh tokens in memory when the file was last written. */
  ghost function LastSaved(calls: seq<Call>): map<TokenId, RefreshToken>
    requires Trace(calls)
  {
    if calls == [] then map[]
    else
      var n := |calls| - 1;
      if Saves(Run(calls[..n]).store, calls[n]) then Run(calls).store.refreshById else LastSaved(calls[..n])
  }

  /** The file holds what was in memory when a call last saved it, and a restart brings just that back. */
  lemma {:induction false} FileIsLastSaved(calls: seq<Call>)
    requires Trace(calls)
    ensures Run(calls).store.disk == LastSaved(calls)
    ensures calls != [] && calls[|calls| - 1].Restart? ==>
              Run(calls).store.refreshById == LastSaved(calls) && Run(calls).store.accessByHash == map[]
  {
    hide Saves;
    if calls != [] {
      FileIsLastSaved(calls[..|calls| - 1]);
      SavingWritesMemory(Run(calls[..|calls| - 1]).store, calls[|calls| - 1]);
    }
  }

  lemma NextOnlyAdds(w: World, c: Call)
    requires Possible(w, c)
    ensures w.retired <= Next(w, c).retired
    ensures forall id | id in w.issued :: id in Next(w, c).issued && Next(w, c).issued[id] == w.issued[id]
  {
  }

  lemma {:induction false} RunOnlyAdds(calls: seq<Call>, k: nat)
    requires Trace(calls) && k <= |calls|
    ensures Trace(calls[..k]) && Run(calls[..k]).retired <= Run(calls).retired
    ensures forall id | id in Run(calls[..k]).issued ::
              id in Run(calls).issued && Run(calls).issued[id] == Run(calls[..k]).issued[id]
  {
    if k == |calls| {
      assert calls[..k] == calls;
    } else {
      var front := calls[..|calls| - 1];
      assert front[..k] == calls[..k];
      RunOnlyAdds(front, k);
      NextOnlyAdds(Run(front), calls[|calls| - 1]);
    }
  }

  /** A refresh token that a call reported as rotated or revoked is found neither in memory nor on
      disk after any further calls, so it never rotates again, not even after a restart. */
  lemma RemovedTokensStayRemoved(calls: seq<Call>, k: nat, id: TokenId, presented: string)
    requires Trace(calls) && k < |calls|
    requires Trace(calls[..k]) && id in Reported(Run(calls[..k]).store, calls[k])
    requires id in Run(calls).issued && Run(calls).issued[id].hash == Sha256(presented)
    ensures FindByRefreshHash(Run(calls).store.refreshById, presented) == None
    ensures FindByRefreshHash(Run(calls).store.disk, presented) == None
  {
    assert calls[..k + 1][..k] == calls[..k];
    RunOnlyAdds(calls, k + 1);
    assert id in Run(calls[..k + 1]).retired;
    RunsAreConsistent(calls);
    AbsentIsNotFound(Run(calls), id, presented);
  }

  lemma AbsentIsNotFound(w: World, id: TokenId, presented: string)
    requires Consistent(w) && id in w.issued && w.issued[id].hash == Sha256(presented)
    ensures id !in w.store.refreshById ==> FindByRefreshHash(w.store.refreshById, presented) == None
    ensures id !in w.store.disk ==> FindByRefreshHash(w.store.disk, presented) == None
  {
    FoundByHash(w.store.refreshById, presented);
    FoundByHash(w.store.disk, presented);
  }

  lemma NextKeepsAbsent(w: World, c: Call, id: TokenId)
    requires Possible(w, c)
    requires id in w.issued && id !in w.store.refreshById && id !in w.store.disk
    ensures id !in Next(w, c).store.refreshById && id !in Next(w, c).store.disk
  {
  }

  lemma {:induction false} AbsentStaysAbsent(calls: seq<Call>, more: seq<Call>, id: TokenId)
    requires Trace(calls) && Trace(calls + more)
    requires id in Run(calls).issued && id !in Run(calls).store.refreshById && id !in Run(calls).store.disk
    ensures id in Run(calls + more).issued
    ensures id !in Run(calls + more).store.refreshById && id !in Run(calls + more).store.disk
  {
    if more == [] {
      assert calls + more == calls;
    } else {
      var all, front := calls + more, calls + more[..|more| - 1];
      assert all[..|all| - 1] == front;
      AbsentStaysAbsent(calls, more[..|more| - 1], id);
      NextKeepsAbsent(Run(front), all[|all| - 1], id);
      NextOnlyAdds(Run(front), all[|all| - 1]);
    }
  }

  lemma OnDiskComesBack(calls: seq<Call>, id: TokenId, presented: string)
    requires Trace(calls) && id in Run(calls).store.disk && Run(calls).store.disk[id].hash == Sha256(presented)
    ensures Trace(calls + [Restart])
    ensures FindByRefreshHash(Run(calls + [Restart]).store.refreshById, presented).Some?
  {
    var all := calls + [Restart];
    assert all[..|all| - 1] == calls;
    FoundByHash(Run(all).store.refreshById, presented);
    assert id in Run(all).store.refreshById;
  }

  lemma AbsentNeverFound(calls: seq<Call>, more: seq<Call>, id: TokenId, presented: string)
    requires Trace(calls) && Trace(calls + more)
    requires id in Run(calls).issued && Run(calls).issued[id].hash == Sha256(presented)
    requires id !in Run(calls).store.refreshById && id !in Run(calls).store.disk
    ensures FindByRefreshHash(Run(calls + more).store.refreshById, presented) == None
  {
    AbsentStaysAbsent(calls, more, id);
    RunOnlyAdds(calls + more, |calls|);
    assert (calls + more)[..|calls|] == calls;
    RunsAreConsistent(calls + more);
    AbsentIsNotFound(Run(calls + more), id, presented);
  }

  /**
   Answering "no such token" skips the save. So when a revocation finds the token already gone
   from memory, it is final if and only if the token is also gone from the file.
   */
  lemma UnknownTokenIsFinalExactlyOffDisk(calls: seq<Call>, id: TokenId, presented: string, ok: bool)
    requires Trace(calls) && id in Run(calls).issued && Run(calls).issued[id].hash == Sha256(presented)
    requires id !in Run(calls).store.refreshById
    ensures RevokeById(Run(calls).store, id, ok).1 == Flag(false)
    ensures id !in Run(calls).store.disk <==>
            forall more | Trace(calls + more) ::
              FindByRefreshHash(Run(calls + more).store.refreshById, presented) == None
  {
    RunsAreConsistent(calls);
    if id in Run(calls).store.disk {
      OnDiskComesBack(calls, id, presented);
    } else {
      forall more | Trace(calls + more)
        ensures FindByRefreshHash(Run(calls + more).store.refreshById, presented) == None
      {
        AbsentNeverFound(calls, more, id, presented);
      }
    }
  }

  /** The case arises: a revocation whose save failed, its retry answered "no such token", and a
      restart bring a revoked refresh token back to life. */
  lemma RetriedRevocationCanBeLost()
    ensures exists calls, id ::
              && Trace(calls) && |calls| == 4
              && calls[1] == CallRevokeId(id, false) && calls[2] == CallRevokeId(id, true) && calls[3] == Restart
              && id in Run(calls).store.refreshById
  {
    var draw := Draw("tok_1", "at_1", "rt_1");
    var mint := CallMint("client", None, draw, 0, true);
    var revoke, retry := CallRevokeId("tok_1", false), CallRevokeId("tok_1", true);
    var c1, w1 := Then([], INITIAL, mint);
    assert w1.store.disk == w1.store.refreshById && "tok_1" in w1.store.disk;
    var c2, w2 := Then(c1, w1, revoke);
    assert w2.store.disk == w1.store.disk && "tok_1" !in w2.store.refreshById;
    var c3, w3 := Then(c2, w2, retry);
    assert w3.store.disk == w1.store.disk;
    var c4, w4 := Then(c3, w3, Restart);
    assert "tok_1" in w4.store.refreshById;
  }

  // ---- A token that is gone from memory only ----

  /** The call writes the file. */
  ghost predicate Saves(s: Store, c: Call) {
    match c
    case CallMint(_, _, _, _, ok) => ok
    case CallRotate(_, _, _, _, ok) => ok && Rotated(s, c).Some?
    case CallRevokeId(id, ok) => ok && id in s.refreshById
    case CallRevokeRefresh(presented, ok) => ok && FindByRefreshHash(s.refreshById, presented).Some?
    case CallRevokeClient(client, ok) => ok && OfClient(s.refreshById, client) != {}
    case CallTouch(id, _, ok) => ok && id in s.refreshById
    case _ => false
  }

  lemma SavingWritesMemory(s: Store, c: Call)
    ensures Answer(s, c).0.disk == if Saves(s, c) then Answer(s, c).0.refreshById else s.disk
  {
  }

  lemma FrontOf(calls: seq<Call>, more: seq<Call>)
    requires Trace(calls + more) && more != []
    ensures
      var n := |more| - 1;
      && Trace(calls + more[..n]) && Possible(Run(calls + more[..n]), more[n])
      && Run(calls + more) == Next(Run(calls + more[..n]), more[n])
  {
    var all := calls + more;
    assert all[..|all| - 1] == calls + more[..|more| - 1];
  }

  /** None of the calls `more` writes the file. */
  ghost predicate NothingSaved(calls: seq<Call>, more: seq<Call>)
    requires Trace(calls + more)
    decreases |more|
  {
    more == [] ||
    (FrontOf(calls, more);
     var n := |more| - 1;
     NothingSaved(calls, more[..n]) && !Saves(Run(calls + more[..n]).store, more[n]))
  }

  /** Among the calls `more` is a restart that comes before every one that writes the file. */
  ghost predicate RestartBeforeSave(calls: seq<Call>, more: seq<Call>)
    requires Trace(calls + more)
    decreases |more|
  {
    more != [] &&
    (FrontOf(calls, more);
     var n := |more| - 1;
     RestartBeforeSave(calls, more[..n]) || (more[n].Restart? && NothingSaved(calls, more[..n])))
  }

  /** The token is in memory before, between or after the calls `more`. */
  ghost predicate EverLive(calls: seq<Call>, more: seq<Call>, id: TokenId)
    requires Trace(calls + more)
    decreases |more|
  {
    id in Run(calls + more).store.refreshById ||
    (more != [] && (FrontOf(calls, more); EverLive(calls, more[..|more| - 1], id)))
  }

  lemma StepOfAbsent(w: World, c: Call, id: TokenId)
    requires Possible(w, c) && id in w.issued && id !in w.store.refreshById
    ensures id in Next(w, c).store.refreshById <==> c.Restart? && id in w.store.disk
    ensures id in Next(w, c).store.disk <==> id in w.store.disk && !Saves(w.store, c)
    ensures id in Next(w, c).issued
  {
    SavingWritesMemory(w.store, c);
  }

  /** A token that is in the file but not in memory lives again exactly if a restart comes before the next
      successful save. */
  lemma {:induction false} LivesAgainExactly(calls: seq<Call>, more: seq<Call>, id: TokenId)
    requires Trace(calls) && Trace(calls + more) && id in Run(calls).issued
    requires id !in Run(calls).store.refreshById && id in Run(calls).store.disk
    ensures EverLive(calls, more, id) <==> RestartBeforeSave(calls, more)
    ensures !RestartBeforeSave(calls, more) ==>
      var w := Run(calls + more);
      && id in w.issued && id !in w.store.refreshById && (id in w.store.disk <==> NothingSaved(calls, more))
    decreases |more|
  {
    hide Next, Possible, Saves, Trace, Run;
    if more == [] {
      assert calls + more == calls;
    } else {
      var n := |more| - 1;
      FrontOf(calls, more);
      LivesAgainExactly(calls, more[..n], id);
      if !RestartBeforeSave(calls, more[..n]) {
        StepOfAbsent(Run(calls + more[..n]), more[n], id);
      }
    }
  }

  lemma {:induction false} AbsentIsNeverLive(calls: seq<Call>, more: seq<Call>, id: TokenId)
    requires Trace(calls) && Trace(calls + more) && id in Run(calls).issued
    requires id !in Run(calls).store.refreshById && id !in Run(calls).store.disk
    ensures !EverLive(calls, more, id)
    decreases |more|
  {
    hide Next, Possible, Trace, Run;
    AbsentStaysAbsent(calls, more, id);
    if more != [] {
      FrontOf(calls, more);
      AbsentIsNeverLive(calls, more[..|more| - 1], id);
    }
  }

  /**
   A rotation whose save failed has consumed the token in memory, so its retry is answered "no grant". The token
   lives again exactly if it was in the file and a restart comes before the next successful save.
   */
  lemma LostRotationExactly(calls: seq<Call>, c: Call, id: TokenId, more: seq<Call>)
    requires Trace(calls) && Trace(calls + [c]) && Trace(calls + [c] + more)
    requires c.CallRotate? && !c.ok && Rotated(Run(calls).store, c) == Some(id)
    ensures Answer(Run(calls).store, c).1.SaveFailed?
    ensures forall draw, now, ok ::
      RotateRefresh(Run(calls + [c]).store, c.presented, c.client, draw, now, ok) == (Run(calls + [c]).store, NoGrant)
    ensures EverLive(calls + [c], more, id) <==>
            id in Run(calls).store.disk && RestartBeforeSave(calls + [c], more)
  {
    RotationConsumes(calls, c, id);
    if id in Run(calls).store.disk {
      LivesAgainExactly(calls + [c], more, id);
    } else {
      AbsentIsNeverLive(calls + [c], more, id);
    }
  }

  lemma RotationConsumes(calls: seq<Call>, c: Call, id: TokenId)
    requires Trace(calls) && Trace(calls + [c])
    requires c.CallRotate? && !c.ok && Rotated(Run(calls).store, c) == Some(id)
    ensures
      var w := Run(calls + [c]);
      && id in w.issued && w.issued[id].hash == Sha256(c.presented)
      && id !in w.store.refreshById && w.store.disk == Run(calls).store.disk
      && FindByRefreshHash(w.store.refreshById, c.presented).None?
  {
    assert (calls + [c])[..|calls|] == calls;
    RunsAreConsistent(calls);
    RunsAreConsistent(calls + [c]);
    FoundByHash(Run(calls).store.refreshById, c.presented);
    AbsentIsNotFound(Run(calls + [c]), id, c.presented);
  }

  /** No token that was issued to the client by now is ever found again. */
  ghost predicate NeverBack(calls: seq<Call>, client: ClientId, more: seq<Call>)
    requires Trace(calls) && Trace(calls + more)
  {
    forall id | id in Run(calls).issued && Run(calls).issued[id].client == client ::
      id !in Run(calls + more).store.refreshById
  }

  /**
   Revoking a client is subject to the same loss: answering that nothing was removed skips the save.
   That answer is final if and only if no token of the client is left in the file.
   */
  lemma NoClientTokensIsFinalExactlyOffDisk(calls: seq<Call>, client: ClientId, ok: bool)
    requires Trace(calls) && OfClient(Run(calls).store.refreshById, client) == {}
    ensures RevokeByClient(Run(calls).store, client, ok).1 == Count(0)
    ensures RevokeByClient(Run(calls).store, client, ok).0.disk == Run(calls).store.disk
    ensures OfClient(Run(calls).store.disk, client) == {} <==>
            forall more | Trace(calls + more) :: NeverBack(calls, client, more)
  {
    hide Next, Answer, Consistent;
    if OfClient(Run(calls).store.disk, client) != {} {
      RestartBringsBack(calls, client);
    } else {
      forall more | Trace(calls + more)
        ensures NeverBack(calls, client, more)
      {
        ClientStaysAbsent(calls, client, more);
      }
    }
  }

  lemma RestartReadsDisk(calls: seq<Call>)
    requires Trace(calls)
    ensures Trace(calls + [Restart]) && Run(calls + [Restart]).store.refreshById == Run(calls).store.disk
  {
    var all, w' := Then(calls, Run(calls), Restart);
  }

  lemma DiskIsIssued(calls: seq<Call>, id: TokenId)
    requires Trace(calls) && id in Run(calls).store.disk
    ensures id in Run(calls).issued && Run(calls).issued[id].client == Run(calls).store.disk[id].client
  {
    RunsAreConsistent(calls);
  }

  lemma RestartBringsBack(calls: seq<Call>, client: ClientId)
    requires Trace(calls) && OfClient(Run(calls).store.disk, client) != {}
    ensures Trace(calls + [Restart]) && !NeverBack(calls, client, [Restart])
  {
    hide Run, Trace, OfClient;
    var id: TokenId := ClientToken(Run(calls).store.disk, client);
    RestartReadsDisk(calls);
    DiskIsIssued(calls, id);
  }

  lemma ClientToken(refresh: map<TokenId, RefreshToken>, client: ClientId) returns (id: TokenId)
    requires OfClient(refresh, client) != {}
    ensures id in refresh && refresh[id].client == client
  {
    id :| id in OfClient(refresh, client);
  }

  lemma ClientStaysAbsent(calls: seq<Call>, client: ClientId, more: seq<Call>)
    requires Trace(calls) && Trace(calls + more)
    requires OfClient(Run(calls).store.refreshById, client) == {} && OfClient(Run(calls).store.disk, client) == {}
    ensures NeverBack(calls, client, more)
  {
    RunsAreConsistent(calls);
    var w := Run(calls);
    forall id | id in w.issued && w.issued[id].client == client
      ensures id !in Run(calls + more).store.refreshById
    {
      assert id !in OfClient(w.store.refreshById, client) && id !in OfClient(w.store.disk, client);
      AbsentStaysAbsent(calls, more, id);
    }
  }

  lemma Then(calls: seq<Call>, w: World, c: Call) returns (calls': seq<Call>, w': World)
    requires Trace(calls) && Run(calls) == w && Possible(w, c)
    ensures calls' == calls + [c] && Trace(calls') && Run(calls') == w' && w' == Next(w, c)
  {
    calls', w' := calls + [c], Next(w, c);
    assert calls'[..|calls'| - 1] == calls;
  }

  // ---- Revoking a client ----

  function Memory(s: Store): (map<TokenId, RefreshToken>, map<Digest, AccessToken>) {
    (s.refreshById, s.accessByHash)
  }

  /** Revoking the tokens one by one, in this order; `oks` says which saves succeed. */
  function RevokeEach(s: Store, ids: seq<TokenId>, oks: seq<bool>): Store
    requires |ids| == |oks|
    decreases |ids|
  {
    if ids == [] then s
    else RevokeEach(RevokeById(s, ids[0], oks[0]).0, ids[1..], oks[1..])
  }

  lemma {:induction false} RevokeEachDrops(s: Store, ids: seq<TokenId>, oks: seq<bool>)
    requires |ids| == |oks|
    ensures Memory(RevokeEach(s, ids, oks)) == Memory(Dropped(s, set id | id in ids))
    decreases |ids|
  {
    if ids == [] {
      assert (set id | id in ids) == {};
      assert s.refreshById - {} == s.refreshById && WithoutOrigins(s.accessByHash, {}) == s.accessByHash;
    } else {
      var s' := RevokeById(s, ids[0], oks[0]).0;
      RevokeEachDrops(s', ids[1..], oks[1..]);
      assert Memory(s') == Memory(Dropped(s, {ids[0]}));
      assert (set id | id in ids) == {ids[0]} + (set id | id in ids[1..]);
      DropTwice(s, s', {ids[0]}, set id | id in ids[1..]);
    }
  }

  lemma DropTwice(s: Store, s': Store, a: set<TokenId>, b: set<TokenId>)
    requires Memory(s') == Memory(Dropped(s, a))
    ensures Memory(Dropped(s', b)) == Memory(Dropped(s, a + b))
  {
    assert s'.refreshById - b == s.refreshById - (a + b);
    assert WithoutOrigins(s'.accessByHash, b) == WithoutOrigins(s.accessByHash, a + b);
  }

  /** Revoking a client leaves the same tokens in memory as revoking each of its refresh tokens,
      in any order and with any saves failing. */
  lemma ClientRevocationInAnyOrder(calls: seq<Call>, client: ClientId, ok: bool, order: seq<TokenId>, oks: seq<bool>)
    requires Trace(calls) && |order| == |oks|
    requires (set id | id in order) == OfClient(Run(calls).store.refreshById, client)
    ensures Memory(RevokeEach(Run(calls).store, order, oks)) == Memory(RevokeByClient(Run(calls).store, client, ok).0)
  {
    RunsAreConsistent(calls);
    RevokeEachDrops(Run(calls).store, order, oks);
    EvictionByClientIsByOrigin(Run(calls), client);
  }
}
