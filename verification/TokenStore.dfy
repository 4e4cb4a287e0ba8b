/**
 The token registry as the daemon holds it (src/oauth/tokens.rs): two maps updated in place and
 the file that `Save` replaces. Every method is proved against its function in `Tokens`.
 */
module TokenStore {
  import opened Wrappers
  import opened Tokens

  ghost predicate UniqueHashes(refresh: map<TokenId, RefreshToken>) {
    forall a, b | a in refresh && b in refresh && refresh[a].hash == refresh[b].hash :: a == b
  }

  class TokenStore {
    var refreshById: map<TokenId, RefreshToken>
    var accessByHash: map<Digest, AccessToken>
    var disk: map<TokenId, RefreshToken>

    ghost function State(): Store
      reads this
    {
      Store(refreshById, accessByHash, disk)
    }

    ghost predicate Valid()
      reads this
    {
      UniqueHashes(refreshById) && UniqueHashes(disk)
    }

    ghost predicate Unused(draw: Draw)
      reads this
    {
      forall id | id in refreshById.Keys + disk.Keys ::
        id != draw.id && (id in refreshById ==> refreshById[id].hash != Sha256(draw.refresh))
    }

    constructor Load(file: map<TokenId, RefreshToken>)
      requires UniqueHashes(file)
      ensures Valid() && State() == Restarted(Store(map[], map[], file))
    {
      refreshById, accessByHash, disk := file, map[], file;
    }

    /** The new file replaces the old one by a rename, or not at all. */
    method Save() returns (ok: bool)
      modifies this`disk
      ensures disk == if ok then refreshById else old(disk)
    {
      if * {
        disk := refreshById;
        ok := true;
      } else {
        ok := false;
      }
    }

    method MintPair(client: ClientId, scope: Scope, draw: Draw, now: Time) returns (reply: Reply, ghost ok: bool)
      requires Valid() && Unused(draw)
      modifies this
      ensures Valid() && (State(), reply) == Tokens.MintPair(old(State()), client, scope, draw, now, ok)
    {
      accessByHash := accessByHash[Sha256(draw.access) := AccessToken(draw.id, client, scope, now + ACCESS_TTL)];
      refreshById := refreshById[draw.id := RefreshToken(Sha256(draw.refresh), client, scope, now, None)];
      var saved := Save();
      ok := saved;
      reply := if saved then Minted(draw, scope) else SaveFailed;
    }

    method FindByRefreshHash(presented: string) returns (found: Option<TokenId>)
      requires Valid()
      ensures found == Tokens.FindByRefreshHash(refreshById, presented)
    {
      FoundByHash(refreshById, presented);
      if id :| id in refreshById && refreshById[id].hash == Sha256(presented) {
        found := Some(id);
      } else {
        found := None;
      }
    }

    method RotateRefresh(presented: string, client: ClientId, draw: Draw, now: Time)
      returns (reply: Reply, ghost ok: bool)
      requires Valid() && Unused(draw)
      modifies this
      ensures Valid() && (State(), reply) == Tokens.RotateRefresh(old(State()), presented, client, draw, now, ok)
    {
      var found := FindByRefreshHash(presented);
      if found.None? || refreshById[found.value].client != client {
        ok := true;
        return NoGrant, ok;
      }
      var prior := refreshById[found.value];
      refreshById := refreshById - {found.value};
      accessByHash := WithoutOrigins(accessByHash, {found.value});
      reply, ok := MintPair(prior.client, prior.scope, draw, now);
    }

    method RevokeById(id: TokenId) returns (reply: Reply, ghost ok: bool)
      requires Valid()
      modifies this
      ensures Valid() && (State(), reply) == Tokens.RevokeById(old(State()), id, ok)
    {
      var removed := id in refreshById;
      refreshById := refreshById - {id};
      accessByHash := WithoutOrigins(accessByHash, {id});
      if !removed {
        ok := true;
        return Flag(false), ok;
      }
      var saved := Save();
      ok := saved;
      reply := if saved then Flag(true) else SaveFailed;
    }

    method RevokeRefreshPlain(presented: string) returns (reply: Reply, ghost ok: bool)
      requires Valid()
      modifies this
      ensures Valid() && (State(), reply) == Tokens.RevokeRefreshPlain(old(State()), presented, ok)
    {
      var found := FindByRefreshHash(presented);
      if found.None? {
        ok := true;
        return Flag(false), ok;
      }
      reply, ok := RevokeById(found.value);
    }

    method RevokeAccessPlain(presented: string) returns (reply: Reply)
      requires Valid()
      modifies this
      ensures Valid() && (State(), reply) == Tokens.RevokeAccessPlain(old(State()), presented)
    {
      reply := Flag(Sha256(presented) in accessByHash);
      accessByHash := accessByHash - {Sha256(presented)};
    }

    method RevokeByClient(client: ClientId) returns (reply: Reply, ghost ok: bool)
      requires Valid()
      modifies this
      ensures Valid() && (State(), reply) == Tokens.RevokeByClient(old(State()), client, ok)
    {
      var before := |refreshById|;
      ghost var ids := OfClient(refreshById, client);
      refreshById := map id | id in refreshById && refreshById[id].client != client :: refreshById[id];
      RetainedCount(old(refreshById), refreshById, ids);
      var removed := before - |refreshById|;
      assert removed == |ids| && refreshById == old(refreshById) - ids;
      accessByHash := map h | h in accessByHash && accessByHash[h].client != client :: accessByHash[h];
      if removed == 0 {
        ok := true;
        return Count(0), ok;
      }
      var saved := Save();
      ok := saved;
      reply := if saved then Count(removed) else SaveFailed;
    }

    method Touch(id: TokenId, now: Time) returns (reply: Reply, ghost ok: bool)
      requires Valid()
      modifies this
      ensures Valid() && (State(), reply) == Tokens.Touch(old(State()), id, now, ok)
    {
      if id !in refreshById {
        ok := true;
        return Done, ok;
      }
      refreshById := refreshById[id := refreshById[id].(lastUsedAt := Some(now))];
      var saved := Save();
      ok := saved;
      reply := if saved then Done else SaveFailed;
    }

    method SweepAccess(now: Time) returns (removed: int)
      requires Valid()
      modifies this
      ensures Valid() && State() == Tokens.SweepAccess(old(State()), now)
      ensures removed == |old(accessByHash)| - |accessByHash|
    {
      var before := |accessByHash|;
      accessByHash := map h | h in accessByHash && now < accessByHash[h].expiresAt :: accessByHash[h];
      removed := before - |accessByHash|;
    }
  }

  lemma RetainedCount(before: map<TokenId, RefreshToken>, after: map<TokenId, RefreshToken>, ids: set<TokenId>)
    requires ids <= before.Keys && after.Keys == before.Keys - ids
    requires forall id | id in after :: after[id] == before[id]
    ensures after == before - ids && |before| - |after| == |ids|
  {
    assert |before.Keys| == |before| && |after.Keys| == |after|;
    assert before.Keys == after.Keys + ids;
  }
}
