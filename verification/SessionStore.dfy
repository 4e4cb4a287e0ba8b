/**
 The session store as the daemon holds it (src/oauth/sessions.rs): one map whose entries are
 updated in place. Every method is proved against its function in `Sessions`.
 */
module SessionStore {
  import opened Wrappers
  import opened Sessions

  class SessionStore {
    var sessions: Table

    /** No two sessions carry the same code, as codes never repeat. */
    ghost predicate Valid()
      reads this
    {
      forall a, b, code | Carries(sessions, a, code) && Carries(sessions, b, code) :: a == b
    }

    constructor ()
      ensures Valid() && sessions == map[]
    {
      sessions := map[];
    }

    method Create(id: SessionId, req: Request, now: Time) returns (session: Session)
      requires Valid() && id !in sessions
      modifies this
      ensures Valid() && sessions == Sessions.Create(old(sessions), id, req, now) && session == sessions[id]
    {
      session := Session(req, now, now + SESSION_TTL, Pending, None, None, None);
      sessions := sessions[id := session];
      assert forall a, code | a != id :: Carries(sessions, a, code) <==> Carries(old(sessions), a, code);
    }

    method IssuePin(id: SessionId, drawn: string, now: Time) returns (pin: Option<string>)
      requires Valid()
      modifies this
      ensures Valid() && (sessions, pin) == Sessions.IssuePin(old(sessions), id, drawn, now)
    {
      if id !in sessions {
        return None;
      }
      var s := sessions[id];
      if now >= s.expiresAt || s.status != Pending {
        return None;
      }
      sessions := sessions[id := s.(pin := Some(PinInfo(drawn, now + PIN_TTL, false)))];
      pin := Some(drawn);
      assert forall a, code :: Carries(sessions, a, code) <==> Carries(old(sessions), a, code);
    }

    method Approve(id: SessionId, provided: string, drawn: string, now: Time)
      returns (outcome: Result<ApproveOutcome, ApproveError>)
      requires Valid() && forall a :: !Carries(sessions, a, drawn)
      modifies this
      ensures Valid() && (sessions, outcome) == Sessions.Approve(old(sessions), id, provided, drawn, now)
    {
      if id !in sessions {
        return Err(UnknownSession);
      }
      var s := sessions[id];
      if now >= s.expiresAt {
        return Err(Expired);
      }
      if s.status != Pending {
        return Err(AlreadyDecided);
      }
      if s.pin.None? {
        return Err(NoPin);
      }
      var pin := s.pin.value;
      if pin.used || now >= pin.expiresAt {
        return Err(PinExpired);
      }
      if provided != pin.pin {
        return Err(PinMismatch);
      }
      s := s.(pin := Some(pin.(used := true)));
      s := s.(code := Some(drawn), codeExpiresAt := Some(now + CODE_TTL));
      s := s.(status := Approved);
      sessions := sessions[id := s];
      outcome := Ok(ApproveOutcome(drawn, s.req.redirectUri, s.req.state));
      assert forall a, code | a != id :: Carries(sessions, a, code) <==> Carries(old(sessions), a, code);
    }

    method Deny(id: SessionId) returns (denied: bool)
      requires Valid()
      modifies this
      ensures Valid() && (sessions, denied) == Sessions.Deny(old(sessions), id)
    {
      if id in sessions && sessions[id].status == Pending {
        sessions := sessions[id := sessions[id].(status := Denied)];
        assert forall a, code :: Carries(sessions, a, code) <==> Carries(old(sessions), a, code);
        return true;
      }
      return false;
    }

    method DropSession(id: SessionId) returns (dropped: bool)
      requires Valid()
      modifies this
      ensures Valid() && (sessions, dropped) == Sessions.DropSession(old(sessions), id)
    {
      dropped := id in sessions;
      sessions := sessions - {id};
      assert forall a, code | Carries(sessions, a, code) :: Carries(old(sessions), a, code);
    }

    method ConsumeAuthorizationCode(code: string, client: string, redirectUri: string, verifier: string, now: Time)
      returns (r: Result<ConsumedCode, ExchangeError>)
      requires Valid()
      modifies this
      ensures Valid() && (sessions, r) == Sessions.Consume(old(sessions), code, client, redirectUri, verifier, now)
    {
      FoundCarries(sessions, code);
      var id: SessionId;
      if found :| found in sessions && sessions[found].code == Some(code) {
        assert Carries(sessions, found, code);
        id := found;
      } else {
        assert forall a :: !Carries(sessions, a, code);
        return Err(UnknownCode);
      }
      var s := sessions[id];
      if s.status != Approved || s.codeExpiresAt.None? {
        return Err(UnknownCode);
      }
      if now >= s.codeExpiresAt.value {
        return Err(CodeExpired);
      }
      if s.req.client != client {
        return Err(ClientMismatch);
      }
      if s.req.redirectUri != redirectUri {
        return Err(RedirectUriMismatch);
      }
      if S256(verifier) != s.req.challenge {
        return Err(PkceMismatch);
      }
      sessions := sessions[id := s.(status := Consumed, code := None, codeExpiresAt := None)];
      r := Ok(ConsumedCode(s.req.client, s.req.scope));
      assert forall a, c | Carries(sessions, a, c) :: Carries(old(sessions), a, c);
    }

    method Sweep(now: Time) returns (removed: int)
      requires Valid()
      modifies this
      ensures Valid() && sessions == Sessions.Sweep(old(sessions), now)
      ensures removed == |old(sessions)| - |sessions|
    {
      var before := |sessions|;
      sessions := map id | id in sessions && now < sessions[id].expiresAt :: sessions[id];
      removed := before - |sessions|;
      assert forall a, code | Carries(sessions, a, code) :: Carries(old(sessions), a, code);
    }
  }
}
