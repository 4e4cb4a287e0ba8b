/**
 Pending OAuth authorisations (src/oauth/sessions.rs): a session waits for the operator's PIN,
 is approved or denied, and its authorisation code is exchanged once (sections 4.1.2 and 4.1.3
 of RFC 6749). Random ids and codes are parameters, assumed never to repeat; PINs may repeat.
 Times are in seconds; no assumption is made on how the clock moves between calls.
 */
module Sessions {
  import opened Wrappers

  type SessionId = string
  type Time = int

  const SESSION_TTL: int := 600
  const PIN_TTL: int := 300
  const CODE_TTL: int := 60

  datatype Status = Pending | Approved | Denied | Consumed

  datatype PinInfo = PinInfo(pin: string, expiresAt: Time, used: bool)

  /** A code challenge matches the verifiers that hash to it: one, as the hash is taken to be
      injective, or none when the client sent something that is no hash. */
  datatype Challenge = S256(verifier: string) | NoHash(text: string)

  datatype Request = Request(
    client: string, redirectUri: string, state: Option<string>, challenge: Challenge, scope: Option<string>)

  datatype Session = Session(
    req: Request, createdAt: Time, expiresAt: Time, status: Status,
    pin: Option<PinInfo>, code: Option<string>, codeExpiresAt: Option<Time>)

  type Table = map<SessionId, Session>

  datatype ApproveOutcome = ApproveOutcome(code: string, redirectUri: string, state: Option<string>)

  datatype ApproveError = UnknownSession | Expired | AlreadyDecided | NoPin | PinExpired | PinMismatch

  datatype ConsumedCode = ConsumedCode(client: string, scope: Option<string>)

  datatype ExchangeError = UnknownCode | CodeExpired | ClientMismatch | RedirectUriMismatch | PkceMismatch

  function Opened(req: Request, now: Time): Session {
    Session(req, now, now + SESSION_TTL, Pending, None, None, None)
  }

  function Create(t: Table, id: SessionId, req: Request, now: Time): Table {
    t[id := Opened(req, now)]
  }

  function IssuePin(t: Table, id: SessionId, pin: string, now: Time): (Table, Option<string>) {
    if id !in t || now >= t[id].expiresAt || t[id].status != Pending then (t, None)
    else (t[id := t[id].(pin := Some(PinInfo(pin, now + PIN_TTL, false)))], Some(pin))
  }

  function Approve(t: Table, id: SessionId, provided: string, code: string, now: Time)
    : (Table, Result<ApproveOutcome, ApproveError>)
  {
    if id !in t then (t, Err(UnknownSession))
    else
      var s := t[id];
      if now >= s.expiresAt then (t, Err(Expired))
      else if s.status != Pending then (t, Err(AlreadyDecided))
      else if s.pin.None? then (t, Err(NoPin))
      else if s.pin.value.used || now >= s.pin.value.expiresAt then (t, Err(PinExpired))
      else if provided != s.pin.value.pin then (t, Err(PinMismatch))
      else
        (t[id := s.(pin := Some(s.pin.value.(used := true)), code := Some(code),
                    codeExpiresAt := Some(now + CODE_TTL), status := Approved)],
         Ok(ApproveOutcome(code, s.req.redirectUri, s.req.state)))
  }

  function Deny(t: Table, id: SessionId): (Table, bool) {
    if id in t && t[id].status == Pending then (t[id := t[id].(status := Denied)], true)
    else (t, false)
  }

  function DropSession(t: Table, id: SessionId): (Table, bool) {
    (t - {id}, id in t)
  }

  ghost predicate Carries(t: Table, id: SessionId, code: string) {
    id in t && t[id].code == Some(code)
  }

  ghost function FindByCode(t: Table, code: string): Option<SessionId> {
    if exists id :: Carries(t, id, code) then var id :| Carries(t, id, code); Some(id) else None
  }

  /** The checks on the session that carries the code, in the order of the source. */
  function ExchangeVerdict(s: Session, client: string, redirectUri: string, verifier: string, now: Time)
    : Result<ConsumedCode, ExchangeError>
  {
    if s.status != Approved then Err(UnknownCode)
    else if s.codeExpiresAt.None? then Err(UnknownCode)
    else if now >= s.codeExpiresAt.value then Err(CodeExpired)
    else if s.req.client != client then Err(ClientMismatch)
    else if s.req.redirectUri != redirectUri then Err(RedirectUriMismatch)
    else if S256(verifier) != s.req.challenge then Err(PkceMismatch)
    else Ok(ConsumedCode(s.req.client, s.req.scope))
  }

  ghost function Consume(t: Table, code: string, client: string, redirectUri: string, verifier: string, now: Time)
    : (Table, Result<ConsumedCode, ExchangeError>)
  {
    match FindByCode(t, code)
    case None => (t, Err(UnknownCode))
    case Some(id) =>
      if id !in t then (t, Err(UnknownCode))
      else
        var verdict := ExchangeVerdict(t[id], client, redirectUri, verifier, now);
        if verdict.Err? then (t, verdict)
        else (t[id := t[id].(status := Consumed, code := None, codeExpiresAt := None)], verdict)
  }

  function Sweep(t: Table, now: Time): Table {
    map id | id in t && now < t[id].expiresAt :: t[id]
  }

  // ---- The history of one session ----

  datatype Entry =
    | Created(req: Request, at: Time)
    | PinIssued(pin: string, at: Time)
    | ApprovedWith(pin: string, code: string, at: Time)
    | DeniedByOperator
    | Exchanged(code: string, verifier: string, at: Time)

  /**
   Which entry can follow which in the history of a session that began with `first`: PINs come
   before any decision; an approval follows the PIN it used, within the lifetimes of that PIN and
   of the session; an exchange follows its approval, with the approved code, in time and with a
   verifier that fits the challenge; after a denial or an exchange nothing follows.
   */
  ghost predicate Follows(first: Entry, prev: Entry, next: Entry)
    requires first.Created?
  {
    match next
    case Created(_, _) => false
    case PinIssued(_, at) => (prev.Created? || prev.PinIssued?) && at < first.at + SESSION_TTL
    case ApprovedWith(pin, _, at) =>
      && prev.PinIssued? && pin == prev.pin
      && at < prev.at + PIN_TTL && at < first.at + SESSION_TTL
    case DeniedByOperator => prev.Created? || prev.PinIssued?
    case Exchanged(code, verifier, at) =>
      && prev.ApprovedWith? && code == prev.code
      && at < prev.at + CODE_TTL
      && first.req.challenge == S256(verifier)
  }

  ghost predicate Lifecycle(h: seq<Entry>) {
    && h != [] && h[0].Created?
    && (|h| > 1 ==> Lifecycle(h[..|h| - 1]) && Follows(h[0], h[|h| - 2], h[|h| - 1]))
  }

  /** Every approval comes after at least one PIN, and every exchange after two entries more. */
  lemma {:induction false} LifecycleBegins(h: seq<Entry>)
    requires Lifecycle(h)
    ensures |h| == 1 <==> h[|h| - 1].Created?
    ensures h[|h| - 1].ApprovedWith? ==> |h| >= 3 && h[|h| - 2].PinIssued?
    ensures h[|h| - 1].Exchanged? ==> |h| >= 4 && h[|h| - 2].ApprovedWith? && h[|h| - 3].PinIssued?
  {
    if |h| > 1 {
      LifecycleBegins(h[..|h| - 1]);
    }
  }

  /** The record of a session, read off its history alone. */
  ghost function Record(h: seq<Entry>): Session
    requires Lifecycle(h)
  {
    LifecycleBegins(h);
    var start := Opened(h[0].req, h[0].at);
    var n := |h|;
    match h[n - 1]
    case Created(_, _) => start
    case PinIssued(pin, at) => start.(pin := Some(PinInfo(pin, at + PIN_TTL, false)))
    case ApprovedWith(pin, code, at) =>
      start.(pin := Some(PinInfo(pin, h[n - 2].at + PIN_TTL, true)),
             code := Some(code), codeExpiresAt := Some(at + CODE_TTL), status := Approved)
    case DeniedByOperator =>
      var lastPin := if h[n - 2].PinIssued? then Some(PinInfo(h[n - 2].pin, h[n - 2].at + PIN_TTL, false)) else None;
      start.(pin := lastPin, status := Denied)
    case Exchanged(_, _, _) =>
      start.(pin := Some(PinInfo(h[n - 2].pin, h[n - 3].at + PIN_TTL, true)), status := Consumed)
  }

  // ---- Runs ----

  datatype Call =
    | CallCreate(id: SessionId, req: Request, now: Time)
    | CallPin(id: SessionId, pin: string, now: Time)
    | CallApprove(id: SessionId, provided: string, code: string, now: Time)
    | CallDeny(id: SessionId)
    | CallDrop(id: SessionId)
    | CallConsume(code: string, client: string, redirectUri: string, verifier: string, now: Time)
    | CallSweep(now: Time)
    | Restart

  /** The sessions together with what ever happened to every session, and all codes ever minted. */
  datatype World = World(table: Table, history: map<SessionId, seq<Entry>>, codes: map<string, SessionId>)

  const INITIAL := World(map[], map[], map[])

  ghost predicate Possible(w: World, c: Call) {
    && (c.CallCreate? ==> c.id !in w.history)
    && (c.CallApprove? ==> c.code !in w.codes)
  }

  function Extended(w: World, table: Table, id: SessionId, e: Entry): World {
    w.(table := table, history := w.history[id := (if id in w.history then w.history[id] else []) + [e]])
  }

  ghost function Next(w: World, c: Call): World
    requires Possible(w, c)
  {
    match c
    case CallCreate(id, req, now) => Extended(w, Create(w.table, id, req, now), id, Created(req, now))
    case CallPin(id, pin, now) =>
      var (table, issued) := IssuePin(w.table, id, pin, now);
      if issued.None? then w.(table := table) else Extended(w, table, id, PinIssued(pin, now))
    case CallApprove(id, provided, code, now) =>
      var (table, outcome) := Approve(w.table, id, provided, code, now);
      if outcome.Err? then w.(table := table)
      else Extended(w, table, id, ApprovedWith(provided, code, now)).(codes := w.codes[code := id])
    case CallDeny(id) =>
      var (table, denied) := Deny(w.table, id);
      if !denied then w.(table := table) else Extended(w, table, id, DeniedByOperator)
    case CallDrop(id) => w.(table := DropSession(w.table, id).0)
    case CallConsume(code, client, redirectUri, verifier, now) =>
      var (table, verdict) := Consume(w.table, code, client, redirectUri, verifier, now);
      (match FindByCode(w.table, code)
       case None => w.(table := table)
       case Some(id) =>
         if verdict.Err? then w.(table := table) else Extended(w, table, id, Exchanged(code, verifier, now)))
    case CallSweep(now) => w.(table := Sweep(w.table, now))
    case Restart => w.(table := map[])
  }

  ghost predicate Trace(calls: seq<Call>)
    decreases |calls|, 0
  {
    calls == [] ||
    (Trace(calls[..|calls| - 1]) && Possible(Run(calls[..|calls| - 1]), calls[|calls| - 1]))
  }

  ghost function Run(calls: seq<Call>): World
    requires Trace(calls)
    decreases |calls|, 1
  {
    if calls == [] then INITIAL
    else Next(Run(calls[..|calls| - 1]), calls[|calls| - 1])
  }

  /** Every history is a lifecycle, and the table holds nothing but what the histories say. */
  ghost predicate Faithful(w: World) {
    && (forall id | id in w.history :: Lifecycle(w.history[id]))
    && (forall id | id in w.table :: id in w.history && w.table[id] == Record(w.history[id]))
  }

  ghost predicate CodesKnown(w: World) {
    forall id, i | id in w.history && 0 <= i < |w.history[id]| && w.history[id][i].ApprovedWith? ::
      w.history[id][i].code in w.codes && w.codes[w.history[id][i].code] == id
  }

  ghost predicate Consistent(w: World) {
    Faithful(w) && CodesKnown(w)
  }

  lemma PinExtendsLifecycle(h: seq<Entry>, pin: string, now: Time)
    requires Lifecycle(h) && Record(h).status.Pending? && now < Record(h).expiresAt
    ensures Lifecycle(h + [PinIssued(pin, now)])
    ensures Record(h + [PinIssued(pin, now)]) == Record(h).(pin := Some(PinInfo(pin, now + PIN_TTL, false)))
  {
    LifecycleBegins(h);
    assert (h + [PinIssued(pin, now)])[..|h|] == h;
  }

  lemma ApprovalExtendsLifecycle(h: seq<Entry>, provided: string, code: string, now: Time)
    requires Lifecycle(h) && Record(h).status.Pending? && now < Record(h).expiresAt
    requires Record(h).pin.Some? && now < Record(h).pin.value.expiresAt && provided == Record(h).pin.value.pin
    ensures !Record(h).pin.value.used
    ensures Lifecycle(h + [ApprovedWith(provided, code, now)])
    ensures Record(h + [ApprovedWith(provided, code, now)]) ==
            Record(h).(pin := Some(Record(h).pin.value.(used := true)), code := Some(code),
                       codeExpiresAt := Some(now + CODE_TTL), status := Approved)
  {
    LifecycleBegins(h);
    assert (h + [ApprovedWith(provided, code, now)])[..|h|] == h;
  }

  lemma DenialExtendsLifecycle(h: seq<Entry>)
    requires Lifecycle(h) && Record(h).status.Pending?
    ensures Lifecycle(h + [DeniedByOperator]) && Record(h + [DeniedByOperator]) == Record(h).(status := Denied)
  {
    LifecycleBegins(h);
    assert (h + [DeniedByOperator])[..|h|] == h;
  }

  lemma ExchangeExtendsLifecycle(h: seq<Entry>, code: string, verifier: string, now: Time)
    requires Lifecycle(h) && Record(h).status.Approved? && Record(h).code == Some(code)
    requires now < Record(h).codeExpiresAt.value && S256(verifier) == Record(h).req.challenge
    ensures Lifecycle(h + [Exchanged(code, verifier, now)])
    ensures Record(h + [Exchanged(code, verifier, now)]) ==
            Record(h).(status := Consumed, code := None, codeExpiresAt := None)
  {
    LifecycleBegins(h);
    assert (h + [Exchanged(code, verifier, now)])[..|h|] == h;
  }

  lemma ExtendKeepsFaithful(w: World, id: SessionId, h: seq<Entry>, s: Session, codes: map<string, SessionId>)
    requires Faithful(w) && Lifecycle(h) && s == Record(h)
    ensures Faithful(World(w.table[id := s], w.history[id := h], codes))
  {
    var w' := World(w.table[id := s], w.history[id := h], codes);
    forall i | i in w'.history
      ensures Lifecycle(w'.history[i])
    {
      assert i != id ==> i in w.history;
    }
    forall i | i in w'.table
      ensures i in w'.history && w'.table[i] == Record(w'.history[i])
    {
      assert i != id ==> i in w.table;
    }
  }

  lemma ExtendKeepsCodesKnown(w: World, id: SessionId, before: seq<Entry>, e: Entry, table: Table)
    requires CodesKnown(w) && before == if id in w.history then w.history[id] else []
    requires e.ApprovedWith? ==> e.code !in w.codes
    ensures
      var codes := if e.ApprovedWith? then w.codes[e.code := id] else w.codes;
      CodesKnown(World(table, w.history[id := before + [e]], codes))
  {
  }

  lemma ExtendKeepsConsistent(w: World, id: SessionId, h: seq<Entry>, e: Entry)
    requires Consistent(w) && id in w.history && h == w.history[id] && Lifecycle(h + [e])
    requires e.ApprovedWith? ==> e.code !in w.codes
    ensures
      var codes := if e.ApprovedWith? then w.codes[e.code := id] else w.codes;
      Consistent(World(w.table[id := Record(h + [e])], w.history[id := h + [e]], codes))
  {
    var codes := if e.ApprovedWith? then w.codes[e.code := id] else w.codes;
    ExtendKeepsCodesKnown(w, id, h, e, w.table[id := Record(h + [e])]);
    ExtendKeepsFaithful(w, id, h + [e], Record(h + [e]), codes);
  }

  lemma CreateKeepsConsistent(w: World, c: Call)
    requires Consistent(w) && Possible(w, c) && c.CallCreate?
    ensures Consistent(Next(w, c))
  {
    var e := Created(c.req, c.now);
    ExtendKeepsCodesKnown(w, c.id, [], e, Next(w, c).table);
    ExtendKeepsFaithful(w, c.id, [e], Opened(c.req, c.now), w.codes);
    assert [] + [e] == [e];
  }

  lemma PinKeepsConsistent(w: World, c: Call)
    requires Consistent(w) && c.CallPin?
    ensures Consistent(Next(w, c))
  {
    if IssuePin(w.table, c.id, c.pin, c.now).1.Some? {
      var h, e := w.history[c.id], PinIssued(c.pin, c.now);
      PinExtendsLifecycle(h, c.pin, c.now);
      ExtendKeepsConsistent(w, c.id, h, e);
    }
  }

  lemma NextOfApprove(w: World, c: Call, h: seq<Entry>)
    requires Possible(w, c) && c.CallApprove? && Approve(w.table, c.id, c.provided, c.code, c.now).1.Ok?
    requires c.id in w.history && h == w.history[c.id] && Lifecycle(h) && w.table[c.id] == Record(h)
    ensures
      var h' := h + [ApprovedWith(c.provided, c.code, c.now)];
      Lifecycle(h') && Next(w, c) == World(w.table[c.id := Record(h')], w.history[c.id := h'], w.codes[c.code := c.id])
  {
    ApprovalExtendsLifecycle(h, c.provided, c.code, c.now);
  }

  lemma ApproveKeepsConsistent(w: World, c: Call)
    requires Consistent(w) && Possible(w, c) && c.CallApprove?
    ensures Consistent(Next(w, c))
  {
    if Approve(w.table, c.id, c.provided, c.code, c.now).1.Ok? {
      var h, e := w.history[c.id], ApprovedWith(c.provided, c.code, c.now);
      NextOfApprove(w, c, h);
      ExtendKeepsConsistent(w, c.id, h, e);
    }
  }

  lemma DenyKeepsConsistent(w: World, c: Call)
    requires Consistent(w) && c.CallDeny?
    ensures Consistent(Next(w, c))
  {
    if Deny(w.table, c.id).1 {
      var h := w.history[c.id];
      DenialExtendsLifecycle(h);
      ExtendKeepsConsistent(w, c.id, h, DeniedByOperator);
    }
  }

  lemma NextOfConsume(w: World, c: Call, id: SessionId, h: seq<Entry>)
    requires c.CallConsume? && FindByCode(w.table, c.code) == Some(id) && Carries(w.table, id, c.code)
    requires Consume(w.table, c.code, c.client, c.redirectUri, c.verifier, c.now).1.Ok?
    requires id in w.history && h == w.history[id] && Lifecycle(h) && w.table[id] == Record(h)
    ensures
      var h' := h + [Exchanged(c.code, c.verifier, c.now)];
      Lifecycle(h') && Next(w, c) == World(w.table[id := Record(h')], w.history[id := h'], w.codes)
  {
    ExchangeExtendsLifecycle(h, c.code, c.verifier, c.now);
  }

  lemma FoundCarries(t: Table, code: string)
    ensures
      match FindByCode(t, code)
      case None => forall id :: !Carries(t, id, code)
      case Some(id) => Carries(t, id, code)
  {
  }

  lemma ConsumeKeepsConsistent(w: World, c: Call)
    requires Consistent(w) && c.CallConsume?
    ensures Consistent(Next(w, c))
  {
    FoundCarries(w.table, c.code);
    if Consume(w.table, c.code, c.client, c.redirectUri, c.verifier, c.now).1.Ok? {
      var id := FindByCode(w.table, c.code).value;
      var h, e := w.history[id], Exchanged(c.code, c.verifier, c.now);
      NextOfConsume(w, c, id, h);
      ExtendKeepsConsistent(w, id, h, e);
    } else {
      assert Next(w, c) == w;
    }
  }

  lemma NextKeepsConsistent(w: World, c: Call)
    requires Consistent(w) && Possible(w, c)
    ensures Consistent(Next(w, c))
  {
    match c {
      case CallCreate(_, _, _) => CreateKeepsConsistent(w, c);
      case CallPin(_, _, _) => PinKeepsConsistent(w, c);
      case CallApprove(_, _, _, _) => ApproveKeepsConsistent(w, c);
      case CallDeny(_) => DenyKeepsConsistent(w, c);
      case CallConsume(_, _, _, _, _) => ConsumeKeepsConsistent(w, c);
      case _ =>
    }
  }

  lemma {:induction false} RunsAreConsistent(calls: seq<Call>)
    requires Trace(calls)
    ensures Consistent(Run(calls))
  {
    if calls != [] {
      RunsAreConsistent(calls[..|calls| - 1]);
      NextKeepsConsistent(Run(calls[..|calls| - 1]), calls[|calls| - 1]);
    }
  }

  // ---- What follows for every run ----

  lemma {:induction false} PrefixIsLifecycle(h: seq<Entry>, n: nat)
    requires Lifecycle(h) && 0 < n <= |h|
    ensures Lifecycle(h[..n])
  {
    if n < |h| {
      PrefixIsLifecycle(h[..|h| - 1], n);
      assert h[..|h| - 1][..n] == h[..n];
    } else {
      assert h[..n] == h;
    }
  }

  lemma {:induction false} ExchangeIsLast(h: seq<Entry>, k: nat)
    requires Lifecycle(h) && k < |h| && h[k].Exchanged?
    ensures k == |h| - 1
  {
    if k < |h| - 1 {
      ExchangeIsLast(h[..|h| - 1], k);
    }
  }

  /** Section 4.1.2 of RFC 6749, on any one session: an exchange is its last event, it follows its
      only approval, which used the PIN issued last before; all within their deadlines. */
  lemma ExchangeComesOnceInTime(h: seq<Entry>, k: nat)
    requires Lifecycle(h) && k < |h| && h[k].Exchanged?
    ensures k == |h| - 1 && k >= 3
    ensures h[k - 1].ApprovedWith? && h[k - 1].code == h[k].code
    ensures h[k - 2].PinIssued? && h[k - 2].pin == h[k - 1].pin && h[k - 1].at < h[k - 2].at + PIN_TTL
    ensures h[k].at < h[0].at + SESSION_TTL + CODE_TTL
    ensures forall i | 0 <= i < k - 1 :: !h[i].ApprovedWith? && !h[i].DeniedByOperator?
  {
    ExchangeIsLast(h, k);
    LifecycleBegins(h);
    PrefixIsLifecycle(h, k);
    forall i | 0 <= i < k - 1
      ensures !h[i].ApprovedWith? && !h[i].DeniedByOperator?
    {
      UndecidedBefore(h[..k], i);
    }
  }

  lemma {:induction false} UndecidedBefore(h: seq<Entry>, i: nat)
    requires Lifecycle(h) && i < |h| - 1 && !h[|h| - 1].Exchanged?
    ensures h[i].Created? || h[i].PinIssued?
  {
    var front := h[..|h| - 1];
    assert h[|h| - 2] == front[|front| - 1];
    if i < |front| - 1 {
      UndecidedBefore(front, i);
    }
  }

  lemma EveryHistoryIsALifecycle(calls: seq<Call>, id: SessionId)
    requires Trace(calls) && id in Run(calls).history
    ensures Lifecycle(Run(calls).history[id])
    ensures id in Run(calls).table ==> Run(calls).table[id] == Record(Run(calls).history[id])
  {
    RunsAreConsistent(calls);
  }

  /** The record of a live session carries a code exactly while it is approved. */
  lemma CodeExactlyWhenApproved(calls: seq<Call>, id: SessionId)
    requires Trace(calls) && id in Run(calls).table
    ensures Run(calls).table[id].code.Some? <==> Run(calls).table[id].status.Approved?
    ensures Run(calls).table[id].codeExpiresAt.Some? <==> Run(calls).table[id].status.Approved?
  {
    RunsAreConsistent(calls);
  }

  /** Statuses only move from pending to approved or denied, and from approved to consumed. */
  lemma StatusesOnlyAdvance(w: World, c: Call, id: SessionId)
    requires Consistent(w) && Possible(w, c) && id in w.table && id in Next(w, c).table
    ensures
      var before, after := w.table[id].status, Next(w, c).table[id].status;
      || before == after
      || (before.Pending? && (after.Approved? || after.Denied?))
      || (before.Approved? && after.Consumed?)
  {
    if c.CallConsume? {
      FoundCarries(w.table, c.code);
    }
  }

  lemma CodeOfExchange(w: World, id: SessionId, k: nat)
    requires Consistent(w) && id in w.history && k < |w.history[id]| && w.history[id][k].Exchanged?
    ensures w.history[id][k].code in w.codes && w.codes[w.history[id][k].code] == id
    ensures k == |w.history[id]| - 1
  {
    ExchangeComesOnceInTime(w.history[id], k);
  }

  /** Section 4.1.2 of RFC 6749, over all sessions: a code is exchanged at most once, ever. */
  lemma OneExchangePerCode(calls: seq<Call>, a: SessionId, i: nat, b: SessionId, j: nat)
    requires Trace(calls) && a in Run(calls).history && b in Run(calls).history
    requires i < |Run(calls).history[a]| && Run(calls).history[a][i].Exchanged?
    requires j < |Run(calls).history[b]| && Run(calls).history[b][j].Exchanged?
    requires Run(calls).history[a][i].code == Run(calls).history[b][j].code
    ensures a == b && i == j
  {
    RunsAreConsistent(calls);
    CodeOfExchange(Run(calls), a, i);
    CodeOfExchange(Run(calls), b, j);
  }

  lemma CodesAreUnique(w: World, a: SessionId, b: SessionId, code: string)
    requires Consistent(w) && Carries(w.table, a, code) && Carries(w.table, b, code)
    ensures a == b
  {
    assert w.history[a][|w.history[a]| - 1].code == code;
    assert w.history[b][|w.history[b]| - 1].code == code;
  }

  /** Section 4.1.3 of RFC 6749: an exchange succeeds exactly for the code of an approved session,
      in time, by its client, with its redirect URI and a fitting verifier; a failed one changes nothing. */
  lemma ExchangeSucceedsExactly(
      calls: seq<Call>, code: string, client: string, redirectUri: string, verifier: string, now: Time)
    requires Trace(calls)
    ensures
      var t := Run(calls).table;
      var (t', verdict) := Consume(t, code, client, redirectUri, verifier, now);
      && (verdict.Ok? <==> exists id :: Carries(t, id, code) && Exchangeable(t[id], client, redirectUri, verifier, now))
      && (verdict.Err? ==> t' == t)
  {
    RunsAreConsistent(calls);
    var t := Run(calls).table;
    FoundCarries(t, code);
    forall id | Carries(t, id, code)
      ensures FindByCode(t, code) == Some(id)
    {
      CodesAreUnique(Run(calls), id, FindByCode(t, code).value, code);
    }
  }

  predicate Exchangeable(s: Session, client: string, redirectUri: string, verifier: string, now: Time) {
    && s.status.Approved? && s.codeExpiresAt.Some? && now < s.codeExpiresAt.value
    && s.req.client == client && s.req.redirectUri == redirectUri && s.req.challenge == S256(verifier)
  }

  // ---- Every answer, read off the history ----

  /** The session waits for a decision. */
  predicate Undecided(h: seq<Entry>) {
    h != [] && (h[|h| - 1].Created? || h[|h| - 1].PinIssued?)
  }

  predicate InLifetime(h: seq<Entry>, now: Time) {
    h != [] && h[0].Created? && now < h[0].at + SESSION_TTL
  }

  lemma RecordTells(h: seq<Entry>)
    requires Lifecycle(h)
    ensures
      var s, last := Record(h), h[|h| - 1];
      && s.req == h[0].req && s.expiresAt == h[0].at + SESSION_TTL && (s.status.Pending? <==> Undecided(h))
      && (s.status.Approved? <==> last.ApprovedWith?)
      && (last.Created? ==> s.pin.None?)
      && (last.PinIssued? ==> s.pin == Some(PinInfo(last.pin, last.at + PIN_TTL, false)))
      && (last.ApprovedWith? ==> s.code == Some(last.code) && s.codeExpiresAt == Some(last.at + CODE_TTL))
      && (!last.ApprovedWith? ==> s.code.None?)
  {
    LifecycleBegins(h);
    FirstIsCreated(h);
  }

  lemma {:induction false} FirstIsCreated(h: seq<Entry>)
    requires Lifecycle(h)
    ensures h != [] && h[0].Created?
  {
  }

  /** A PIN is issued exactly for a session that is there, within its lifetime and undecided, and is then the one
      that counts; otherwise nothing changes. */
  lemma PinIsIssuedExactly(calls: seq<Call>, id: SessionId, pin: string, now: Time)
    requires Trace(calls)
    ensures
      var w := Run(calls);
      var (t', issued) := IssuePin(w.table, id, pin, now);
      && (id in w.table ==> id in w.history)
      && (issued.Some? <==> id in w.table && Undecided(w.history[id]) && InLifetime(w.history[id], now))
      && (issued.Some? ==> issued == Some(pin) && id in t' && t'[id].pin == Some(PinInfo(pin, now + PIN_TTL, false)))
      && (issued.None? ==> t' == w.table)
  {
    RunsAreConsistent(calls);
    if id in Run(calls).table {
      RecordTells(Run(calls).history[id]);
    }
  }

  /** The answer to an approval: the first reason against it, in this order, or the new code. */
  ghost function ApprovalAnswer(w: World, id: SessionId, provided: string, code: string, now: Time)
    : Result<ApproveOutcome, ApproveError>
    requires id in w.table ==> id in w.history && w.history[id] != [] && w.history[id][0].Created?
  {
    if id !in w.table then Err(UnknownSession)
    else
      var h := w.history[id];
      var first, last := h[0], h[|h| - 1];
      if !InLifetime(h, now) then Err(Expired)
      else if !Undecided(h) then Err(AlreadyDecided)
      else if last.Created? then Err(NoPin)
      else if last.at + PIN_TTL <= now then Err(PinExpired)
      else if last.pin != provided then Err(PinMismatch)
      else Ok(ApproveOutcome(code, first.req.redirectUri, first.req.state))
  }

  /**
   An approval succeeds if and only if the session is there, its history ends with a PIN, that PIN is the one
   provided, and both are within their lifetimes; the session then carries the new code, for a minute.
   Every refusal has its own reason and changes nothing.
   */
  lemma ApprovalSucceedsExactly(calls: seq<Call>, id: SessionId, provided: string, code: string, now: Time)
    requires Trace(calls)
    ensures
      var w := Run(calls);
      var (t', answer) := Approve(w.table, id, provided, code, now);
      && (id in w.table ==> id in w.history && w.history[id] != [] && w.history[id][0].Created?)
      && answer == ApprovalAnswer(w, id, provided, code, now)
      && (answer.Ok? <==>
            && id in w.table && InLifetime(w.history[id], now)
            && var last := w.history[id][|w.history[id]| - 1];
               last.PinIssued? && last.pin == provided && now < last.at + PIN_TTL)
      && (answer.Ok? ==>
            && t'.Keys == w.table.Keys && Carries(t', id, code) && t'[id].codeExpiresAt == Some(now + CODE_TTL)
            && forall i | i in w.table && i != id :: t'[i] == w.table[i])
      && (answer.Err? ==> t' == w.table)
  {
    RunsAreConsistent(calls);
    if id in Run(calls).table {
      RecordTells(Run(calls).history[id]);
    }
  }

  /** A session is denied exactly while it is there and undecided. */
  lemma DenialSucceedsExactly(calls: seq<Call>, id: SessionId)
    requires Trace(calls)
    ensures
      var w := Run(calls);
      var (t', denied) := Deny(w.table, id);
      && (id in w.table ==> id in w.history)
      && (denied <==> id in w.table && Undecided(w.history[id]))
      && t'.Keys == w.table.Keys
      && (forall i | i in w.table ::
            t'[i] == if denied && i == id then w.table[i].(status := Denied) else w.table[i])
  {
    RunsAreConsistent(calls);
    if id in Run(calls).table {
      RecordTells(Run(calls).history[id]);
    }
  }

  /** The session is there and its history ends with the approval that minted the code. */
  ghost predicate MintedFor(w: World, id: SessionId, code: string) {
    && id in w.table && id in w.history && w.history[id] != [] && w.history[id][0].Created?
    && w.history[id][|w.history[id]| - 1].ApprovedWith? && w.history[id][|w.history[id]| - 1].code == code
  }

  /** The answer to the exchange of the code of an approved session: the first reason against it, in this order, or
      its client and scope. */
  function ExchangeAnswer(h: seq<Entry>, client: string, redirectUri: string, verifier: string, now: Time)
    : Result<ConsumedCode, ExchangeError>
    requires h != [] && h[0].Created? && h[|h| - 1].ApprovedWith?
  {
    var req := h[0].req;
    if h[|h| - 1].at + CODE_TTL <= now then Err(CodeExpired)
    else if client != req.client then Err(ClientMismatch)
    else if redirectUri != req.redirectUri then Err(RedirectUriMismatch)
    else if req.challenge != S256(verifier) then Err(PkceMismatch)
    else Ok(ConsumedCode(req.client, req.scope))
  }

  /** A code is known exactly while the session that minted it is there and has not exchanged it; then the answer
      to its exchange follows from that session's history. */
  lemma ExchangeAnswersExactly(
      calls: seq<Call>, code: string, client: string, redirectUri: string, verifier: string, now: Time)
    requires Trace(calls)
    ensures
      var w := Run(calls);
      var (t', answer) := Consume(w.table, code, client, redirectUri, verifier, now);
      && (forall id | MintedFor(w, id, code) ::
            answer == ExchangeAnswer(w.history[id], client, redirectUri, verifier, now))
      && ((forall id :: !MintedFor(w, id, code)) ==> answer == Err(UnknownCode))
      && (answer.Err? ==> t' == w.table)
  {
    hide Consistent, Consume, ExchangeVerdict, FindByCode;
    RunsAreConsistent(calls);
    var w := Run(calls);
    FoundCarries(w.table, code);
    forall id
      ensures Carries(w.table, id, code) <==> MintedFor(w, id, code)
    {
      CarriesWhatWasMinted(w, id, code);
    }
    forall id | MintedFor(w, id, code)
      ensures Consume(w.table, code, client, redirectUri, verifier, now).1
           == ExchangeAnswer(w.history[id], client, redirectUri, verifier, now)
    {
      CodesAreUnique(w, id, FindByCode(w.table, code).value, code);
      VerdictFollowsHistory(w, id, code, client, redirectUri, verifier, now);
    }
    FailedExchange(w.table, code, client, redirectUri, verifier, now);
  }

  lemma CarriesWhatWasMinted(w: World, id: SessionId, code: string)
    requires Consistent(w)
    ensures Carries(w.table, id, code) <==> MintedFor(w, id, code)
  {
    if id in w.table {
      RecordTells(w.history[id]);
    }
  }

  lemma VerdictFollowsHistory(
      w: World, id: SessionId, code: string, client: string, redirectUri: string, verifier: string, now: Time)
    requires Consistent(w) && MintedFor(w, id, code) && FindByCode(w.table, code) == Some(id)
    ensures Consume(w.table, code, client, redirectUri, verifier, now).1
         == ExchangeAnswer(w.history[id], client, redirectUri, verifier, now)
  {
    hide FindByCode;
    RecordTells(w.history[id]);
  }

  lemma FailedExchange(t: Table, code: string, client: string, redirectUri: string, verifier: string, now: Time)
    ensures
      var (t', answer) := Consume(t, code, client, redirectUri, verifier, now);
      (answer.Err? ==> t' == t) && (FindByCode(t, code).None? ==> answer == Err(UnknownCode))
  {
    hide FindByCode, ExchangeVerdict;
  }

  /** In particular the code that an approval mints can be exchanged at once, and later, as long as nothing happens
      to the session, within its minute. */
  lemma ApprovedCodeCanBeExchanged(calls: seq<Call>, c: Call, verifier: string, now: Time)
    requires Trace(calls + [c]) && Trace(calls) && c.CallApprove?
    requires Approve(Run(calls).table, c.id, c.provided, c.code, c.now).1.Ok?
    ensures
      var w := Run(calls + [c]);
      && MintedFor(w, c.id, c.code)
      && var req := w.history[c.id][0].req;
         Consume(w.table, c.code, req.client, req.redirectUri, verifier, now).1
         == if now >= c.now + CODE_TTL then Err(CodeExpired)
            else if req.challenge != S256(verifier) then Err(PkceMismatch)
            else Ok(ConsumedCode(req.client, req.scope))
  {
    assert (calls + [c])[..|calls|] == calls;
    RunsAreConsistent(calls);
    var w := Run(calls + [c]);
    NextOfApprove(Run(calls), c, Run(calls).history[c.id]);
    ExchangeAnswersExactly(calls + [c], c.code, w.history[c.id][0].req.client, w.history[c.id][0].req.redirectUri,
                           verifier, now);
  }

  /** A session is there from its creation until it is dropped, swept after its lifetime, or lost in a restart; to
      drop it tells whether it was there. */
  lemma SessionStaysExactly(calls: seq<Call>, c: Call, id: SessionId)
    requires Trace(calls) && Possible(Run(calls), c)
    ensures DropSession(Run(calls).table, id).1 <==> id in Run(calls).table
    ensures id in Run(calls).table ==> id in Run(calls).history
    ensures id in Next(Run(calls), c).table <==>
            || (c.CallCreate? && c.id == id)
            || (&& id in Run(calls).table && !c.Restart? && c != CallDrop(id)
                && (c.CallSweep? ==> InLifetime(Run(calls).history[id], c.now)))
  {
    hide Consistent, Next;
    RunsAreConsistent(calls);
    StepKeepsSession(Run(calls), c, id);
    LifetimeIsRecorded(Run(calls), id);
  }

  lemma StepKeepsSession(w: World, c: Call, id: SessionId)
    requires Possible(w, c)
    ensures id in Next(w, c).table <==>
            || (c.CallCreate? && c.id == id)
            || (&& id in w.table && !c.Restart? && c != CallDrop(id)
                && (c.CallSweep? ==> c.now < w.table[id].expiresAt))
  {
    hide ExchangeVerdict;
    if c.CallConsume? {
      FoundCarries(w.table, c.code);
    }
  }

  lemma LifetimeIsRecorded(w: World, id: SessionId)
    requires Consistent(w)
    ensures id in w.table ==>
              && id in w.history
              && forall now: Time :: now < w.table[id].expiresAt <==> InLifetime(w.history[id], now)
  {
    if id in w.table {
      RecordTells(w.history[id]);
    }
  }
}
