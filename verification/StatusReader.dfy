/**
 What `agent_status` reports (src/server/handlers/mcp/status.rs): one status, derived from the newest
 result fact and the newest session fact that its queries returned.
 */
module StatusReader {
  import opened Wrappers
  import opened TaskStatus
  import Text

  /** The parts of a memory fact that the reader looks at. */
  datatype Fact = Fact(status: Option<string>, text: Option<string>)

  function NormalizeStatus(status: string): Option<string> {
    if status == "done" then Some("done")
    else if status == "failed" || status == "failure" then Some("failed")
    else if status == "pending" then Some("pending")
    else if status == "running" || status == "active" then Some("active")
    else if status == "partial_budget_overdraw" then Some("partial_budget_overdraw")
    else if status == "too_complex" then Some("too_complex")
    else None
  }

  function NormalizedOf(fact: Option<Fact>): Option<string> {
    if fact.Some? && fact.value.status.Some? then NormalizeStatus(fact.value.status.value) else None
  }

  predicate Mentions(fact: Option<Fact>, words: string) {
    fact.Some? && fact.value.text.Some? && Text.Find(fact.value.text.value, words).Some?
  }

  function DeriveEffectiveStatus(base: string, result: Option<Fact>, session: Option<Fact>): string {
    var sessionStatus, resultStatus := NormalizedOf(session), NormalizedOf(result);
    if result.Some? && session.None? then
      if resultStatus == Some("done") || resultStatus.None? then "failed" else resultStatus.value
    else if sessionStatus.Some? then
      if sessionStatus.value == "done" && result.None? then "failed" else sessionStatus.value
    else if resultStatus.Some? then resultStatus.value
    else if Mentions(session, "status failed") then "failed"
    else if Mentions(session, "status done") then "done"
    else base
  }

  function IncompletePersistenceError(result: Option<Fact>, session: Option<Fact>): Option<string> {
    if result.Some? && session.None? then Some("INCOMPLETE_PERSISTENCE: canonical task_session missing")
    else if result.None? && session.Some? && NormalizedOf(session) == Some("done") then
      Some("INCOMPLETE_PERSISTENCE: canonical task_result missing")
    else None
  }

  function BaseStatus(result: Option<Fact>, session: Option<Fact>): string {
    if session.Some? && session.value.status.Some? then session.value.status.value
    else if result.Some? && result.value.status.Some? then result.value.status.value
    else "active"
  }

  /** The reported status; a failed query counts as one that found nothing. */
  function ReadStatus(result: Option<Fact>, session: Option<Fact>, deliverable: bool): string {
    if result.None? && session.None? && !deliverable then "pending"
    else DeriveEffectiveStatus(BaseStatus(result, session), result, session)
  }

  // ---- Facts as the agent writes them ----

  /** How a status is shown: a running task is active. */
  function Shown(status: Status): string {
    if status.Running? then "active" else StatusText(status)
  }

  function Written(status: Option<Status>, text: string): Option<Fact> {
    if status.Some? then Some(Fact(Some(StatusText(status.value)), Some(text))) else None
  }

  /** What is found in place of a fact that is not there: its copy, which has a text but no status. */
  function OrCopy(fact: Option<Fact>, copied: bool, text: string): Option<Fact> {
    if fact.None? && copied then Some(Fact(None, Some(text))) else fact
  }

  /** The copy of a session has its status in its text, unless a name in it looks like one. */
  predicate Tells(text: string, status: Status) {
    && (Text.Find(text, "status failed").Some? <==> status.Failed?)
    && (Text.Find(text, "status done").Some? <==> status.Done?)
  }

  /** The status of a task from the newest written result and session, or what copies there are of them. */
  function Effective(
      result: Option<Status>, resultCopy: bool, session: Option<Status>, sessionCopy: Option<Status>,
      deliverable: bool)
    : Status
  {
    match (session, sessionCopy)
    case (Some(status), _) => if status.Done? && result.None? && !resultCopy then Failed else status
    case (None, Some(told)) =>
      if result.Some? then result.value else if told.Failed? || told.Done? then told else Running
    case (None, None) =>
      if result.Some? then (if result.value.Done? then Failed else result.value)
      else if resultCopy then Failed
      else if deliverable then Running
      else Pending
  }

  lemma NormalizedText(status: Status)
    ensures NormalizeStatus(StatusText(status)) == Some(Shown(status))
    ensures Shown(status) == "done" <==> status.Done?
  {
  }

  /** The reader's string logic, on facts and copies written by the agent, is that table: the session
      decides, except that "done" needs a result; a result alone never counts as done. */
  lemma WrittenFactsAreReadByTheTable(
      result: Option<Status>, resultCopy: bool, session: Option<Status>, sessionCopy: Option<Status>,
      deliverable: bool, resultText: string, sessionText: string)
    requires sessionCopy.Some? ==> Tells(sessionText, sessionCopy.value)
    ensures
      var r := OrCopy(Written(result, resultText), resultCopy, resultText);
      var s := OrCopy(Written(session, sessionText), sessionCopy.Some?, sessionText);
      && ReadStatus(r, s, deliverable) == Shown(Effective(result, resultCopy, session, sessionCopy, deliverable))
      && (IncompletePersistenceError(r, s).Some? <==> (r.Some? && s.None?) || (r.None? && session == Some(Done)))
  {
    assert Shown(Failed) == "failed" && Shown(Pending) == "pending";
    assert Shown(Done) == "done" && Shown(Running) == "active";
    hide NormalizeStatus, StatusText;
    if result.Some? {
      NormalizedText(result.value);
    }
    if session.Some? {
      NormalizedText(session.value);
    }
  }

  // ---- Facts of any origin ----

  /** How a status may be spelled in a fact. */
  function SpellingsOf(status: Status): set<string> {
    match status
    case Done => {"done"}
    case Failed => {"failed", "failure"}
    case Pending => {"pending"}
    case Running => {"running", "active"}
    case PartialBudgetOverdraw => {"partial_budget_overdraw"}
    case TooComplex => {"too_complex"}
  }

  predicate Spells(fact: Option<Fact>, status: Status) {
    fact.Some? && fact.value.status.Some? && fact.value.status.value in SpellingsOf(status)
  }

  predicate SpellsNone(fact: Option<Fact>) {
    fact.Some? && forall status: Status :: !Spells(fact, status)
  }

  lemma SpellingIsNormalized(fact: Option<Fact>, status: Status)
    ensures NormalizedOf(fact) == Some(Shown(status)) <==> Spells(fact, status)
    ensures NormalizedOf(fact).Some? ==>
              NormalizedOf(fact).value
              in {"done", "failed", "pending", "active", "partial_budget_overdraw", "too_complex"}
  {
  }

  lemma NormalizedHasStatus(fact: Option<Fact>)
    ensures NormalizedOf(fact).Some? ==> exists status: Status :: Spells(fact, status)
  {
    SpellingIsNormalized(fact, Done);
    SpellingIsNormalized(fact, Failed);
    SpellingIsNormalized(fact, Pending);
    SpellingIsNormalized(fact, Running);
    SpellingIsNormalized(fact, PartialBudgetOverdraw);
    SpellingIsNormalized(fact, TooComplex);
  }

  /** A status that a fact spells in any accepted way is read: the session's first, "done" only with a result, then,
      if there is a session, the result's; a result alone only if it is not done. */
  lemma SpelledStatusIsRead(result: Option<Fact>, session: Option<Fact>, deliverable: bool, status: Status)
    ensures Spells(session, status) ==>
              ReadStatus(result, session, deliverable)
              == if status.Done? && result.None? then "failed" else Shown(status)
    ensures SpellsNone(session) && Spells(result, status) ==> ReadStatus(result, session, deliverable) == Shown(status)
    ensures session.None? && Spells(result, status) ==>
              ReadStatus(result, session, deliverable) == if status.Done? then "failed" else Shown(status)
  {
    SpellingIsNormalized(session, status);
    SpellingIsNormalized(result, status);
    NormalizedHasStatus(session);
    assert Shown(status) == "done" <==> status.Done?;
    hide NormalizeStatus;
  }

  /** Without such a status, the text of the session is searched for one, and what it says is echoed at last. */
  lemma UnspelledStatusIsRead(result: Option<Fact>, session: Option<Fact>, deliverable: bool)
    requires (forall status: Status :: !Spells(result, status)) && (forall status: Status :: !Spells(session, status))
    ensures session.None? ==>
              ReadStatus(result, session, deliverable)
              == if result.Some? then "failed" else if deliverable then "active" else "pending"
    ensures session.Some? ==>
              ReadStatus(result, session, deliverable)
              == if Mentions(session, "status failed") then "failed"
                 else if Mentions(session, "status done") then "done"
                 else if session.value.status.Some? then session.value.status.value
                 else if result.Some? && result.value.status.Some? then result.value.status.value
                 else "active"
  {
    NormalizedHasStatus(session);
    NormalizedHasStatus(result);
    hide NormalizeStatus;
  }
}
