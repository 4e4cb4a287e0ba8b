/**
 Persisting the outcome of a run as the agent does it (src/agent/run.rs), against a memory service
 that is changed by every call. Every method does what the function of the same purpose in
 `Persistence` says.
 */
module Persister {
  import opened Wrappers
  import opened Sanitizer
  import opened TaskStatus
  import opened Persistence

  class Persister {
    const env: MemoryEnv
    var memory: Memory

    ghost predicate Valid()
      reads this
    {
      InBounds(memory)
    }

    constructor (env: MemoryEnv, memory: Memory)
      requires InBounds(memory)
      ensures Valid() && this.memory == memory && this.env == env
    {
      this.env, this.memory := env, memory;
    }

    method PersistCanonicalFact(kind: Kind, status: Status) returns (ok: bool)
      requires Valid()
      modifies this
      ensures Valid() && (memory, ok) == Write(env, old(memory), kind, status)
    {
      WriteInBounds(env, memory, kind, status);
      var (after, answered) := Write(env, memory, kind, status);
      memory := after;
      ok := answered;
    }

    /** The answer to writing a copy is ignored. */
    method PersistLegacyCopy(kind: Kind, status: Status)
      requires Valid()
      modifies this
      ensures Valid() && memory == Write(env, old(memory), kind, status).0
    {
      var _ := PersistCanonicalFact(kind, status);
    }

    method CanonicalFactVisible(kind: Kind, expected: Status) returns (found: Option<bool>)
      requires Valid()
      modifies this
      ensures Valid() && (memory, found) == Query(env, old(memory), kind, expected)
    {
      QueryInBounds(env, memory, kind, expected);
      var (after, answer) := Query(env, memory, kind, expected);
      memory := after;
      found := answer;
    }

    method PersistCanonicalFactWithVerification(kind: Kind, status: Status) returns (ok: bool)
      requires Valid()
      modifies this
      ensures Valid() && (memory, ok) == PersistVerified(env, old(memory), kind, status, 1)
    {
      hide Write, Query, InBounds;
      for attempt := 1 to PERSIST_VISIBILITY_ATTEMPTS + 1
        invariant Valid()
        invariant attempt <= PERSIST_VISIBILITY_ATTEMPTS ==>
          PersistVerified(env, old(memory), kind, status, 1) == PersistVerified(env, memory, kind, status, attempt)
        invariant attempt > PERSIST_VISIBILITY_ATTEMPTS ==>
          PersistVerified(env, old(memory), kind, status, 1) == (memory, false)
      {
        var written := PersistCanonicalFact(kind, status);
        if !written {
          return false;
        }
        var found := CanonicalFactVisible(kind, status);
        if found == Some(true) {
          return true;
        }
      }
      return false;
    }

    method ResolveOrPersistTerminalDeliverable(o: Outcome) returns (ok: bool)
      requires Valid()
      modifies this
      ensures Valid() && (memory, ok) == ResolveDeliverable(env, old(memory), o)
    {
      hide Query, PersistVerified, InBounds;
      if !o.deliverableRequired {
        return true;
      }
      var found := CanonicalFactVisible(DeliverableFact, o.status);
      if found.None? {
        return false;
      }
      if found.value {
        return true;
      }
      if o.localCli {
        return false;
      }
      ok := PersistCanonicalFactWithVerification(DeliverableFact, o.status);
    }

    method PersistResults(o: Outcome) returns (ok: bool)
      requires Valid()
      modifies this
      ensures Valid() && (memory, ok) == Persistence.PersistResults(env, old(memory), o)
    {
      hide PersistVerified, ResolveDeliverable, SanitizeTaskResult, InBounds, Write;
      if o.result.Some? {
        var sanitized := Sanitize(o.result.value);
        if sanitized.Rejected? {
          return false;
        }
        ok := PersistCanonicalFactWithVerification(SessionFact, Running);
        if !ok {
          return;
        }
        ok := ResolveOrPersistTerminalDeliverable(o);
        if !ok {
          return;
        }
      }
      if o.result.Some? || EndsWithoutResult(o.status) {
        ok := PersistCanonicalFactWithVerification(ResultFact, o.status);
        if !ok {
          return;
        }
        if o.result.Some? {
          PersistLegacyCopy(ResultCopy, o.status);
        }
      }
      ok := PersistCanonicalFactWithVerification(SessionFact, o.status);
      if ok {
        PersistLegacyCopy(SessionCopy, o.status);
      }
    }

    /** The end of a run, with the second attempt for a done run that could not be persisted. */
    method FinishRun(o: Outcome) returns (returned: Status, persisted: bool)
      requires Valid()
      modifies this
      ensures Valid() && (memory, returned, persisted) == Persistence.FinishRun(env, old(memory), o)
    {
      hide Persistence.PersistResults, InBounds;
      returned := o.status;
      persisted := PersistResults(o);
      if !persisted && o.status.Done? {
        returned := Failed;
        persisted := PersistResults(o.(status := Failed));
      }
    }
  }
}
