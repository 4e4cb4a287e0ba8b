/** Environments in which every call to memory succeeds and visibility moves as wished. */
module MemoryRuns {
  import opened Wrappers
  import opened TaskStatus
  import opened Persistence

  /** Before call `n` visibility moves towards `wish(n)`, as far as versions allow. */
  function Obliging(depth: nat, wish: nat -> Seen): MemoryEnv {
    MemoryEnv(depth, (n: nat) => true, (n: nat) => true, (n: nat) => [wish(n)])
  }

  /** Memory after writing a version and asking for it. */
  function AfterRound(wish: nat -> Seen, m: Memory, kind: Kind, status: Status): Memory {
    Look(Appended(Look(m, wish(m.calls)), kind, status), wish(m.calls + 1)).(calls := m.calls + 2)
  }

  lemma LookOnce(m: Memory, wish: Seen)
    ensures LookAll(m, [wish]) == Look(m, wish)
  {
    assert [wish][1..] == [];
  }

  lemma LookInBounds(m: Memory, wish: Seen)
    requires InBounds(m)
    ensures InBounds(Look(m, wish))
  {
  }

  lemma RoundInBounds(wish: nat -> Seen, m: Memory, kind: Kind, status: Status)
    requires InBounds(m)
    ensures InBounds(AfterRound(wish, m, kind, status))
  {
    LookInBounds(m, wish(m.calls));
    LookInBounds(Appended(Look(m, wish(m.calls)), kind, status), wish(m.calls + 1));
  }

  lemma ObligingQuery(depth: nat, wish: nat -> Seen, m: Memory, kind: Kind, expected: Status)
    requires InBounds(m)
    ensures InBounds(Look(m, wish(m.calls)))
    ensures Query(Obliging(depth, wish), m, kind, expected)
         == (Look(m, wish(m.calls)).(calls := m.calls + 1),
             Some(IsVisible(Obliging(depth, wish), Look(m, wish(m.calls)), kind, expected)))
  {
    LookInBounds(m, wish(m.calls));
    LookOnce(m, wish(m.calls));
  }

  /** One round of writing and verifying. */
  lemma Round(depth: nat, wish: nat -> Seen, m: Memory, kind: Kind, status: Status, attempt: nat)
    requires InBounds(m)
    ensures InBounds(AfterRound(wish, m, kind, status))
    ensures
      var env, m' := Obliging(depth, wish), AfterRound(wish, m, kind, status);
      PersistVerified(env, m, kind, status, attempt) ==
        (if IsVisible(env, m', kind, status) then (m', true)
         else if attempt < PERSIST_VISIBILITY_ATTEMPTS then PersistVerified(env, m', kind, status, attempt + 1)
         else (m', false))
  {
    hide IsVisible, Look, Appended;
    var env := Obliging(depth, wish);
    RoundInBounds(wish, m, kind, status);
    LookOnce(m, wish(m.calls));
    var m1 := Appended(Look(m, wish(m.calls)), kind, status).(calls := m.calls + 1);
    assert Write(env, m, kind, status) == (m1, true);
    WriteInBounds(env, m, kind, status);
    ObligingQuery(depth, wish, m1, kind, status);
    LookIgnoresCalls(Appended(Look(m, wish(m.calls)), kind, status), m.calls + 1, wish(m.calls + 1));
    VisibleIgnoresCalls(env, Look(m1, wish(m.calls + 1)), m.calls + 2, kind, status);
  }

  lemma LookIgnoresCalls(m: Memory, calls: nat, wish: Seen)
    ensures Look(m.(calls := calls), wish) == Look(m, wish).(calls := calls)
  {
  }

  lemma VisibleIgnoresCalls(env: MemoryEnv, m: Memory, calls: nat, kind: Kind, status: Status)
    requires InBounds(m)
    ensures InBounds(m.(calls := calls))
    ensures IsVisible(env, m.(calls := calls), kind, status) <==> IsVisible(env, m, kind, status)
  {
  }

  // ---- Copies are not verified ----

  lemma CopyWritten(depth: nat, wish: nat -> Seen, m: Memory, kind: Kind, status: Status)
    ensures Write(Obliging(depth, wish), m, kind, status)
         == (Appended(Look(m, wish(m.calls)), kind, status).(calls := m.calls + 1), true)
  {
    LookOnce(m, wish(m.calls));
  }
}
