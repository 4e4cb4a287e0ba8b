/**
 The bounded first-in-first-out cache of dispatched task ids that the poller and the courier
 share (src/server/state.rs). It is proved against the full history of accepted claims, which
 the program itself does not keep.
 */
module DispatchTracker {

  const CAPACITY: nat := 10_000

  /** The ids the cache remembers when `history` lists every accepted claim, oldest first. */
  function Window(history: seq<string>): (w: seq<string>)
    ensures |w| == if |history| < CAPACITY then |history| else CAPACITY
  {
    if |history| <= CAPACITY then history else history[|history| - CAPACITY..]
  }

  function Elements<T>(s: seq<T>): set<T> {
    set x | x in s
  }

  ghost predicate Distinct<T>(s: seq<T>) {
    forall i, j | 0 <= i < j < |s| :: s[i] != s[j]
  }

  /** The accepted claims when `requests` arrive in this order, from whichever caller. */
  function Accepted(requests: seq<string>): seq<string> {
    if requests == [] then []
    else
      var before := Accepted(requests[..|requests| - 1]);
      var id := requests[|requests| - 1];
      if id in Window(before) then before else before + [id]
  }

  lemma DistinctCount<T>(s: seq<T>)
    requires Distinct(s)
    ensures |Elements(s)| == |s|
  {
    if s != [] {
      var front, last := s[..|s| - 1], s[|s| - 1];
      DistinctCount(front);
      assert Elements(s) == Elements(front) + {last};
    }
  }

  /** No id is accepted twice within CAPACITY + 1 accepted claims. */
  lemma {:induction false} AcceptedApart(requests: seq<string>, i: nat, j: nat)
    requires i < j < |Accepted(requests)| && Accepted(requests)[i] == Accepted(requests)[j]
    ensures j - i > CAPACITY
  {
    var before := Accepted(requests[..|requests| - 1]);
    if j < |before| {
      AcceptedApart(requests[..|requests| - 1], i, j);
    } else {
      var shift := |before| - |Window(before)|;
      assert forall k | shift <= k < |before| :: before[k] == Window(before)[k - shift];
    }
  }

  lemma NextAreDistinct(requests: seq<string>, i: nat, n: nat)
    requires n <= CAPACITY + 1 && i + n <= |Accepted(requests)|
    ensures Distinct(Accepted(requests)[i..i + n])
  {
    var next := Accepted(requests)[i..i + n];
    forall k, l | 0 <= k < l < n
      ensures next[k] != next[l]
    {
      if next[k] == next[l] {
        AcceptedApart(requests, i + k, i + l);
      }
    }
  }

  /**
   What the daemon relies on: between two dispatches of the same task, by poller or courier,
   at least CAPACITY other tasks, all different, were dispatched.
   */
  lemma RedispatchNeedsManyOthers(requests: seq<string>, i: nat, j: nat)
    requires i < j < |Accepted(requests)| && Accepted(requests)[i] == Accepted(requests)[j]
    ensures i + 1 + CAPACITY <= j
    ensures Accepted(requests)[i] !in Accepted(requests)[i + 1..i + 1 + CAPACITY]
    ensures |Elements(Accepted(requests)[i + 1..i + 1 + CAPACITY])| == CAPACITY
  {
    AcceptedApart(requests, i, j);
    NextAreDistinct(requests, i, CAPACITY + 1);
    NextAreDistinct(requests, i + 1, CAPACITY);
    DistinctCount(Accepted(requests)[i + 1..i + 1 + CAPACITY]);
    var fromI := Accepted(requests)[i..i + (CAPACITY + 1)];
    assert fromI[1..] == Accepted(requests)[i + 1..i + 1 + CAPACITY];
    assert fromI[0] !in fromI[1..];
  }

  /** A request is turned away exactly when its id is among the last CAPACITY accepted claims. */
  lemma RejectedExactlyInWindow(requests: seq<string>, id: string)
    ensures Accepted(requests + [id]) == Accepted(requests) <==>
            exists k :: AmongLast(Accepted(requests), k) && Accepted(requests)[k] == id
  {
    var h := Accepted(requests);
    assert (requests + [id])[..|requests|] == requests;
    assert |h + [id]| == |h| + 1;
    InWindow(h, id);
  }

  predicate AmongLast(history: seq<string>, k: int) {
    0 <= k < |history| && |history| - CAPACITY <= k
  }

  lemma InWindow(h: seq<string>, id: string)
    ensures id in Window(h) <==> exists k :: AmongLast(h, k) && h[k] == id
  {
    var w, shift := Window(h), |h| - |Window(h)|;
    if id in w {
      var k :| 0 <= k < |w| && w[k] == id;
      assert AmongLast(h, k + shift);
    }
    if k :| AmongLast(h, k) && h[k] == id {
      assert w[k - shift] == id;
    }
  }

  lemma WindowIsDistinct(requests: seq<string>)
    ensures Distinct(Window(Accepted(requests)))
  {
    var h := Accepted(requests);
    var w := Window(h);
    var shift := |h| - |w|;
    forall i, j | 0 <= i < j < |w|
      ensures w[i] != w[j]
    {
      if w[i] == w[j] {
        AcceptedApart(requests, i + shift, j + shift);
      }
    }
  }

  lemma ElementsSlide<T>(s: seq<T>, x: T)
    ensures Elements(s + [x]) == Elements(s) + {x}
    ensures s != [] && Distinct(s) ==> Elements(s[1..]) == Elements(s) - {s[0]}
  {
  }

  /** The window slides: a new claim pushes the oldest one out once CAPACITY are remembered. */
  lemma WindowSlides(history: seq<string>, id: string)
    ensures Window(history + [id]) ==
            (if |Window(history)| >= CAPACITY then Window(history)[1..] else Window(history)) + [id]
  {
  }

  class DispatchedTracker {
    var seen: set<string>
    var order: seq<string>
    ghost var requests: seq<string>

    ghost predicate Valid()
      reads this
    {
      && order == Window(Accepted(requests))
      && seen == Elements(order)
    }

    constructor ()
      ensures Valid() && requests == []
    {
      seen, order, requests := {}, [], [];
    }

    method Claim(id: string) returns (accepted: bool)
      requires Valid()
      modifies this
      ensures Valid() && requests == old(requests) + [id]
      ensures accepted <==> id !in Window(Accepted(old(requests)))
      ensures Accepted(requests) == Accepted(old(requests)) + if accepted then [id] else []
    {
      ghost var history := Accepted(requests);
      assert (requests + [id])[..|requests|] == requests;
      requests := requests + [id];
      if id in seen {
        return false;
      }
      WindowSlides(history, id);
      if |order| >= CAPACITY {
        WindowIsDistinct(old(requests));
        ElementsSlide(order, id);
        var oldest := order[0];
        order := order[1..];
        seen := seen - {oldest};
      }
      ElementsSlide(order, id);
      seen := seen + {id};
      order := order + [id];
      return true;
    }
  }
}
