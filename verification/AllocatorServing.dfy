/**
  Every waiting session that stays is served: with `k` others before it, at the latest with
  the unreserved release after the first `k`.
 */
module AllocatorServing {
  import opened Basics
  import opened Allocator
  import opened AllocatorInvariant
  import opened AllocatorFairness
  import opened AllocatorClosing

  lemma {:induction false} RunKeepsLog(s: State, es: seq<Event>)
    requires WellFormed(s) && Possible(s, es)
    ensures s.log <= Run(s, es).log
    decreases |es|
  {
    if es != [] {
      StepKeepsWellFormed(s, es[0]);
      StepFrame(s, es[0]);
      RunKeepsLog(Step(s, es[0]), es[1..]);
    }
  }

  predicate Stays(es: seq<Event>, sid: nat) {
    forall i :: 0 <= i < |es| ==> es[i] != ClientHangsUp(sid)
  }

  /** Whoever is no longer queued and did not hang up was given a board in between. */
  lemma {:induction false} NoLongerQueuedWasServed(s: State, es: seq<Event>, sid: nat) returns (i: nat, b: nat)
    requires Invariant(s) && Possible(s, es) && OneSetupEach(s, es) && Stays(es, sid)
    requires sid in s.queue && sid !in Run(s, es).queue
    ensures |s.log| <= i < |Run(s, es).log| && Run(s, es).log[i] == Acquire(sid, b)
    decreases |es|, 1
  {
    if sid in Step(s, es[0]).queue {
      i, b := ServedLater(s, es, sid);
    } else {
      StepKeepsWellFormed(s, es[0]);
      i, b := ServedNow(s, es[0], Step(s, es[0]), es[1..], sid);
    }
  }

  lemma ServedNow(s: State, e: Event, s1: State, es: seq<Event>, sid: nat) returns (i: nat, b: nat)
    requires Invariant(s) && Enabled(s, e) && FirstSetup(s, e) && e != ClientHangsUp(sid) && s1 == Step(s, e)
    requires WellFormed(s1) && Possible(s1, es) && sid in s.queue && sid !in s1.queue
    ensures |s.log| <= i < |Run(s1, es).log| && Run(s1, es).log[i] == Acquire(sid, b)
  {
    b := LeavingTheQueueServes(s, e, sid);
    i := AcquiredStays(s, s1, es, sid, b);
  }

  lemma AcquiredStays(s: State, s1: State, es: seq<Event>, sid: nat, b: nat) returns (i: nat)
    requires JustServed(s, s1, sid, b) && WellFormed(s1) && Possible(s1, es)
    ensures |s.log| <= i < |Run(s1, es).log| && Run(s1, es).log[i] == Acquire(sid, b)
  {
    RunKeepsLog(s1, es);
    i := |s1.log| - 1;
  }

  lemma {:induction false} ServedLater(s: State, es: seq<Event>, sid: nat) returns (i: nat, b: nat)
    requires Invariant(s) && Possible(s, es) && OneSetupEach(s, es) && Stays(es, sid)
    requires es != [] && sid in Step(s, es[0]).queue && sid !in Run(s, es).queue
    ensures |s.log| <= i < |Run(s, es).log| && Run(s, es).log[i] == Acquire(sid, b)
    decreases |es|, 0
  {
    StepKeepsInvariant(s, es[0]);
    StepFrame(s, es[0]);
    i, b := NoLongerQueuedWasServed(Step(s, es[0]), es[1..], sid);
  }

  /**
    Bounded waiting, concluded: over every run in which a session with `k` others before it
    does not hang up and more than `k` unreserved boards are released, it acquires a board.
   */
  lemma ServedInTime(s: State, es: seq<Event>, sid: nat) returns (i: nat, b: nat)
    requires Invariant(s) && Possible(s, es) && OneSetupEach(s, es) && Stays(es, sid) && sid in s.queue
    requires Releases(Run(s, es).log, Unreserved(s)) - Releases(s.log, Unreserved(s)) > Position(s.queue, sid)
    ensures |s.log| <= i < |Run(s, es).log| && Run(s, es).log[i] == Acquire(sid, b)
  {
    assert sid !in Run(s, es).queue by {
      if sid in Run(s, es).queue {
        WaitingIsBounded(s, es, sid);
      }
    }
    i, b := NoLongerQueuedWasServed(s, es, sid);
  }

  // ---------------------------------------------------------------------------
  // A board is kept until the session is gone

  lemma SessionCloseKeepsBoard(p: State, x: nat, sid: nat)
    requires ReadyToClose(p, x) && sid in p.sessions && DoneWaiting(p, sid) && sid in SessionClose(p, x).sessions
    ensures SessionClose(p, x).sessions[sid].board == p.sessions[sid].board
  {
    assert HolderOwns(p, x);
    if SessionClose(p, x) == DaemonClose(p, x) {
      var i := DaemonCloseOutcome(p, x);
      if i < |Leaving(p, x).queue| {
        assert Consistent(p, p.queue[i]);
      }
    }
  }

  lemma StepKeepsBoard(s: State, e: Event, sid: nat)
    requires Invariant(s) && Enabled(s, e) && FirstSetup(s, e)
    requires sid in s.sessions && DoneWaiting(s, sid) && sid in Step(s, e).sessions
    ensures Step(s, e).sessions[sid].board == s.sessions[sid].board
  {
    if Closes(s, e) {
      ClosingStep(s, e);
      var p := Prepared(s, e);
      assert Consistent(s, sid) && HolderOwns(p, sid);
      SessionCloseKeepsBoard(p, e.sid, sid);
    }
  }

  /** A session that was served keeps that board as long as it exists. */
  lemma {:induction false} BoardIsKept(s: State, es: seq<Event>, sid: nat)
    requires Invariant(s) && Possible(s, es) && OneSetupEach(s, es)
    requires sid in s.sessions && DoneWaiting(s, sid) && sid in Run(s, es).sessions
    ensures Run(s, es).sessions[sid].board == s.sessions[sid].board && s.sessions[sid].board.Some?
    decreases |es|
  {
    if es == [] {
      assert HolderOwns(s, sid);
    } else {
      StepKeepsInvariant(s, es[0]);
      StepFrame(s, es[0]);
      StepStaysDone(s, es[0], sid);
      var s1 := Step(s, es[0]);
      if sid !in s1.sessions {
        GoneStaysGone(s1, es[1..], sid);
        assert false;
      }
      StepKeepsBoard(s, es[0], sid);
      BoardIsKept(s1, es[1..], sid);
    }
  }
}
