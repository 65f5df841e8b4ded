/**
 * Trigger coalescing: a mutex taken with TryLock, an atomic pending flag and one catch-up pass.
 *
 * Every statement that touches shared state is one step of one caller.  Which step a caller takes is
 * decided by where it stands, so a run is just the order in which the callers move.
 */
module Trigger {
  import opened Wrappers

  /** A goroutine. */
  type Caller = int

  /** Where a caller stands in triggerReconcile. */
  datatype Pc =
    | Idle        // not in a call
    | Turned      // TryLock failed, flag not stored yet
    | Holding     // lock taken, first pass not started yet
    | Passing     // in the first pass
    | Checking    // first pass over, flag not swapped yet
    | Committed   // flag swapped, catch-up pass not started yet
    | CatchingUp  // in the catch-up pass
    | Leaving     // about to unlock

  datatype Event = Locked | Missed | Stored | Started | Ended | Swapped | Unswapped | Unlocked

  datatype State = State(owner: Option<Caller>, pending: bool, pcs: map<Caller, Pc>, history: seq<Event>)

  const START := State(None, false, map[], [])

  function PcOf(s: State, c: Caller): Pc {
    if c in s.pcs then s.pcs[c] else Idle
  }

  function Move(s: State, c: Caller, pc: Pc, e: Event): State {
    s.(pcs := s.pcs[c := pc], history := s.history + [e])
  }

  function Step(s: State, c: Caller): State {
    match PcOf(s, c)
    case Idle =>
      if s.owner.None? then Move(s, c, Holding, Locked).(owner := Some(c)) else Move(s, c, Turned, Missed)
    case Turned => Move(s, c, Idle, Stored).(pending := true)
    case Holding => Move(s, c, Passing, Started)
    case Passing => Move(s, c, Checking, Ended)
    case Checking =>
      if s.pending then Move(s, c, Committed, Swapped).(pending := false) else Move(s, c, Leaving, Unswapped)
    case Committed => Move(s, c, CatchingUp, Started)
    case CatchingUp => Move(s, c, Leaving, Ended)
    case Leaving => Move(s, c, Idle, Unlocked).(owner := None)
  }

  function RunFrom(s: State, moves: seq<Caller>): State {
    if moves == [] then s else Step(RunFrom(s, moves[..|moves| - 1]), moves[|moves| - 1])
  }

  function Run(moves: seq<Caller>): State {
    RunFrom(START, moves)
  }

  lemma {:induction false} RunFromAppend(s: State, a: seq<Caller>, b: seq<Caller>)
    ensures RunFrom(s, a + b) == RunFrom(RunFrom(s, a), b)
    decreases |b|
  {
    if b == [] {
      assert a + b == a;
    } else {
      var n := |b| - 1;
      assert (a + b)[..|a| + n] == a + b[..n];
      RunFromAppend(s, a, b[..n]);
    }
  }

  // ---- The code ----

  predicate InPass(pc: Pc) {
    pc.Passing? || pc.CatchingUp?
  }

  /** The shared variables, where every caller stands, and what happened so far. */
  class Coalescer {
    var mutex: Option<Caller>
    var pending: bool
    var pcs: map<Caller, Pc>
    var history: seq<Event>

    constructor ()
      ensures View() == START
    {
      mutex, pending, pcs, history := None, false, map[], [];
    }

    function View(): State
      reads this
    {
      State(mutex, pending, pcs, history)
    }

    method At(c: Caller, pc: Pc, e: Event)
      modifies this`pcs, this`history
      ensures pcs == old(pcs)[c := pc] && history == old(history) + [e]
    {
      pcs, history := pcs[c := pc], history + [e];
    }

    method TryLock(c: Caller) returns (ok: bool)
      requires PcOf(View(), c).Idle?
      modifies this
      ensures View() == Step(old(View()), c) && PcOf(View(), c) == if ok then Holding else Turned
    {
      ok := mutex.None?;
      if ok {
        mutex := Some(c);
        At(c, Holding, Locked);
      } else {
        At(c, Turned, Missed);
      }
    }

    method StorePending(c: Caller)
      requires PcOf(View(), c).Turned?
      modifies this
      ensures View() == Step(old(View()), c) && PcOf(View(), c) == Idle
    {
      pending := true;
      At(c, Idle, Stored);
    }

    method CompareAndSwap(c: Caller) returns (ok: bool)
      requires PcOf(View(), c).Checking?
      modifies this
      ensures View() == Step(old(View()), c) && PcOf(View(), c) == if ok then Committed else Leaving
    {
      ok := pending;
      if ok {
        pending := false;
        At(c, Committed, Swapped);
      } else {
        At(c, Leaving, Unswapped);
      }
    }

    method Unlock(c: Caller)
      requires PcOf(View(), c).Leaving?
      modifies this
      ensures View() == Step(old(View()), c) && PcOf(View(), c) == Idle
    {
      mutex := None;
      At(c, Idle, Unlocked);
    }

    method BeginPass(c: Caller)
      requires PcOf(View(), c).Holding? || PcOf(View(), c).Committed?
      modifies this
      ensures View() == Step(old(View()), c)
      ensures PcOf(View(), c) == if PcOf(old(View()), c).Holding? then Passing else CatchingUp
    {
      At(c, if pcs[c].Holding? then Passing else CatchingUp, Started);
    }

    method EndPass(c: Caller)
      requires InPass(PcOf(View(), c))
      modifies this
      ensures View() == Step(old(View()), c)
      ensures PcOf(View(), c) == if PcOf(old(View()), c).Passing? then Checking else Leaving
    {
      At(c, if pcs[c].Passing? then Checking else Leaving, Ended);
    }

    /** What the other callers do between two steps of this one. */
    method Meanwhile(c: Caller, others: seq<Caller>)
      requires c !in others
      modifies this
      ensures View() == RunFrom(old(View()), others)
      ensures PcOf(View(), c) == PcOf(old(View()), c)
    {
      var s := RunFrom(View(), others);
      OthersKeepPc(View(), c, others);
      mutex, pending, pcs, history := s.owner, s.pending, s.pcs, s.history;
    }

    /** One doReconcile, with the other callers moving before it, during it and after it. */
    method DoReconcile(c: Caller, others: nat -> seq<Caller>, k: nat) returns (moves: seq<Caller>)
      requires PcOf(View(), c).Holding? || PcOf(View(), c).Committed?
      requires forall n :: c !in others(n)
      modifies this
      ensures View() == RunFrom(old(View()), moves)
      ensures moves == others(k) + [c] + others(k + 1) + [c] + others(k + 2)
      ensures PcOf(View(), c) == if PcOf(old(View()), c).Holding? then Checking else Leaving
    {
      ghost var start := View();
      Meanwhile(c, others(k));
      BeginPass(c);
      Meanwhile(c, others(k + 1));
      EndPass(c);
      Meanwhile(c, others(k + 2));
      moves := others(k) + [c] + others(k + 1) + [c] + others(k + 2);
      PassMoves(start, c, others(k), others(k + 1), others(k + 2));
    }

    /** triggerReconcile by caller `c`, among any moves of the others. */
    method TriggerReconcile(c: Caller, others: nat -> seq<Caller>) returns (moves: seq<Caller>)
      requires PcOf(View(), c).Idle? && forall n :: c !in others(n)
      modifies this
      ensures View() == RunFrom(old(View()), moves)
      ensures PcOf(View(), c).Idle?
      ensures multiset(moves)[c] in {2, 5, 7}
    {
      ghost var start := View();
      var locked := TryLock(c);
      if !locked {
        Meanwhile(c, others(0));
        StorePending(c);
        moves := [c] + others(0) + [c];
        SkippedMoves(start, c, others(0));
        return;
      }
      var rest := UnderLock(c, others);
      moves := [c] + rest;
      RunFromOne(start, c);
      RunFromAppend(start, [c], rest);
    }

    /** The rest of triggerReconcile once the lock is taken. */
    method UnderLock(c: Caller, others: nat -> seq<Caller>) returns (moves: seq<Caller>)
      requires PcOf(View(), c).Holding? && forall n :: c !in others(n)
      modifies this
      ensures View() == RunFrom(old(View()), moves)
      ensures PcOf(View(), c).Idle?
      ensures multiset(moves)[c] in {4, 6}
    {
      hide Step;
      hide RunFrom;
      ghost var held := View();
      moves := DoReconcile(c, others, 0);
      var again := CompareAndSwap(c);
      RunFromSnoc(held, moves, c);
      moves := moves + [c];
      assert multiset(moves)[c] == 3;
      if again {
        var second := DoReconcile(c, others, 3);
        RunFromAppend(held, moves, second);
        assert multiset(second)[c] == 2;
        moves := moves + second;
      }
      RunFromSnoc(held, moves, c);
      Unlock(c);
      moves := moves + [c];
    }
  }

  lemma RunFromOne(s: State, c: Caller)
    ensures RunFrom(s, [c]) == Step(s, c)
  {
  }

  lemma RunFromSnoc(s: State, moves: seq<Caller>, c: Caller)
    ensures RunFrom(s, moves + [c]) == Step(RunFrom(s, moves), c)
  {
  }

  lemma {:induction false} OthersKeepPc(s: State, c: Caller, others: seq<Caller>)
    requires c !in others
    ensures PcOf(RunFrom(s, others), c) == PcOf(s, c)
    decreases |others|
  {
    if others != [] {
      OthersKeepPc(s, c, others[..|others| - 1]);
    }
  }

  lemma PassMoves(s: State, c: Caller, x: seq<Caller>, y: seq<Caller>, z: seq<Caller>)
    ensures RunFrom(s, x + [c] + y + [c] + z) == RunFrom(Step(RunFrom(Step(RunFrom(s, x), c), y), c), z)
  {
    RunFromSnoc(s, x, c);
    RunFromAppend(s, x + [c], y);
    RunFromSnoc(s, x + [c] + y, c);
    RunFromAppend(s, x + [c] + y + [c], z);
  }

  lemma SkippedMoves(s: State, c: Caller, x: seq<Caller>)
    ensures RunFrom(s, [c] + x + [c]) == Step(RunFrom(Step(s, c), x), c)
  {
    RunFromOne(s, c);
    RunFromAppend(s, [c], x);
    RunFromSnoc(s, [c] + x, c);
  }

  // ---- Mutual exclusion ----

  /** The mutex is held by exactly the caller between TryLock and Unlock. */
  ghost predicate Inside(pc: Pc) {
    !pc.Idle? && !pc.Turned?
  }

  ghost predicate OwnerInside(s: State) {
    forall c: Caller :: Inside(PcOf(s, c)) <==> s.owner == Some(c)
  }

  lemma {:induction false} OneInside(moves: seq<Caller>)
    ensures OwnerInside(Run(moves))
    decreases |moves|
  {
    if moves != [] {
      OneInside(moves[..|moves| - 1]);
    }
  }

  /** The number of passes that are running. */
  function Running(history: seq<Event>): int {
    if history == [] then 0
    else
      var n := |history| - 1;
      Running(history[..n]) + (if history[n].Started? then 1 else if history[n].Ended? then -1 else 0)
  }

  /** The number of passes since the lock was last taken. */
  function Passes(history: seq<Event>): nat {
    if history == [] then 0
    else
      var n := |history| - 1;
      if history[n].Locked? then 0 else Passes(history[..n]) + (if history[n].Started? then 1 else 0)
  }

  /** Whether the flag was swapped since the lock was last taken. */
  predicate SwappedSinceLock(history: seq<Event>) {
    history != [] &&
    var n := |history| - 1;
    !history[n].Locked? && (history[n].Swapped? || SwappedSinceLock(history[..n]))
  }

  function OwnerPc(s: State): Pc {
    if s.owner.Some? then PcOf(s, s.owner.value) else Idle
  }

  /** What may be counted in the history while the owner stands at `pc`. */
  predicate Fits(pc: Pc, running: int, passes: nat, swapped: bool) {
    match pc
    case Holding => running == 0 && passes == 0 && !swapped
    case Passing => running == 1 && passes == 1 && !swapped
    case Checking => running == 0 && passes == 1 && !swapped
    case Committed => running == 0 && passes == 1 && swapped
    case CatchingUp => running == 1 && passes == 2 && swapped
    case _ => running == 0 && passes == if swapped then 2 else 1
  }

  /** Before the first lock nothing is counted; from then on the owner's place decides. */
  ghost predicate Counted(s: State) {
    var h := s.history;
    if Untouched(h) then s.owner.None? && Running(h) == 0
    else Fits(OwnerPc(s), Running(h), Passes(h), SwappedSinceLock(h))
  }

  predicate Untouched(h: seq<Event>) {
    Locked !in h
  }

  lemma HistorySnoc(h: seq<Event>, e: Event)
    ensures Running(h + [e]) == Running(h) + (if e.Started? then 1 else if e.Ended? then -1 else 0)
    ensures Passes(h + [e]) == if e.Locked? then 0 else Passes(h) + (if e.Started? then 1 else 0)
    ensures SwappedSinceLock(h + [e]) <==> !e.Locked? && (e.Swapped? || SwappedSinceLock(h))
    ensures Untouched(h + [e]) <==> Untouched(h) && !e.Locked?
  {
  }

  lemma StepCounted(s: State, c: Caller)
    requires OwnerInside(s) && Counted(s)
    ensures Counted(Step(s, c))
  {
    hide Running;
    hide Passes;
    hide SwappedSinceLock;
    var e := Step(s, c).history[|s.history|];
    HistorySnoc(s.history, e);
    assert Step(s, c).history == s.history + [e];
    StepOwnerPc(s, c);
  }

  /** Only the owner's own steps change where the owner stands. */
  lemma StepOwnerPc(s: State, c: Caller)
    requires OwnerInside(s)
    ensures Inside(PcOf(s, c)) <==> s.owner == Some(c)
    ensures s.owner.Some? && s.owner != Some(c) ==> OwnerPc(Step(s, c)) == OwnerPc(s)
    ensures s.owner == Some(c) ==>
              OwnerPc(Step(s, c)) == if PcOf(s, c).Leaving? then Idle else PcOf(Step(s, c), c)
    ensures s.owner.None? ==> OwnerPc(Step(s, c)) == if PcOf(s, c).Idle? then Holding else Idle
  {
  }

  lemma {:induction false} RunCounted(moves: seq<Caller>)
    ensures Counted(Run(moves))
    decreases |moves|
  {
    if moves != [] {
      RunCounted(moves[..|moves| - 1]);
      OneInside(moves[..|moves| - 1]);
      StepCounted(Run(moves[..|moves| - 1]), moves[|moves| - 1]);
    }
  }

  /** Over every interleaving of any number of callers, passes never overlap. */
  lemma PassesNeverOverlap(moves: seq<Caller>)
    ensures 0 <= Running(Run(moves).history) <= 1
    ensures forall c: Caller, d: Caller :: InPass(PcOf(Run(moves), c)) && InPass(PcOf(Run(moves), d)) ==> c == d
  {
    RunCounted(moves);
    OneInside(moves);
  }

  /** Whenever the lock is free again, its last holder ran one pass, or two when it found the flag set. */
  lemma OneOrTwoPasses(moves: seq<Caller>)
    requires var s := Run(moves); s.owner.None? && Locked in s.history
    ensures var h := Run(moves).history; Passes(h) == if SwappedSinceLock(h) then 2 else 1
  {
    RunCounted(moves);
    OneInside(moves);
  }

  // ---- No trigger is lost ----

  ghost predicate StartedAfter(h: seq<Event>, j: nat) {
    exists k: nat :: j < k < |h| && h[k].Started?
  }

  /** The lock was taken, or the flag was found set, after event `j`. */
  ghost predicate PromisedAfter(h: seq<Event>, j: nat) {
    exists k: nat :: j < k < |h| && (h[k].Locked? || h[k].Swapped?)
  }

  predicate AboutToStart(s: State) {
    OwnerPc(s).Holding? || OwnerPc(s).Committed?
  }

  lemma {:induction false} HistoryLength(moves: seq<Caller>)
    ensures |Run(moves).history| == |moves|
    decreases |moves|
  {
    if moves != [] {
      HistoryLength(moves[..|moves| - 1]);
    }
  }

  lemma {:induction false} HistoryPrefix(moves: seq<Caller>, m: nat)
    requires m <= |moves|
    ensures |Run(moves).history| == |moves| && Run(moves[..m]).history == Run(moves).history[..m]
    decreases |moves|
  {
    HistoryLength(moves);
    if m == |moves| {
      assert moves[..m] == moves;
    } else {
      var n := |moves| - 1;
      HistoryPrefix(moves[..n], m);
      assert moves[..n][..m] == moves[..m];
    }
  }

  lemma LastStep(moves: seq<Caller>) returns (s: State, t: State, e: Event)
    requires moves != []
    ensures s == Run(moves[..|moves| - 1]) && t == Run(moves) && t == Step(s, moves[|moves| - 1])
    ensures t.history == s.history + [e]
    ensures |s.history| == |moves| - 1 && OwnerInside(s)
  {
    var n := |moves| - 1;
    s, t := Run(moves[..n]), Run(moves);
    e := t.history[|s.history|];
    HistoryLength(moves[..n]);
    OneInside(moves[..n]);
  }

  lemma StepAbout(s: State, c: Caller)
    requires OwnerInside(s)
    ensures var e := Step(s, c).history[|s.history|];
            && (e.Locked? || e.Swapped? ==> AboutToStart(Step(s, c)))
            && (e.Started? ==> AboutToStart(s))
            && (!e.Locked? && !e.Swapped? && !e.Started? ==> AboutToStart(Step(s, c)) == AboutToStart(s))
  {
  }

  lemma LaterEvent(h: seq<Event>, e: Event, j: nat)
    requires j < |h|
    ensures StartedAfter(h + [e], j) <==> StartedAfter(h, j) || e.Started?
    ensures PromisedAfter(h + [e], j) <==> PromisedAfter(h, j) || e.Locked? || e.Swapped?
  {
    var g := h + [e];
    assert g[|h|] == e;
    forall k: nat | j < k < |h| ensures g[k] == h[k] { }
    if StartedAfter(h, j) {
      var k: nat :| j < k < |h| && h[k].Started?;
      assert g[k].Started?;
    }
    if PromisedAfter(h, j) {
      var k: nat :| j < k < |h| && (h[k].Locked? || h[k].Swapped?);
      assert g[k].Locked? || g[k].Swapped?;
    }
  }

  /** A pass has started after event `j`, or is about to, exactly when one was about to then or was promised since. */
  lemma {:induction false} ServedOrAbout(moves: seq<Caller>, j: nat)
    requires j < |moves|
    ensures var s := Run(moves);
            (StartedAfter(s.history, j) || AboutToStart(s)) <==>
            (AboutToStart(Run(moves[..j + 1])) || PromisedAfter(s.history, j))
    decreases |moves|
  {
    var n := |moves| - 1;
    HistoryLength(moves);
    if j == n {
      assert moves[..j + 1] == moves;
    } else {
      ServedOrAbout(moves[..n], j);
      assert moves[..n][..j + 1] == moves[..j + 1];
      var s, t, e := LastStep(moves);
      StepAbout(s, moves[n]);
      LaterEvent(s.history, e, j);
    }
  }

  ghost predicate SwappedAfter(h: seq<Event>, j: nat) {
    exists k: nat :: j < k < |h| && h[k].Swapped?
  }

  /** The flag is set exactly when some store was not swapped away since. */
  lemma {:induction false} PendingExactly(moves: seq<Caller>)
    ensures var s := Run(moves);
            s.pending <==> exists j: nat :: j < |s.history| && s.history[j].Stored? && !SwappedAfter(s.history, j)
    decreases |moves|
  {
    if moves != [] {
      var n := |moves| - 1;
      PendingExactly(moves[..n]);
      var s, t, e := LastStep(moves);
      var h, g := s.history, t.history;
      forall j: nat | j < n ensures SwappedAfter(g, j) <==> SwappedAfter(h, j) || e.Swapped? {
        if SwappedAfter(h, j) {
          var k: nat :| j < k < |h| && h[k].Swapped?;
          assert g[k].Swapped?;
        }
        assert g[n] == e;
      }
      assert !SwappedAfter(g, n);
      if s.pending && !e.Swapped? {
        var j: nat :| j < n && h[j].Stored? && !SwappedAfter(h, j);
        assert g[j].Stored? && !SwappedAfter(g, j);
      }
    }
  }

  /**
   * No trigger is lost: after a skipped trigger stored its flag, a pass has started since, or the lock
   * holder is about to start one, or the flag is still set.
   */
  lemma NoTriggerIsLost(moves: seq<Caller>, j: nat)
    requires j < |Run(moves).history| && Run(moves).history[j].Stored?
    ensures var s := Run(moves); StartedAfter(s.history, j) || AboutToStart(s) || s.pending
  {
    var s := Run(moves);
    HistoryLength(moves);
    ServedOrAbout(moves, j);
    PendingExactly(moves);
    if SwappedAfter(s.history, j) {
      assert PromisedAfter(s.history, j);
    }
  }

  ghost predicate AtRest(s: State) {
    forall c: Caller :: PcOf(s, c).Idle?
  }

  ghost predicate LockedAfter(h: seq<Event>, j: nat) {
    exists k: nat :: j < k < |h| && h[k].Locked?
  }

  /** The holder has yet to start a pass, or to look at the flag. */
  predicate WillLook(pc: Pc) {
    pc.Holding? || pc.Passing? || pc.Checking? || pc.Committed?
  }

  /** Where a holder that found the flag set, or will find it set, stands. */
  ghost predicate OnItsWay(s: State) {
    AboutToStart(s) || (s.pending && (OwnerPc(s).Passing? || OwnerPc(s).Checking?))
  }

  lemma LaterLock(h: seq<Event>, e: Event, j: nat)
    requires j < |h|
    ensures LockedAfter(h + [e], j) <==> LockedAfter(h, j) || e.Locked?
  {
    var g := h + [e];
    assert g[|h|] == e;
    if LockedAfter(h, j) {
      var k: nat :| j < k < |h| && h[k].Locked?;
      assert g[k].Locked?;
    }
  }

  /** One step of a run keeps a served store served, and an unserved one unserved unless it takes the lock. */
  lemma StepOnItsWay(s: State, c: Caller)
    requires OwnerInside(s)
    ensures var t := Step(s, c);
            var e := t.history[|s.history|];
            && (e.Locked? ==> OnItsWay(t))
            && (OnItsWay(s) ==> OnItsWay(t) || e.Started?)
            && (!WillLook(OwnerPc(s)) && !e.Locked? ==> !WillLook(OwnerPc(t)) && !e.Started?)
  {
    StepOwnerPc(s, c);
  }

  /**
   * After a store, either the holder then had yet to look at the flag, or the lock was taken since, and
   * a pass has started or is on its way; or neither, and no pass has started and none is on its way.
   */
  lemma {:induction false} StoreIsSeen(moves: seq<Caller>, j: nat)
    requires j < |moves| && |Run(moves).history| == |moves| && Run(moves).history[j].Stored?
    ensures var s := Run(moves);
            if WillLook(OwnerPc(Run(moves[..j + 1]))) || LockedAfter(s.history, j)
            then StartedAfter(s.history, j) || OnItsWay(s)
            else !StartedAfter(s.history, j) && !WillLook(OwnerPc(s))
    decreases |moves|
  {
    hide WillLook;
    hide OnItsWay;
    var n := |moves| - 1;
    var s, t, e := LastStep(moves);
    if j == n {
      assert moves[..j + 1] == moves;
      StoreSets(s, moves[n]);
    } else {
      assert moves[..n][..j + 1] == moves[..j + 1];
      StoreIsSeen(moves[..n], j);
      StepOnItsWay(s, moves[n]);
      LaterEvent(s.history, e, j);
      LaterLock(s.history, e, j);
    }
  }

  lemma StoreSets(s: State, c: Caller)
    requires OwnerInside(s) && Step(s, c).history[|s.history|].Stored?
    ensures WillLook(OwnerPc(Step(s, c))) ==> OnItsWay(Step(s, c))
  {
  }

  /**
   * When every call has returned, a skipped trigger was served by a later pass exactly when, at its
   * store, the holder had yet to look at the flag, or the lock has been taken since.  A store that comes
   * after the holder looked waits for the next trigger.
   */
  lemma ServedExactlyWhen(moves: seq<Caller>, j: nat)
    requires j < |Run(moves).history| && Run(moves).history[j].Stored? && AtRest(Run(moves))
    ensures |Run(moves).history| == |moves|
    ensures var h := Run(moves).history;
            StartedAfter(h, j) <==> WillLook(OwnerPc(Run(moves[..j + 1]))) || LockedAfter(h, j)
  {
    HistoryLength(moves);
    StoreIsSeen(moves, j);
    OneInside(moves);
  }

  /** A trigger that takes the lock starts a pass before it returns. */
  lemma LockLeadsToPass(moves: seq<Caller>, j: nat)
    requires j < |Run(moves).history| && Run(moves).history[j].Locked?
    ensures StartedAfter(Run(moves).history, j) || AboutToStart(Run(moves))
  {
    HistoryLength(moves);
    HistoryPrefix(moves, j + 1);
    ServedOrAbout(moves, j);
    var s, t, e := LastStep(moves[..j + 1]);
    StepAbout(s, moves[j]);
    assert moves[..j + 1][j] == moves[j];
    assert t.history == Run(moves).history[..j + 1];
  }

  /** Two callers: the second is turned away during the first pass and stores its flag after the swap. */
  const LATE_STORE: seq<Caller> := [0, 0, 1, 0, 0, 1, 0]

  /** Everyone has returned, the flag is set, and no pass has started since it was stored. */
  lemma StoreCanComeTooLate()
    ensures var s := Run(LATE_STORE);
            && AtRest(s) && s.pending
            && |s.history| == 7 && s.history[5].Stored? && !StartedAfter(s.history, 5)
  {
    RunStep(LATE_STORE, 0, START);
    RunStep(LATE_STORE, 1, State(Some(0), false, map[0 := Holding], [Locked]));
    RunStep(LATE_STORE, 2, State(Some(0), false, map[0 := Passing], [Locked, Started]));
    LateStoreTail(State(Some(0), false, map[0 := Passing, 1 := Turned], [Locked, Started, Missed]));
  }

  lemma LateStoreTail(s: State)
    requires s == State(Some(0), false, map[0 := Passing, 1 := Turned], [Locked, Started, Missed])
    requires Run(LATE_STORE[..3]) == s
    ensures Run(LATE_STORE)
         == State(None, true, map[0 := Idle, 1 := Idle], s.history + [Ended, Unswapped, Stored, Unlocked])
  {
    hide Run;
    var h := s.history;
    RunStep(LATE_STORE, 3, s);
    RunStep(LATE_STORE, 4, State(Some(0), false, map[0 := Checking, 1 := Turned], h + [Ended]));
    LateStoreEnd(State(Some(0), false, map[0 := Leaving, 1 := Turned], h + [Ended, Unswapped]));
  }

  lemma LateStoreEnd(s: State)
    requires s.owner == Some(0) && !s.pending && s.pcs == map[0 := Leaving, 1 := Turned]
    requires Run(LATE_STORE[..5]) == s
    ensures Run(LATE_STORE) == State(None, true, map[0 := Idle, 1 := Idle], s.history + [Stored, Unlocked])
  {
    hide Run;
    RunStep(LATE_STORE, 5, s);
    RunStep(LATE_STORE, 6, State(Some(0), true, map[0 := Leaving, 1 := Idle], s.history + [Stored]));
    assert LATE_STORE[..7] == LATE_STORE;
  }

  lemma RunStep(moves: seq<Caller>, k: nat, s: State)
    requires k < |moves| && Run(moves[..k]) == s
    ensures Run(moves[..k + 1]) == Step(s, moves[k])
  {
    assert moves[..k + 1][..k] == moves[..k];
  }
}
