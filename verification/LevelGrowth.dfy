/** StableVector under concurrent callers: each thread runs operator[] one memory access at a time,
    reading the published level without the lock. */
module LevelGrowth {
  import opened Words
  import opened StableVector

  /** Where a thread is inside operator[], called with index n. */
  datatype Pc =
    | Idle
    | Testing(n: Index)                 // which(): about to compare vno with vectLvl_
    | Locking(n: Index)                 // expand(): about to take the mutex
    | Looping(n: Index)                 // holds the mutex, about to evaluate the loop condition
    | Allocating(n: Index)              // holds the mutex, about to allocate the next level
    | Pushing(n: Index, length: nat)    // holds the mutex and a new level, about to push it
    | Publishing(n: Index)              // holds the mutex, has pushed, about to add 1 to vectLvl_
    | Unlocking(n: Index)               // holds the mutex, about to release it
    | Indexing(n: Index)                // about to index vects_[vno]

  /** vects holds the length of each allocated level. */
  datatype State = State(vects: seq<nat>, vectLvl: nat, threads: seq<Pc>)

  predicate HoldsMutex(pc: Pc) {
    pc.Looping? || pc.Allocating? || pc.Pushing? || pc.Publishing? || pc.Unlocking?
  }

  predicate MutexFree(s: State) {
    forall t :: 0 <= t < |s.threads| ==> !HoldsMutex(s.threads[t])
  }

  predicate Init(s: State) {
    && s.vects == [INITIAL_VECTOR_SIZE] && s.vectLvl == 0
    && forall t :: 0 <= t < |s.threads| ==> s.threads[t].Idle?
  }

  /** Thread t calls operator[] with index n. */
  predicate Call(s: State, t: nat, n: Index, u: State)
    requires t < |s.threads|
  {
    && s.threads[t].Idle?
    && u == s.(threads := s.threads[t := if n < INITIAL_VECTOR_SIZE then Indexing(n) else Testing(n)])
  }

  /** The next step of thread t inside a call. */
  function AfterStep(s: State, t: nat): State
    requires t < |s.threads| && !s.threads[t].Idle?
  {
    match s.threads[t]
    case Testing(n) => s.(threads := s.threads[t := if Which(n).level > s.vectLvl then Locking(n) else Indexing(n)])
    case Locking(n) => s.(threads := s.threads[t := Looping(n)])
    case Looping(n) =>
      s.(threads := s.threads[t := if Which(n).level > s.vectLvl then Allocating(n) else Unlocking(n)])
    case Allocating(n) => s.(threads := s.threads[t := Pushing(n, Pow2(s.vectLvl + INITIAL_SIZE_POW_OF_2))])
    case Pushing(n, length) => s.(vects := s.vects + [length], threads := s.threads[t := Publishing(n)])
    case Publishing(n) => s.(vectLvl := s.vectLvl + 1, threads := s.threads[t := Looping(n)])
    case Unlocking(n) => s.(threads := s.threads[t := Indexing(n)])
    case Indexing(_) => s.(threads := s.threads[t := Idle])
  }

  /** Thread t takes one step. */
  predicate ThreadStep(s: State, t: nat, u: State)
    requires t < |s.threads|
  {
    if s.threads[t].Idle? then exists n :: Call(s, t, n, u)
    else (s.threads[t].Locking? ==> MutexFree(s)) && u == AfterStep(s, t)
  }

  predicate Next(s: State, u: State) {
    exists t :: 0 <= t < |s.threads| && ThreadStep(s, t, u)
  }

  // ---------------------------------------------------------------- invariant

  predicate PcOk(s: State, pc: Pc) {
    && (pc.Indexing? || pc.Unlocking? ==> Which(pc.n).level <= s.vectLvl)
    && (pc.Allocating? || pc.Pushing? || pc.Publishing? ==> Which(pc.n).level > s.vectLvl)
    && (pc.Pushing? ==> pc.length == LevelSize(s.vectLvl + 1))
    && (if pc.Publishing? then |s.vects| == s.vectLvl + 2 else HoldsMutex(pc) ==> |s.vects| == s.vectLvl + 1)
  }

  predicate Levels(s: State) {
    && s.vectLvl + 1 <= |s.vects| <= s.vectLvl + 2 && s.vectLvl <= 21
    && (forall l :: 0 <= l < |s.vects| ==> s.vects[l] == LevelSize(l))
    && (MutexFree(s) ==> |s.vects| == s.vectLvl + 1)
  }

  predicate Exclusive(s: State) {
    forall t, u :: 0 <= t < u < |s.threads| ==> !(HoldsMutex(s.threads[t]) && HoldsMutex(s.threads[u]))
  }

  predicate Inv(s: State) {
    && Levels(s) && Exclusive(s)
    && forall t :: 0 <= t < |s.threads| ==> PcOk(s, s.threads[t])
  }

  lemma NextKeepsInv(s: State, u: State)
    requires Inv(s) && Next(s, u)
    ensures Inv(u)
  {
    hide ThreadStep, PcOk, Levels, Exclusive;
    var t :| 0 <= t < |s.threads| && ThreadStep(s, t, u);
    StepKeepsExclusive(s, t, u);
    StepKeepsLevels(s, t, u);
    forall k | 0 <= k < |u.threads|
      ensures PcOk(u, u.threads[k])
    {
      if k == t { StepLeavesPcOk(s, t, u); } else { OtherPcStaysOk(s, t, u, k); }
    }
  }

  lemma StepKeepsExclusive(s: State, t: nat, u: State)
    requires Inv(s) && t < |s.threads| && ThreadStep(s, t, u)
    ensures Exclusive(u) && |u.threads| == |s.threads|
    ensures forall k :: 0 <= k < |u.threads| && k != t ==> u.threads[k] == s.threads[k]
  {
    hide Pow2, Which, PcOk, Levels;
    if HoldsMutex(s.threads[t]) { OthersFree(s, t); }
  }

  lemma StepKeepsLevels(s: State, t: nat, u: State)
    requires Inv(s) && t < |s.threads| && ThreadStep(s, t, u)
    ensures Levels(u)
  {
    hide Pow2, Which, Exclusive;
    assert PcOk(s, s.threads[t]);
    if !s.threads[t].Idle? { WhichInRange(s.threads[t].n); }
    if MutexFree(u) && !MutexFree(s) { assert s.threads[t].Unlocking? by { OnlyUnlockingFrees(s, t, u); } }
    assert HoldsMutex(u.threads[t]) ==> !MutexFree(u);
  }

  lemma OnlyUnlockingFrees(s: State, t: nat, u: State)
    requires Inv(s) && t < |s.threads| && ThreadStep(s, t, u) && MutexFree(u) && !MutexFree(s)
    ensures s.threads[t].Unlocking?
  {
    hide Pow2, Which, PcOk, Levels;
    assert |u.threads| == |s.threads|;
    assert forall k :: 0 <= k < |u.threads| && k != t ==> u.threads[k] == s.threads[k];
    var h :| 0 <= h < |s.threads| && HoldsMutex(s.threads[h]);
    assert h == t && !HoldsMutex(u.threads[t]);
  }

  lemma StepLeavesPcOk(s: State, t: nat, u: State)
    requires Inv(s) && t < |s.threads| && ThreadStep(s, t, u)
    ensures PcOk(u, u.threads[t])
  {
    hide Pow2, Which, Exclusive;
    assert PcOk(s, s.threads[t]);
    if s.threads[t].Idle? {
      var n :| Call(s, t, n, u);
      FirstLevel(n);
    }
  }

  lemma OtherPcStaysOk(s: State, t: nat, u: State, k: nat)
    requires Inv(s) && t < |s.threads| && ThreadStep(s, t, u) && k < |s.threads| && k != t
    requires |u.threads| == |s.threads| && u.threads[k] == s.threads[k]
    ensures PcOk(u, u.threads[k])
  {
    hide Pow2, Which, Levels;
    assert PcOk(s, s.threads[k]);
    if HoldsMutex(s.threads[t]) { OthersFree(s, t); }
  }

  lemma FirstLevel(n: Index)
    ensures n < INITIAL_VECTOR_SIZE ==> Which(n).level == 0
  {}

  lemma OthersFree(s: State, t: nat)
    requires Exclusive(s) && t < |s.threads| && HoldsMutex(s.threads[t])
    ensures forall u :: 0 <= u < |s.threads| && u != t ==> !HoldsMutex(s.threads[u])
  {}

  // ---------------------------------------------------------------- every interleaving

  predicate IsRun(run: seq<State>) {
    run != [] && Init(run[0]) && forall i :: 0 <= i < |run| - 1 ==> Next(run[i], run[i + 1])
  }

  lemma {:induction false} RunKeepsInv(run: seq<State>, i: nat)
    requires IsRun(run) && i < |run|
    ensures Inv(run[i])
  {
    if i > 0 {
      RunKeepsInv(run, i - 1);
      NextKeepsInv(run[i - 1], run[i]);
    }
  }

  /** In every reachable state the published level is allocated, every level has its doubling
      length, and a thread about to index finds its cell inside an allocated level. */
  lemma NeverOutOfRange(run: seq<State>, i: nat, t: nat)
    requires IsRun(run) && i < |run| && t < |run[i].threads|
    ensures var s := run[i];
      && s.vectLvl < |s.vects| <= MAX_LEVELS
      && (forall l :: 0 <= l < |s.vects| ==> s.vects[l] == LevelSize(l))
      && (s.threads[t].Indexing? ==>
        var c := Which(s.threads[t].n); c.level < |s.vects| && c.offset < s.vects[c.level])
  {
    hide Which, Pow2, ThreadStep;
    RunKeepsInv(run, i);
    if run[i].threads[t].Indexing? { WhichInRange(run[i].threads[t].n); }
  }

  /** Levels are allocated once and never replaced: what is allocated at one moment is a prefix of
      what is allocated later, and the published level only rises. */
  lemma {:induction false} AllocatedOnce(run: seq<State>, i: nat, j: nat)
    requires IsRun(run) && i <= j < |run|
    ensures run[i].vects <= run[j].vects && run[i].vectLvl <= run[j].vectLvl
    decreases j - i
  {
    if i < j {
      hide Which, Pow2;
      AllocatedOnce(run, i, j - 1);
      assert Next(run[j - 1], run[j]);
    }
  }

  // ---------------------------------------------------------------- every call gets there

  /** A step changes the index of no call under way; a call ends only where it has indexed. */
  lemma CallsKeepIndex(run: seq<State>, i: nat, t: nat)
    requires IsRun(run) && i + 1 < |run| && t < |run[i].threads| && !run[i].threads[t].Idle?
    ensures |run[i + 1].threads| == |run[i].threads|
    ensures var a, b := run[i].threads[t], run[i + 1].threads[t];
      if b.Idle? then a.Indexing? else b.n == a.n
  {
    hide Which, Pow2;
    assert Next(run[i], run[i + 1]);
  }

  /** How far a call still is from its index, given the published level. */
  function Distance(vectLvl: nat, pc: Pc): nat {
    match pc
    case Idle => 0
    case Indexing(_) => 1
    case Unlocking(_) => 2
    case Looping(n) => 3 + 4 * Missing(vectLvl, n)
    case Publishing(n) => 4 * Missing(vectLvl, n)
    case Pushing(n, _) => 1 + 4 * Missing(vectLvl, n)
    case Allocating(n) => 2 + 4 * Missing(vectLvl, n)
    case Locking(n) => 4 + 4 * Missing(vectLvl, n)
    case Testing(n) => 5 + 4 * Missing(vectLvl, n)
  }

  function Missing(vectLvl: nat, n: Index): nat {
    if Which(n).level > vectLvl then Which(n).level - vectLvl else 0
  }

  /** Growth never stops for good: in every interleaving, while some call is under way some thread
      can take a step that brings its call closer to its element. */
  lemma SomeCallMoves(run: seq<State>, i: nat, t: nat) returns (k: nat, u: State)
    requires IsRun(run) && i < |run| && t < |run[i].threads| && !run[i].threads[t].Idle?
    ensures k < |run[i].threads| && Next(run[i], u) && |u.threads| == |run[i].threads|
    ensures Distance(u.vectLvl, u.threads[k]) < Distance(run[i].vectLvl, run[i].threads[k])
  {
    hide Which, Pow2, Levels, Exclusive;
    var s := run[i];
    RunKeepsInv(run, i);
    if j :| 0 <= j < |s.threads| && HoldsMutex(s.threads[j]) {
      k := j;
    } else {
      k := t;
    }
    assert PcOk(s, s.threads[k]);
    u := AfterStep(s, k);
    assert ThreadStep(s, k, u);
  }

  /** The published level only rises, so a step of another thread takes no call further away. */
  lemma NeverFurther(vectLvl: nat, vectLvl': nat, pc: Pc)
    requires vectLvl <= vectLvl'
    ensures Distance(vectLvl', pc) <= Distance(vectLvl, pc)
  {
    hide Which;
  }
}
