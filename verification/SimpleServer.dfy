/** TSimpleServer: accept loops, workers and Stop calls, interleaved one step at a time. */
module SimpleServer {

  /** What Accept gave the loop. */
  datatype Accepted = Client | NoClient | Failed

  datatype Acceptor =
    | Accepting                    // inside serverTransport.Accept
    | WantingLock(got: Accepted)
    | Locked(got: Accepted)        // holds mu, about to load closed
    | Open(got: Accepted)          // holds mu, has seen closed == 0
    | Added                        // holds mu, has called wg.Add(1), about to start the goroutine
    | Unlocking(exit: bool)        // holds mu, about to return from innerAccept
    | Exited                       // AcceptLoop has returned

  datatype Stopper =
    | Calling
    | Locked'                      // holds mu, about to load closed
    | Closing                      // holds mu, has seen closed == 0, about to store 1
    | Interrupting                 // holds mu, has stored 1
    | Waiting                      // holds mu, inside wg.Wait
    | Leaving                      // holds mu, about to return
    | Returned

  datatype Worker = Running | Finished

  datatype State = State(closed: bool, wg: int, acceptors: seq<Acceptor>, stoppers: seq<Stopper>, workers: seq<Worker>)

  predicate AcceptorHolds(a: Acceptor) { a.Locked? || a.Open? || a.Added? || a.Unlocking? }

  predicate StopperHolds(p: Stopper) { !p.Calling? && !p.Returned? }

  predicate LockFree(s: State) {
    && (forall i :: 0 <= i < |s.acceptors| ==> !AcceptorHolds(s.acceptors[i]))
    && (forall i :: 0 <= i < |s.stoppers| ==> !StopperHolds(s.stoppers[i]))
  }

  function Live(workers: seq<Worker>): (n: nat) {
    if workers == [] then 0
    else Live(workers[..|workers| - 1]) + if workers[|workers| - 1].Running? then 1 else 0
  }

  predicate Init(s: State) {
    && !s.closed && s.wg == 0 && s.workers == []
    && (forall i :: 0 <= i < |s.acceptors| ==> s.acceptors[i].Accepting?)
    && (forall i :: 0 <= i < |s.stoppers| ==> s.stoppers[i].Calling?)
  }

  predicate AcceptorStep(s: State, i: nat, t: State)
    requires i < |s.acceptors|
  {
    match s.acceptors[i]
    case Accepting => exists got :: t == s.(acceptors := s.acceptors[i := WantingLock(got)])
    case WantingLock(got) => LockFree(s) && t == s.(acceptors := s.acceptors[i := Acceptor.Locked(got)])
    case Exited => false
    case _ => t == LoopProceeds(s, i)
  }

  /** The next step of a loop that holds the lock. */
  function LoopProceeds(s: State, i: nat): State
    requires i < |s.acceptors| && AcceptorHolds(s.acceptors[i])
  {
    match s.acceptors[i]
    case Locked(got) => s.(acceptors := s.acceptors[i := if s.closed then Unlocking(true) else Open(got)])
    case Open(got) =>
      if got.Client? then s.(wg := s.wg + 1, acceptors := s.acceptors[i := Added])
      else s.(acceptors := s.acceptors[i := Unlocking(got.Failed?)])
    case Added => s.(workers := s.workers + [Running], acceptors := s.acceptors[i := Unlocking(false)])
    case Unlocking(exit) => s.(acceptors := s.acceptors[i := if exit then Exited else Accepting])
  }

  predicate StopperStep(s: State, i: nat, t: State)
    requires i < |s.stoppers|
  {
    match s.stoppers[i]
    case Calling => LockFree(s) && t == s.(stoppers := s.stoppers[i := Locked'])
    case Waiting => s.wg == 0 && t == StopProceeds(s, i)
    case Returned => false
    case _ => t == StopProceeds(s, i)
  }

  /** The next step of a Stop that holds the lock and need not wait. */
  function StopProceeds(s: State, i: nat): State
    requires i < |s.stoppers| && StopperHolds(s.stoppers[i])
  {
    match s.stoppers[i]
    case Locked' => s.(stoppers := s.stoppers[i := if s.closed then Leaving else Closing])
    case Closing => s.(closed := true, stoppers := s.stoppers[i := Interrupting])
    case Interrupting => s.(stoppers := s.stoppers[i := Waiting])
    case Waiting => s.(stoppers := s.stoppers[i := Leaving])
    case Leaving => s.(stoppers := s.stoppers[i := Returned])
  }

  /** processRequests ends, whenever it does, with the deferred wg.Done. */
  predicate WorkerStep(s: State, i: nat, t: State)
    requires i < |s.workers|
  {
    s.workers[i].Running? && t == s.(wg := s.wg - 1, workers := s.workers[i := Finished])
  }

  predicate Next(s: State, t: State) {
    || (exists i :: 0 <= i < |s.acceptors| && AcceptorStep(s, i, t))
    || (exists i :: 0 <= i < |s.stoppers| && StopperStep(s, i, t))
    || (exists i :: 0 <= i < |s.workers| && WorkerStep(s, i, t))
  }

  predicate IsRun(run: seq<State>) {
    run != [] && Init(run[0]) && forall i :: 0 <= i < |run| - 1 ==> Next(run[i], run[i + 1])
  }

  // ---------------------------------------------------------------- invariant

  predicate Exclusive(s: State) {
    && (forall i, j :: 0 <= i < j < |s.acceptors| ==> !(AcceptorHolds(s.acceptors[i]) && AcceptorHolds(s.acceptors[j])))
    && (forall i, j :: 0 <= i < j < |s.stoppers| ==> !(StopperHolds(s.stoppers[i]) && StopperHolds(s.stoppers[j])))
    && (forall i, j :: 0 <= i < |s.acceptors| && 0 <= j < |s.stoppers| ==>
        !(AcceptorHolds(s.acceptors[i]) && StopperHolds(s.stoppers[j])))
  }

  predicate Adding(s: State) { exists i :: 0 <= i < |s.acceptors| && s.acceptors[i].Added? }

  /** Stop is between its store and the end of its wait. */
  predicate Stopping(s: State) {
    exists i :: 0 <= i < |s.stoppers| && (s.stoppers[i].Interrupting? || s.stoppers[i].Waiting?)
  }

  /** No accept loop is past its check of closed. */
  predicate NoneOpen(s: State) {
    forall i :: 0 <= i < |s.acceptors| ==> !s.acceptors[i].Open? && !s.acceptors[i].Added?
  }

  /** wg is the number of live workers, and one more between wg.Add and the go statement. */
  predicate Counted(s: State) { s.wg == Live(s.workers) + if Adding(s) then 1 else 0 }

  predicate StoppersOk(s: State) {
    forall i :: 0 <= i < |s.stoppers| ==> StopperOk(s, s.stoppers[i])
  }

  predicate Inv(s: State) {
    && Exclusive(s)
    && Counted(s)
    && (s.closed ==> NoneOpen(s))
    && (s.closed && !Stopping(s) ==> s.wg == 0)
    && StoppersOk(s)
  }

  predicate StopperOk(s: State, p: Stopper) {
    && (p.Closing? ==> !s.closed)
    && (p.Interrupting? || p.Waiting? || p.Leaving? || p.Returned? ==> s.closed)
    && (p.Returned? ==> !Stopping(s))
  }

  lemma {:induction false} LiveUpdate(workers: seq<Worker>, i: nat)
    requires i < |workers| && workers[i].Running?
    ensures Live(workers[i := Finished]) == Live(workers) - 1
  {
    var last := |workers| - 1;
    if i < last {
      LiveUpdate(workers[..last], i);
      assert workers[i := Finished][..last] == workers[..last][i := Finished];
    } else {
      assert workers[i := Finished][..last] == workers[..last];
    }
  }

  lemma LiveAppend(workers: seq<Worker>)
    ensures Live(workers + [Running]) == Live(workers) + 1
  {
    assert (workers + [Running])[..|workers|] == workers;
  }

  lemma AcceptorKeepsCount(s: State, i: nat, t: State)
    requires Inv(s) && i < |s.acceptors| && AcceptorStep(s, i, t)
    ensures Counted(t)
  {
    hide Live;
    assert |t.acceptors| == |s.acceptors|;
    assert forall k :: 0 <= k < |s.acceptors| && k != i ==> t.acceptors[k] == s.acceptors[k];
    if s.acceptors[i].Added? {
      LiveAppend(s.workers);
      assert Adding(s) && !Adding(t);
    } else if t.acceptors[i].Added? {
      assert Adding(t) && !Adding(s);
    } else if Adding(s) {
      var k :| 0 <= k < |s.acceptors| && s.acceptors[k].Added?;
      assert t.acceptors[k].Added?;
    }
  }

  lemma AcceptorKeepsInv(s: State, i: nat, t: State)
    requires Inv(s) && i < |s.acceptors| && AcceptorStep(s, i, t)
    ensures Inv(t)
  {
    hide Live, Counted;
    AcceptorKeepsCount(s, i, t);
    assert |t.acceptors| == |s.acceptors|;
    assert forall k :: 0 <= k < |s.acceptors| && k != i ==> t.acceptors[k] == s.acceptors[k];
    assert t.stoppers == s.stoppers && t.closed == s.closed && Stopping(t) == Stopping(s);
  }

  lemma StopperKeepsInv(s: State, i: nat, t: State)
    requires Inv(s) && i < |s.stoppers| && StopperStep(s, i, t)
    ensures Inv(t)
  {
    hide Live;
    assert forall k :: 0 <= k < |s.stoppers| && k != i ==> t.stoppers[k] == s.stoppers[k];
    assert Adding(t) == Adding(s);
    if s.stoppers[i].Closing? || s.stoppers[i].Interrupting? {
      assert t.stoppers[i].Interrupting? || t.stoppers[i].Waiting?;
      assert Stopping(t);
    } else if t.closed && !Stopping(t) && Stopping(s) {
      var k :| 0 <= k < |s.stoppers| && (s.stoppers[k].Interrupting? || s.stoppers[k].Waiting?);
      assert k == i;
    }
  }

  lemma WorkerKeepsInv(s: State, i: nat, t: State)
    requires Inv(s) && i < |s.workers| && WorkerStep(s, i, t)
    ensures Inv(t)
  {
    LiveUpdate(s.workers, i);
  }

  lemma NextKeepsInv(s: State, t: State)
    requires Inv(s) && Next(s, t)
    ensures Inv(t)
  {
    hide Inv, AcceptorStep, StopperStep, WorkerStep;
    if i :| 0 <= i < |s.acceptors| && AcceptorStep(s, i, t) {
      AcceptorKeepsInv(s, i, t);
    } else if i :| 0 <= i < |s.stoppers| && StopperStep(s, i, t) {
      StopperKeepsInv(s, i, t);
    } else {
      var i :| 0 <= i < |s.workers| && WorkerStep(s, i, t);
      WorkerKeepsInv(s, i, t);
    }
  }

  // ---------------------------------------------------------------- every interleaving

  lemma {:induction false} RunKeepsInv(run: seq<State>, i: nat)
    requires IsRun(run) && i < |run|
    ensures Inv(run[i])
  {
    if i > 0 {
      RunKeepsInv(run, i - 1);
      NextKeepsInv(run[i - 1], run[i]);
    }
  }

  /** Outside the two instructions that add a worker, the wait counter is the number of live workers. */
  lemma WaitCountsWorkers(run: seq<State>, i: nat)
    requires IsRun(run) && i < |run|
    ensures run[i].wg == Live(run[i].workers) + if Adding(run[i]) then 1 else 0
    ensures LockFree(run[i]) ==> run[i].wg == Live(run[i].workers)
  {
    hide Next, Init, Live;
    RunKeepsInv(run, i);
  }

  lemma StepAddsNoWorker(s: State, t: State)
    requires Inv(s) && Next(s, t) && s.closed
    ensures t.closed && |t.workers| == |s.workers|
    ensures forall i :: 0 <= i < |s.workers| && s.workers[i].Finished? ==> t.workers[i].Finished?
  {
    hide Live;
  }

  /** Once closed is set no worker is added, and one that has finished stays finished. */
  lemma {:induction false} NoWorkerAfterClosed(run: seq<State>, i: nat, j: nat)
    requires IsRun(run) && i <= j < |run| && run[i].closed
    ensures run[j].closed && |run[j].workers| == |run[i].workers|
    ensures forall k :: 0 <= k < |run[i].workers| && run[i].workers[k].Finished? ==> run[j].workers[k].Finished?
    decreases j - i
  {
    hide Inv, Next, Init;
    if i < j {
      NoWorkerAfterClosed(run, i, j - 1);
      RunKeepsInv(run, j - 1);
      StepAddsNoWorker(run[j - 1], run[j]);
    }
  }

  lemma {:induction false} NoneLive(workers: seq<Worker>)
    requires Live(workers) == 0
    ensures forall k :: 0 <= k < |workers| ==> workers[k].Finished?
  {
    if workers != [] { NoneLive(workers[..|workers| - 1]); }
  }

  lemma ReturnedMeansNone(s: State, stopper: nat)
    requires Inv(s) && stopper < |s.stoppers| && s.stoppers[stopper].Returned?
    ensures s.closed && Live(s.workers) == 0
  {
    hide Live;
  }

  /** Stop is a barrier: when any call of Stop has returned there is no live worker, then or ever
      after, whichever of several calls it was. */
  lemma StopIsABarrier(run: seq<State>, i: nat, j: nat, stopper: nat)
    requires IsRun(run) && i <= j < |run|
    requires stopper < |run[i].stoppers| && run[i].stoppers[stopper].Returned?
    ensures forall k :: 0 <= k < |run[j].workers| ==> run[j].workers[k].Finished?
  {
    hide Inv, Next, Init, Live;
    RunKeepsInv(run, i);
    ReturnedMeansNone(run[i], stopper);
    NoneLive(run[i].workers);
    NoWorkerAfterClosed(run, i, j);
  }

  // ---------------------------------------------------------------- every client is served

  /** Between these two states an accept loop that has a client saw closed == 0. */
  predicate Admits(s: State, t: State) {
    !s.closed && |t.acceptors| == |s.acceptors|
    && exists i :: 0 <= i < |s.acceptors|
        && s.acceptors[i] == Acceptor.Locked(Client) && t.acceptors[i] != s.acceptors[i]
  }

  /** How many clients were admitted in the first n steps of a run. */
  function Admitted(run: seq<State>, n: nat): nat
    requires n < |run|
  {
    if n == 0 then 0 else Admitted(run, n - 1) + if Admits(run[n - 1], run[n]) then 1 else 0
  }

  /** An accept loop is between its check of closed and the go statement. */
  predicate Starting(s: State) {
    exists i :: 0 <= i < |s.acceptors| && (s.acceptors[i] == Open(Client) || s.acceptors[i].Added?)
  }

  function Pending(s: State): nat { if Starting(s) then 1 else 0 }

  lemma AcceptorStepServes(s: State, i: nat, t: State)
    requires Inv(s) && i < |s.acceptors| && AcceptorStep(s, i, t)
    ensures |t.workers| + Pending(t) == |s.workers| + Pending(s) + if Admits(s, t) then 1 else 0
  {
    hide Counted, StoppersOk, NoneOpen, Stopping;
    var a, b := s.acceptors[i], t.acceptors[i];
    assert |t.acceptors| == |s.acceptors|;
    assert forall k :: 0 <= k < |s.acceptors| && k != i ==> t.acceptors[k] == s.acceptors[k];
    assert AcceptorHolds(a) ==> forall k :: 0 <= k < |s.acceptors| && k != i ==> !AcceptorHolds(s.acceptors[k]);
    if b == Open(Client) || b.Added? {
      assert Starting(t);
    } else if a == Open(Client) || a.Added? {
      assert Starting(s) && !Starting(t);
    } else if Starting(s) {
      var k :| 0 <= k < |s.acceptors| && (s.acceptors[k] == Open(Client) || s.acceptors[k].Added?);
      assert t.acceptors[k] == s.acceptors[k];
    }
    assert Admits(s, t) <==> !s.closed && a == Acceptor.Locked(Client);
  }

  lemma StepServes(s: State, t: State)
    requires Inv(s) && Next(s, t)
    ensures |t.workers| + Pending(t) == |s.workers| + Pending(s) + if Admits(s, t) then 1 else 0
  {
    hide Inv, AcceptorStep;
    if i :| 0 <= i < |s.acceptors| && AcceptorStep(s, i, t) {
      AcceptorStepServes(s, i, t);
    } else {
      assert t.acceptors == s.acceptors && |t.workers| == |s.workers|;
    }
  }

  /** No client is dropped and none is served twice: in every interleaving the workers ever started
      are the clients whose accept loop saw closed == 0, but for one about to be started. */
  lemma {:induction false} EveryClientServed(run: seq<State>, n: nat)
    requires IsRun(run) && n < |run|
    ensures |run[n].workers| + Pending(run[n]) == Admitted(run, n)
    ensures LockFree(run[n]) ==> |run[n].workers| == Admitted(run, n)
  {
    hide Inv, Next;
    if n > 0 {
      EveryClientServed(run, n - 1);
      RunKeepsInv(run, n - 1);
      StepServes(run[n - 1], run[n]);
    }
  }

  // ---------------------------------------------------------------- when an accept loop ends

  /** Between these two states loop i saw closed, or saw that Accept had failed. */
  predicate EndsLoop(s: State, t: State, i: nat) {
    && i < |s.acceptors| == |t.acceptors|
    && s.acceptors[i].Locked? && t.acceptors[i] != s.acceptors[i] && (s.closed || s.acceptors[i].got.Failed?)
  }

  /** The loop will not accept again. */
  predicate Ending(a: Acceptor) { a == Open(Failed) || a == Unlocking(true) || a.Exited? }

  lemma AcceptorStepEnds(s: State, j: nat, t: State, i: nat)
    requires j < |s.acceptors| && AcceptorStep(s, j, t) && i < |s.acceptors|
    ensures |t.acceptors| == |s.acceptors|
    ensures Ending(t.acceptors[i]) <==> Ending(s.acceptors[i]) || EndsLoop(s, t, i)
  {
  }

  lemma StepEnds(s: State, t: State, i: nat)
    requires Next(s, t) && i < |s.acceptors|
    ensures |t.acceptors| == |s.acceptors|
    ensures Ending(t.acceptors[i]) <==> Ending(s.acceptors[i]) || EndsLoop(s, t, i)
  {
    hide AcceptorStep, Ending;
    if j :| 0 <= j < |s.acceptors| && AcceptorStep(s, j, t) {
      AcceptorStepEnds(s, j, t, i);
    } else {
      assert t.acceptors == s.acceptors;
    }
  }

  /** In every interleaving a loop is on its way out or has returned if and only if it once saw
      closed or a failure of Accept; any other goes on accepting. */
  lemma {:induction false} EndsIff(run: seq<State>, n: nat, i: nat)
    requires IsRun(run) && n < |run| && i < |run[0].acceptors|
    ensures |run[n].acceptors| == |run[0].acceptors|
    ensures Ending(run[n].acceptors[i]) <==> exists k :: 0 <= k < n && EndsLoop(run[k], run[k + 1], i)
  {
    hide Next, EndsLoop;
    if n == 0 {
      assert run[0].acceptors[i].Accepting?;
    } else {
      EndsIff(run, n - 1, i);
      assert Next(run[n - 1], run[n]);
      StepEnds(run[n - 1], run[n], i);
    }
  }

  // ---------------------------------------------------------------- no deadlock

  /** Steps that a loop may still take before it lets go of the lock. */
  function StepsToUnlock(a: Acceptor): nat {
    if a.Locked? then 4 else if a.Open? then 3 else if a.Added? then 2 else if a.Unlocking? then 1 else 0
  }

  /** Steps that a call of Stop may still take. */
  function StepsToReturn(p: Stopper): nat {
    match p
    case Calling => 6
    case Locked' => 5
    case Closing => 4
    case Interrupting => 3
    case Waiting => 2
    case Leaving => 1
    case Returned => 0
  }

  /** From s to t a worker finishes, or a loop or a Stop that holds the lock comes closer to its release. */
  predicate Closer(s: State, t: State) {
    && |t.acceptors| == |s.acceptors| && |t.stoppers| == |s.stoppers|
    && (|| Live(t.workers) < Live(s.workers)
        || (exists i :: 0 <= i < |s.acceptors| && LoopCloser(s.acceptors[i], t.acceptors[i]))
        || (exists i :: 0 <= i < |s.stoppers| && StopCloser(s.stoppers[i], t.stoppers[i])))
  }

  predicate LoopCloser(a: Acceptor, b: Acceptor) { AcceptorHolds(a) && StepsToUnlock(b) < StepsToUnlock(a) }

  predicate StopCloser(a: Stopper, b: Stopper) { StopperHolds(a) && StepsToReturn(b) < StepsToReturn(a) }

  lemma {:induction false} SomeLive(workers: seq<Worker>) returns (i: nat)
    requires Live(workers) > 0
    ensures i < |workers| && workers[i].Running?
  {
    if workers[|workers| - 1].Running? { i := |workers| - 1; } else { i := SomeLive(workers[..|workers| - 1]); }
  }

  /** What holds the lock can go on, unless it is Stop waiting for workers, and then one of them can. */
  lemma HolderMoves(s: State) returns (t: State)
    requires Inv(s) && !LockFree(s)
    ensures Next(s, t) && Closer(s, t)
  {
    hide Live;
    if i :| 0 <= i < |s.acceptors| && AcceptorHolds(s.acceptors[i]) {
      t := LoopProceeds(s, i);
      assert AcceptorStep(s, i, t) && LoopCloser(s.acceptors[i], t.acceptors[i]);
    } else {
      var i :| 0 <= i < |s.stoppers| && StopperHolds(s.stoppers[i]);
      if s.stoppers[i].Waiting? && s.wg != 0 {
        var w := SomeLive(s.workers);
        t := s.(wg := s.wg - 1, workers := s.workers[w := Finished]);
        assert WorkerStep(s, w, t);
        LiveUpdate(s.workers, w);
      } else {
        t := StopProceeds(s, i);
        assert StopperStep(s, i, t) && StopCloser(s.stoppers[i], t.stoppers[i]);
      }
    }
  }

  /** Stop is never stuck: while a call of it has not returned, it can go on itself, or what holds
      the lock can come closer to letting it go. */
  lemma StopNotStuck(run: seq<State>, n: nat, i: nat) returns (t: State)
    requires IsRun(run) && n < |run| && i < |run[n].stoppers| && !run[n].stoppers[i].Returned?
    ensures Next(run[n], t)
    ensures Closer(run[n], t) || (|t.stoppers| == |run[n].stoppers| && t.stoppers[i] != run[n].stoppers[i])
  {
    hide Inv, Closer, AcceptorStep;
    RunKeepsInv(run, n);
    if LockFree(run[n]) {
      t := run[n].(stoppers := run[n].stoppers[i := Locked']);
      assert StopperStep(run[n], i, t);
    } else {
      t := HolderMoves(run[n]);
    }
  }

  /** Nor is an accept loop that has something to hand over. */
  lemma LoopNotStuck(run: seq<State>, n: nat, i: nat) returns (t: State)
    requires IsRun(run) && n < |run| && i < |run[n].acceptors| && run[n].acceptors[i].WantingLock?
    ensures Next(run[n], t)
    ensures Closer(run[n], t) ||
      (|t.acceptors| == |run[n].acceptors| && t.acceptors[i] == Acceptor.Locked(run[n].acceptors[i].got))
  {
    hide Inv, Closer;
    RunKeepsInv(run, n);
    if LockFree(run[n]) {
      t := run[n].(acceptors := run[n].acceptors[i := Acceptor.Locked(run[n].acceptors[i].got)]);
      assert AcceptorStep(run[n], i, t);
    } else {
      t := HolderMoves(run[n]);
    }
  }
}
