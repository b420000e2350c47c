/** FacebookBase's counters: a map under a read/write lock whose entries have read/write locks of
    their own, used by any number of threads one step at a time. */
module Counters {
  import opened Words

  type Key = string

  datatype Op =
    | Increment(key: Key, amount: I64)
    | Set(key: Key, value: I64)
    | Get(key: Key)

  // ---------------------------------------------------------------- the sequential counters

  type Store = map<Key, I64>

  /** One operation at a time. int64 addition is taken to wrap. */
  function Result(m: Store, op: Op): I64 {
    match op
    case Increment(k, amount) => if k in m then ToI64(m[k] + amount) else amount
    case Set(_, value) => value
    case Get(k) => if k in m then m[k] else 0
  }

  function Effect(m: Store, op: Op): Store {
    if op.Get? then m else m[op.key := Result(m, op)]
  }

  datatype Entry = Entry(id: nat, op: Op, result: I64)

  /** The store after the logged operations, one after the other. */
  function Replay(log: seq<Entry>): Store {
    if log == [] then map[] else Effect(Replay(log[..|log| - 1]), log[|log| - 1].op)
  }

  /** Every logged result is the one that the operation gives at its place in the log. */
  predicate Legal(log: seq<Entry>) {
    log == [] || (
      && Legal(log[..|log| - 1])
      && log[|log| - 1].result == Result(Replay(log[..|log| - 1]), log[|log| - 1].op))
  }

  // ---------------------------------------------------------------- threads

  /** Where a thread is inside an operation; wide says that it holds the map's lock for writing. */
  datatype Pc =
    | Idle
    | AtMap(id: nat, op: Op)                                  // about to take the map's lock for reading
    | Finding(id: nat, op: Op)                                // holds it, about to look the key up
    | Missed(id: nat, op: Op)                                 // holds it, about to release it
    | AtMapWrite(id: nat, op: Op)                             // about to take the map's lock for writing
    | Rechecking(id: nat, op: Op)                             // holds it for writing
    | AtElem(id: nat, op: Op, wide: bool)                     // has found the entry, about to take its lock
    | InElem(id: nat, op: Op, wide: bool)                     // holds the entry's lock
    | Storing(id: nat, op: Op, wide: bool, count: I64)        // has read the value, about to store the sum
    | LeavingElem(id: nat, op: Op, wide: bool, result: I64)   // about to release the entry's lock
    | LeavingMap(id: nat, op: Op, wide: bool, result: I64)    // about to release the map's lock
    | Returning(id: nat, op: Op, result: I64)                 // holds nothing

  /** counters and threads are the program's; log, done and nextId record the history: every
      operation is logged at the step at which it takes effect, and done when it returns. */
  datatype State = State(
    counters: Store, threads: seq<Pc>,
    log: seq<Entry>, done: seq<Entry>, nextId: nat)
  {
    function To(t: nat, pc: Pc): State
      requires t < |threads|
    {
      this.(threads := threads[t := pc])
    }

    function Log(id: nat, op: Op, result: I64): State {
      this.(log := log + [Entry(id, op, result)])
    }
  }

  predicate HoldsMap(pc: Pc) {
    pc.Finding? || pc.Missed? || pc.Rechecking? || HoldsEntryOrSeeks(pc) || pc.LeavingMap?
  }

  predicate HoldsEntryOrSeeks(pc: Pc) { pc.AtElem? || HoldsElem(pc) }

  predicate HoldsElem(pc: Pc) { pc.InElem? || pc.Storing? || pc.LeavingElem? }

  predicate HoldsMapWrite(pc: Pc) {
    pc.Rechecking? || ((HoldsEntryOrSeeks(pc) || pc.LeavingMap?) && pc.wide)
  }

  /** A lock is there to be taken when no other thread holds it in a way that excludes it. */
  predicate MapReadable(s: State) {
    forall u :: 0 <= u < |s.threads| ==> !HoldsMapWrite(s.threads[u])
  }

  predicate MapWritable(s: State) {
    forall u :: 0 <= u < |s.threads| ==> !HoldsMap(s.threads[u])
  }

  /** getCounter takes an entry's lock for reading, the others for writing. */
  predicate ElemFree(s: State, op: Op) {
    forall u :: 0 <= u < |s.threads| ==>
      !(HoldsElem(s.threads[u]) && s.threads[u].op.key == op.key && !(op.Get? && s.threads[u].op.Get?))
  }

  predicate Init(s: State) {
    && s.counters == map[] && s.log == [] && s.done == [] && s.nextId == 0
    && forall t :: 0 <= t < |s.threads| ==> s.threads[t].Idle?
  }

  /** Thread t calls op. */
  predicate Calls(s: State, t: nat, op: Op, u: State)
    requires t < |s.threads|
  {
    s.threads[t].Idle? && u == s.To(t, AtMap(s.nextId, op)).(nextId := s.nextId + 1)
  }

  /** Nothing holds thread t up inside its operation. */
  predicate Enabled(s: State, t: nat)
    requires t < |s.threads|
  {
    match s.threads[t]
    case Idle => false
    case AtMap(_, _) => MapReadable(s)
    case AtMapWrite(_, _) => MapWritable(s)
    case Rechecking(_, op) => !op.Get?
    case AtElem(_, op, _) => ElemFree(s, op)
    case InElem(_, op, _) => op.key in s.counters
    case _ => true
  }

  /** Thread t, inside an operation, takes one step. */
  predicate ThreadStep(s: State, t: nat, u: State)
    requires t < |s.threads|
  {
    Enabled(s, t) && u == AfterStep(s, t)
  }

  function AfterStep(s: State, t: nat): State
    requires t < |s.threads| && Enabled(s, t)
  {
    match s.threads[t]
    case AtMap(id, op) => s.To(t, Finding(id, op))
    case Finding(id, op) =>
      if op.key in s.counters then s.To(t, AtElem(id, op, false))
      else if op.Get? then s.Log(id, op, 0).To(t, LeavingMap(id, op, false, 0))
      else s.To(t, Missed(id, op))
    case Missed(id, op) => s.To(t, AtMapWrite(id, op))
    case AtMapWrite(id, op) => s.To(t, Rechecking(id, op))
    case Rechecking(id, op) =>
      if op.Increment? && op.key in s.counters then s.To(t, AtElem(id, op, true))
      else
        var value := if op.Increment? then op.amount else op.value;
        s.(counters := s.counters[op.key := value]).Log(id, op, value).To(t, LeavingMap(id, op, true, value))
    case AtElem(id, op, wide) => s.To(t, InElem(id, op, wide))
    case InElem(id, op, wide) =>
      (match op
        case Increment(k, amount) => s.To(t, Storing(id, op, wide, ToI64(s.counters[k] + amount)))
        case Set(k, value) =>
          s.(counters := s.counters[k := value]).Log(id, op, value).To(t, LeavingElem(id, op, wide, value))
        case Get(k) => s.Log(id, op, s.counters[k]).To(t, LeavingElem(id, op, wide, s.counters[k])))
    case Storing(id, op, wide, count) =>
      s.(counters := s.counters[op.key := count]).Log(id, op, count).To(t, LeavingElem(id, op, wide, count))
    case LeavingElem(id, op, wide, result) => s.To(t, LeavingMap(id, op, wide, result))
    case LeavingMap(id, op, wide, result) => s.To(t, Returning(id, op, result))
    case Returning(id, op, result) => s.To(t, Idle).(done := s.done + [Entry(id, op, result)])
  }

  ghost predicate StepOf(s: State, t: nat, u: State)
    requires t < |s.threads|
  {
    ThreadStep(s, t, u) || exists op :: Calls(s, t, op, u)
  }

  ghost predicate Next(s: State, u: State) {
    exists t :: 0 <= t < |s.threads| && StepOf(s, t, u)
  }

  ghost predicate IsRun(run: seq<State>) {
    run != [] && Init(run[0]) && forall i :: 0 <= i < |run| - 1 ==> Next(run[i], run[i + 1])
  }

  // ---------------------------------------------------------------- invariant

  /** The locks do what they are for. */
  predicate Exclusive(s: State) {
    forall t, u :: 0 <= t < |s.threads| && 0 <= u < |s.threads| && t != u ==>
      Compatible(s.threads[t], s.threads[u])
  }

  predicate Compatible(a: Pc, b: Pc) {
    && !(HoldsMapWrite(a) && HoldsMap(b))
    && !(HoldsElem(a) && HoldsElem(b) && a.op.key == b.op.key && !(a.op.Get? && b.op.Get?))
  }

  /** What a thread knows about the counters. */
  predicate PcOk(m: Store, pc: Pc) {
    && (HoldsEntryOrSeeks(pc) ==> pc.op.key in m)
    && (pc.Storing? ==> pc.op.Increment? && pc.count == ToI64(m[pc.op.key] + pc.op.amount))
    && (pc.Missed? || pc.AtMapWrite? || pc.Rechecking? ==> !pc.op.Get?)
  }

  predicate Effected(pc: Pc) { pc.LeavingElem? || pc.LeavingMap? || pc.Returning? }

  predicate Logged(log: seq<Entry>, id: nat) {
    exists i :: 0 <= i < |log| && log[i].id == id
  }

  /** A thread's operation is in the log, with its result, once it has taken effect and not before. */
  predicate PcLogged(s: State, pc: Pc) {
    pc.Idle? || (
      && pc.id < s.nextId
      && if Effected(pc) then Entry(pc.id, pc.op, pc.result) in s.log else !Logged(s.log, pc.id))
  }

  predicate DistinctIds(s: State) {
    && (forall i :: 0 <= i < |s.log| ==> s.log[i].id < s.nextId)
    && (forall i, j :: 0 <= i < j < |s.log| ==> s.log[i].id != s.log[j].id)
    && (forall t, u :: 0 <= t < u < |s.threads| && !s.threads[t].Idle? && !s.threads[u].Idle? ==>
        s.threads[t].id != s.threads[u].id)
  }

  predicate Inv(s: State) {
    && Exclusive(s)
    && (forall t :: 0 <= t < |s.threads| ==> PcOk(s.counters, s.threads[t]))
    && Legal(s.log) && Replay(s.log) == s.counters
    && DistinctIds(s)
    && (forall t :: 0 <= t < |s.threads| ==> PcLogged(s, s.threads[t]))
    && (forall i :: 0 <= i < |s.done| ==> s.done[i] in s.log)
    && NoPhantoms(s)
  }

  /** Every logged operation has returned, or is being carried out by a thread. */
  predicate NoPhantoms(s: State) {
    forall i :: 0 <= i < |s.log| ==> Accounted(s, s.log[i])
  }

  predicate Accounted(s: State, e: Entry) {
    e in s.done || exists t :: 0 <= t < |s.threads| && Carries(s.threads[t], e)
  }

  predicate Carries(pc: Pc, e: Entry) {
    Effected(pc) && e == Entry(pc.id, pc.op, pc.result)
  }

  // ---------------------------------------------------------------- one step

  /** What every step has in common: one thread moves on in its operation, and the operation enters
      the log exactly when it takes effect. */
  predicate Shape(s: State, t: nat, u: State)
    requires t < |s.threads|
  {
    && |u.threads| == |s.threads| && u.nextId == s.nextId
    && (forall k :: 0 <= k < |s.threads| && k != t ==> u.threads[k] == s.threads[k])
    && var a, b := s.threads[t], u.threads[t];
    && !a.Idle?
    && if b.Idle? then
         a.Returning? && u.log == s.log && u.done == s.done + [Entry(a.id, a.op, a.result)]
       else
         && u.done == s.done && b.id == a.id && b.op == a.op
         && (Effected(a) ==> Effected(b) && b.result == a.result)
         && u.log == s.log + if Effected(b) && !Effected(a) then [Entry(b.id, b.op, b.result)] else []
  }

  lemma StepShape(s: State, t: nat, u: State)
    requires t < |s.threads| && ThreadStep(s, t, u)
    ensures Shape(s, t, u)
  {
    hide ThreadStep, Shape, HoldsEntryOrSeeks;
    if Entering(s.threads[t]) { EnteringShape(s, t, u); } else { InsideShape(s, t, u); }
  }

  /** Before the entry is reached. */
  predicate Entering(pc: Pc) {
    pc.AtMap? || pc.Finding? || pc.Missed? || pc.AtMapWrite? || pc.Rechecking?
  }

  lemma EnteringShape(s: State, t: nat, u: State)
    requires t < |s.threads| && ThreadStep(s, t, u) && Entering(s.threads[t])
    ensures Shape(s, t, u)
  {
    hide ToI64;
  }

  lemma InsideShape(s: State, t: nat, u: State)
    requires t < |s.threads| && ThreadStep(s, t, u) && !Entering(s.threads[t])
    ensures Shape(s, t, u)
  {
    hide ToI64;
  }

  lemma StepKeepsExclusive(s: State, t: nat, u: State)
    requires t < |s.threads| && ThreadStep(s, t, u) && Exclusive(s)
    ensures Exclusive(u)
  {
    hide ToI64;
    StepShape(s, t, u);
    forall k | 0 <= k < |s.threads| && k != t
      ensures Compatible(u.threads[t], u.threads[k]) && Compatible(u.threads[k], u.threads[t])
    {
      assert Compatible(s.threads[t], s.threads[k]) && Compatible(s.threads[k], s.threads[t]);
    }
  }

  lemma StepKeepsPcOk(s: State, t: nat, u: State, k: nat)
    requires t < |s.threads| && ThreadStep(s, t, u) && Exclusive(s) && k < |s.threads|
    requires PcOk(s.counters, s.threads[t]) && PcOk(s.counters, s.threads[k])
    ensures k < |u.threads| && PcOk(u.counters, u.threads[k])
  {
    hide ToI64;
    StepShape(s, t, u);
    if k != t { assert Compatible(s.threads[t], s.threads[k]); }
  }

  /** A step that logs an operation gives its sequential result and effect, any other step leaves
      the counters alone. */
  lemma StepTakesEffect(s: State, t: nat, u: State)
    requires t < |s.threads| && ThreadStep(s, t, u) && PcOk(s.counters, s.threads[t])
    ensures |u.threads| == |s.threads|
    ensures var a, b := s.threads[t], u.threads[t];
      if Effected(b) && !Effected(a)
      then b.result == Result(s.counters, b.op) && u.counters == Effect(s.counters, b.op)
      else u.counters == s.counters
  {
    hide ToI64;
  }

  lemma StepKeepsLegal(s: State, t: nat, u: State)
    requires t < |s.threads| && ThreadStep(s, t, u) && PcOk(s.counters, s.threads[t])
    requires Legal(s.log) && Replay(s.log) == s.counters
    ensures Legal(u.log) && Replay(u.log) == u.counters
  {
    hide ToI64, ThreadStep;
    StepShape(s, t, u);
    StepTakesEffect(s, t, u);
    assert s.log + [] == s.log;
    if u.log != s.log { assert u.log[..|u.log| - 1] == s.log; }
  }

  lemma StepKeepsIds(s: State, t: nat, u: State)
    requires t < |s.threads| && Shape(s, t, u) && DistinctIds(s)
    requires forall k :: 0 <= k < |s.threads| ==> PcLogged(s, s.threads[k])
    ensures DistinctIds(u)
    ensures forall k :: 0 <= k < |u.threads| ==> PcLogged(u, u.threads[k])
  {
    var a, b := s.threads[t], u.threads[t];
    assert PcLogged(s, a);
    assert s.log + [] == s.log;
    forall k | 0 <= k < |u.threads|
      ensures PcLogged(u, u.threads[k])
    {
      assert PcLogged(s, s.threads[k]);
      if k != t && !s.threads[k].Idle? { assert s.threads[k].id != a.id; }
    }
  }

  lemma StepKeepsAccounted(s: State, t: nat, u: State)
    requires t < |s.threads| && Shape(s, t, u) && NoPhantoms(s)
    ensures NoPhantoms(u)
  {
    forall i | 0 <= i < |u.log|
      ensures Accounted(u, u.log[i])
    {
      if i < |s.log| {
        assert u.log[i] == s.log[i] && Accounted(s, s.log[i]);
        if !(s.log[i] in s.done) {
          var k :| 0 <= k < |s.threads| && Carries(s.threads[k], s.log[i]);
          StillAccounted(s, t, u, k, s.log[i]);
        }
      } else {
        assert Carries(u.threads[t], u.log[i]);
      }
    }
  }

  lemma StillAccounted(s: State, t: nat, u: State, k: nat, e: Entry)
    requires t < |s.threads| && Shape(s, t, u) && k < |s.threads| && Carries(s.threads[k], e)
    ensures Accounted(u, e)
  {
    if k != t || !u.threads[t].Idle? {
      assert Carries(u.threads[k], e);
    } else {
      assert u.done[|s.done|] == e;
    }
  }

  lemma NextKeepsInv(s: State, u: State)
    requires Inv(s) && Next(s, u)
    ensures Inv(u) && s.log <= u.log && s.done <= u.done && s.nextId <= u.nextId
  {
    var t :| 0 <= t < |s.threads| && StepOf(s, t, u);
    if ThreadStep(s, t, u) {
      hide ThreadStep, Exclusive, PcOk, PcLogged, DistinctIds, Legal, Replay, Shape, NoPhantoms;
      StepShape(s, t, u);
      StepKeepsExclusive(s, t, u);
      StepKeepsLegal(s, t, u);
      StepKeepsIds(s, t, u);
      StepKeepsAccounted(s, t, u);
      forall k | 0 <= k < |u.threads|
        ensures PcOk(u.counters, u.threads[k])
      {
        StepKeepsPcOk(s, t, u, k);
      }
    } else {
      var op :| Calls(s, t, op, u);
      CallKeepsInv(s, t, op, u);
    }
  }

  lemma CallKeepsInv(s: State, t: nat, op: Op, u: State)
    requires Inv(s) && t < |s.threads| && Calls(s, t, op, u)
    ensures Inv(u) && s.log <= u.log && s.done <= u.done && s.nextId <= u.nextId
  {
    hide Legal, Replay, ToI64;
    forall k | 0 <= k < |u.threads|
      ensures PcLogged(u, u.threads[k]) && PcOk(u.counters, u.threads[k])
    {
      assert PcLogged(s, s.threads[k]) && PcOk(s.counters, s.threads[k]);
    }
    forall i | 0 <= i < |u.log|
      ensures Accounted(u, u.log[i])
    {
      assert Accounted(s, s.log[i]);
      if !(s.log[i] in s.done) {
        var k :| 0 <= k < |s.threads| && Carries(s.threads[k], s.log[i]);
        assert Carries(u.threads[k], s.log[i]);
      }
    }
  }

  // ---------------------------------------------------------------- every interleaving

  lemma {:induction false} RunKeepsInv(run: seq<State>, i: nat)
    requires IsRun(run) && i < |run|
    ensures Inv(run[i])
  {
    if i > 0 {
      RunKeepsInv(run, i - 1);
      NextKeepsInv(run[i - 1], run[i]);
    }
  }

  lemma {:induction false} HistoryGrows(run: seq<State>, i: nat, j: nat)
    requires IsRun(run) && i <= j < |run|
    ensures run[i].log <= run[j].log && run[i].done <= run[j].done && run[i].nextId <= run[j].nextId
    decreases j - i
  {
    hide Inv, Next;
    if i < j {
      HistoryGrows(run, i, j - 1);
      RunKeepsInv(run, j - 1);
      NextKeepsInv(run[j - 1], run[j]);
    }
  }

  /** In every reachable state the counters and the results returned are those of running the logged
      operations one at a time; the log holds each operation at most once, holds every operation
      that has returned, and otherwise only operations under way. */
  lemma Linearizable(run: seq<State>, i: nat)
    requires IsRun(run) && i < |run|
    ensures var s := run[i];
      && Legal(s.log) && Replay(s.log) == s.counters
      && (forall e :: e in s.done ==> e in s.log)
      && (forall x, y :: 0 <= x < y < |s.log| ==> s.log[x].id != s.log[y].id)
      && (forall e :: e in s.log ==> Accounted(s, e))
  {
    hide Legal, Replay, Accounted;
    RunKeepsInv(run, i);
  }

  /** An operation that had returned before another was called comes first in the log. */
  lemma RealTimeOrder(run: seq<State>, i: nat, j: nat, a: Entry, b: Entry)
    requires IsRun(run) && i <= j < |run|
    requires a in run[i].done && b in run[j].done && b.id >= run[i].nextId
    ensures exists x, y :: 0 <= x < y < |run[j].log| && run[j].log[x] == a && run[j].log[y] == b
  {
    hide Legal, Replay, Exclusive, PcOk, PcLogged, NoPhantoms;
    RunKeepsInv(run, i);
    RunKeepsInv(run, j);
    HistoryGrows(run, i, j);
    var before, after := run[i].log, run[j].log;
    var x :| 0 <= x < |before| && before[x] == a;
    var y :| 0 <= y < |after| && after[y] == b;
    assert forall k :: 0 <= k < |before| ==> after[k] == before[k] && after[k].id < run[i].nextId;
    assert |before| <= y && after[x] == a;
  }

  // ---------------------------------------------------------------- increments only

  function SumFor(log: seq<Entry>, key: Key): int {
    if log == [] then 0
    else
      var last := log[|log| - 1].op;
      SumFor(log[..|log| - 1], key) + if last.Increment? && last.key == key then last.amount else 0
  }

  /** The key is never set outright. */
  predicate NeverSet(log: seq<Entry>, key: Key) {
    forall e :: e in log ==> !(e.op.Set? && e.op.key == key)
  }

  predicate Adds(e: Entry, key: Key) { e.op.Increment? && e.op.key == key }

  /** While a counter is never set, it is the sum of all the amounts added to it. */
  lemma {:induction false} IncrementsAddUp(log: seq<Entry>, key: Key)
    requires NeverSet(log, key)
    ensures key in Replay(log) <==> exists e :: e in log && Adds(e, key)
    ensures key in Replay(log) ==> Replay(log)[key] == ToI64(SumFor(log, key))
    ensures key !in Replay(log) ==> SumFor(log, key) == 0
  {
    if log != [] {
      var front, last := log[..|log| - 1], log[|log| - 1];
      assert log == front + [last];
      IncrementsAddUp(front, key);
      if Adds(last, key) {
        WrapOnce(SumFor(front, key), last.op.amount);
        assert last in log;
      } else {
        assert last in log && !(last.op.Set? && last.op.key == key);
        assert forall e :: e in log && Adds(e, key) ==> e in front;
      }
    }
  }

  lemma WrapOnce(sum: int, amount: I64)
    ensures ToI64(ToI64(sum) + amount) == ToI64(sum + amount)
    ensures ToI64(amount) == amount
  {
    hide ToI64;
    var q := WrapShift(sum);
    WrapPeriod(sum + amount, q);
    SignedOfBits(amount);
  }

  lemma WrapShift(n: int) returns (q: int)
    ensures ToI64(n) == n - q * 0x1_0000_0000_0000_0000
  {
    q := n / 0x1_0000_0000_0000_0000 + if ToU64(n) < 0x8000_0000_0000_0000 then 0 else 1;
  }

  lemma WrapPeriod(n: int, q: int)
    ensures ToI64(n - q * 0x1_0000_0000_0000_0000) == ToI64(n)
  {}

  lemma NoIncrementLost(run: seq<State>, i: nat, key: Key)
    requires IsRun(run) && i < |run| && NeverSet(run[i].log, key) && key in run[i].counters
    ensures run[i].counters[key] == ToI64(SumFor(run[i].log, key))
  {
    hide *;
    Linearizable(run, i);
    IncrementsAddUp(run[i].log, key);
  }

  // ---------------------------------------------------------------- the calls that returned

  predicate DistinctEntries(log: seq<Entry>) {
    forall i, j :: 0 <= i < j < |log| ==> log[i].id != log[j].id
  }

  predicate InFlightApart(s: State) {
    forall t, i :: 0 <= t < |s.threads| && !s.threads[t].Idle? && 0 <= i < |s.done| ==> s.done[i].id != s.threads[t].id
  }

  /** No call returns twice. */
  lemma NextKeepsDoneOnce(s: State, u: State)
    requires Inv(s) && Next(s, u) && DistinctEntries(s.done) && InFlightApart(s)
    ensures DistinctEntries(u.done) && InFlightApart(u)
  {
    var t :| 0 <= t < |s.threads| && StepOf(s, t, u);
    if ThreadStep(s, t, u) {
      hide ThreadStep, PcOk, PcLogged, Legal, Replay, NoPhantoms, Exclusive;
      StepShape(s, t, u);
    } else {
      var op :| Calls(s, t, op, u);
      DoneBelow(s);
    }
  }

  lemma DoneBelow(s: State)
    requires Inv(s)
    ensures forall i :: 0 <= i < |s.done| ==> s.done[i].id < s.nextId
  {
    hide PcOk, PcLogged, Legal, Replay, NoPhantoms, Exclusive;
    forall i | 0 <= i < |s.done|
      ensures s.done[i].id < s.nextId
    {
      assert s.done[i] in s.log;
    }
  }

  lemma {:induction false} RunKeepsDoneOnce(run: seq<State>, i: nat)
    requires IsRun(run) && i < |run|
    ensures DistinctEntries(run[i].done) && InFlightApart(run[i])
  {
    hide Inv, Next;
    if i > 0 {
      RunKeepsDoneOnce(run, i - 1);
      RunKeepsInv(run, i - 1);
      NextKeepsDoneOnce(run[i - 1], run[i]);
    }
  }

  function Amount(e: Entry, key: Key): int { if Adds(e, key) then e.op.amount else 0 }

  lemma {:induction false} SumWithout(log: seq<Entry>, i: nat, key: Key)
    requires i < |log|
    ensures SumFor(log, key) == SumFor(log[..i] + log[i + 1..], key) + Amount(log[i], key)
  {
    var last := |log| - 1;
    var rest := log[..i] + log[i + 1..];
    if i == last {
      assert rest == log[..last];
    } else {
      SumWithout(log[..last], i, key);
      assert rest[..|rest| - 1] == log[..last][..i] + log[..last][i + 1..];
      assert rest[|rest| - 1] == log[last];
    }
  }

  /** The sum does not depend on the order. */
  lemma {:induction false} SumOfSame(a: seq<Entry>, b: seq<Entry>, key: Key)
    requires DistinctEntries(a) && DistinctEntries(b) && forall e :: e in a <==> e in b
    ensures SumFor(a, key) == SumFor(b, key)
    decreases |a|
  {
    if a == [] {
      NothingIn(b);
    } else {
      hide SumFor;
      var last := a[|a| - 1];
      assert last in a;
      var i :| 0 <= i < |b| && b[i] == last;
      var front, rest := a[..|a| - 1], b[..i] + b[i + 1..];
      RemoveKeepsSame(a, b, i);
      SumOfSame(front, rest, key);
      SumWithout(b, i, key);
      SumWithout(a, |a| - 1, key);
      assert a[..|a| - 1] + a[|a|..] == front;
    }
  }

  lemma NothingIn(b: seq<Entry>)
    ensures (forall e :: e !in b) ==> b == []
  {
    if b != [] { assert b[0] in b; }
  }

  lemma RemoveKeepsSame(a: seq<Entry>, b: seq<Entry>, i: nat)
    requires a != [] && i < |b| && b[i] == a[|a| - 1]
    requires DistinctEntries(a) && DistinctEntries(b) && forall e :: e in a <==> e in b
    ensures var front, rest := a[..|a| - 1], b[..i] + b[i + 1..];
      DistinctEntries(front) && DistinctEntries(rest) && forall e :: e in front <==> e in rest
  {
    var last := a[|a| - 1];
    var front, rest := a[..|a| - 1], b[..i] + b[i + 1..];
    forall e
      ensures e in front <==> e in a && e != last
      ensures e in rest <==> e in b && e != last
    {
      if e in front {
        var j :| 0 <= j < |front| && front[j] == e;
        assert a[j] == e;
      }
      if e in a && e != last {
        var j :| 0 <= j < |a| && a[j] == e;
        assert front[j] == e;
      }
      if e in rest {
        var j :| 0 <= j < |rest| && rest[j] == e;
        assert b[if j < i then j else j + 1] == e;
      }
      if e in b && e != last {
        var j :| 0 <= j < |b| && b[j] == e;
        assert rest[if j < i then j else j - 1] == e;
      }
    }
  }

  /** When every thread is idle, a counter that no call has set is the wrapped sum of the amounts of
      all the increments of it that have returned, and exists if and only if there are any. */
  lemma EveryIncrementCounts(run: seq<State>, i: nat, key: Key)
    requires IsRun(run) && i < |run| && forall t :: 0 <= t < |run[i].threads| ==> run[i].threads[t].Idle?
    requires NeverSet(run[i].done, key)
    ensures var s := run[i];
      && (key in s.counters <==> exists e :: e in s.done && Adds(e, key))
      && (key in s.counters ==> s.counters[key] == ToI64(SumFor(s.done, key)))
  {
    hide IsRun, Legal, Replay, SumFor;
    var s := run[i];
    Linearizable(run, i);
    RunKeepsDoneOnce(run, i);
    assert forall e :: e in s.log <==> e in s.done;
    IncrementsAddUp(s.log, key);
    SumOfSame(s.log, s.done, key);
  }

  // ---------------------------------------------------------------- what each operation returns

  /** The number that the operations on a key amount to: the value set last and what was added
      since, without wrap-around. */
  function Total(log: seq<Entry>, key: Key): int {
    if log == [] then 0
    else
      var op, before := log[|log| - 1].op, Total(log[..|log| - 1], key);
      if op.key != key || op.Get? then before else if op.Set? then op.value else before + op.amount
  }

  predicate Changes(e: Entry, key: Key) { e.op.key == key && !e.op.Get? }

  predicate SetAt(log: seq<Entry>, i: nat, key: Key) { i < |log| && log[i].op.Set? && log[i].op.key == key }

  /** It is the value of the last Set and the amounts added after it, or all amounts if there is none. */
  lemma {:induction false} TotalSinceSet(log: seq<Entry>, i: nat, key: Key)
    requires SetAt(log, i, key) && NeverSet(log[i + 1..], key)
    ensures Total(log, key) == log[i].op.value + SumFor(log[i + 1..], key)
    decreases |log|
  {
    var n := |log| - 1;
    if i < n {
      var front, tail := log[..n], log[i + 1..];
      assert front[i + 1..] == tail[..|tail| - 1] && tail[|tail| - 1] == log[n];
      assert log[n] in tail && forall e :: e in front[i + 1..] ==> e in tail;
      TotalSinceSet(front, i, key);
    } else {
      assert log[i + 1..] == [];
    }
  }

  lemma {:induction false} TotalNeverSet(log: seq<Entry>, key: Key)
    requires NeverSet(log, key)
    ensures Total(log, key) == SumFor(log, key)
  {
    if log != [] {
      assert log[|log| - 1] in log;
      TotalNeverSet(log[..|log| - 1], key);
    }
  }

  /** One operation after the other, the counters hold these numbers, wrapped. */
  lemma {:induction false} ReplayIsTotal(log: seq<Entry>, key: Key)
    ensures key in Replay(log) <==> exists e :: e in log && Changes(e, key)
    ensures key in Replay(log) ==> Replay(log)[key] == ToI64(Total(log, key))
    ensures key !in Replay(log) ==> Total(log, key) == 0
  {
    if log != [] {
      hide ToI64;
      var front, last := log[..|log| - 1], log[|log| - 1];
      assert log == front + [last] && last in log;
      ReplayIsTotal(front, key);
      if Changes(last, key) {
        if last.op.Set? {
          WrapOnce(0, last.op.value);
        } else {
          WrapOnce(Total(front, key), last.op.amount);
        }
      } else {
        assert forall e :: e in log && Changes(e, key) ==> e in front;
      }
    }
  }

  /** What an operation returns at its place in a log: a Set its own value, a Get what the counter
      then holds, an Increment what it holds after it. */
  predicate Explained(log: seq<Entry>, i: nat)
    requires i < |log|
  {
    var e := log[i];
    match e.op
    case Set(_, value) => e.result == value
    case Get(k) => e.result == ToI64(Total(log[..i], k))
    case Increment(k, amount) => e.result == ToI64(Total(log[..i], k) + amount)
  }

  lemma {:induction false} LegalExplained(log: seq<Entry>, i: nat)
    requires Legal(log) && i < |log|
    ensures Explained(log, i)
    decreases |log|
  {
    var front, last := log[..|log| - 1], log[|log| - 1];
    if i < |log| - 1 {
      LegalExplained(front, i);
      assert front[..i] == log[..i];
    } else {
      hide ToI64, Replay, Total;
      ReplayIsTotal(front, last.op.key);
      WrapOnce(0, 0);
      match last.op
      case Increment(k, amount) => WrapOnce(Total(front, k), amount);
      case _ =>
    }
  }

  /** In every interleaving the counters are the wrapped totals of the operations that have taken
      effect, and each result is the one explained by its place among them. */
  lemma CountersAreTotals(run: seq<State>, i: nat)
    requires IsRun(run) && i < |run|
    ensures var s := run[i];
      && (forall key :: key in s.counters ==> s.counters[key] == ToI64(Total(s.log, key)))
      && (forall key :: key in s.counters <==> exists e :: e in s.log && Changes(e, key))
      && (forall x :: 0 <= x < |s.log| ==> Explained(s.log, x))
  {
    hide IsRun, Legal, Replay, Total, ToI64, Explained, Changes;
    var s := run[i];
    Linearizable(run, i);
    forall key
      ensures key in s.counters ==> s.counters[key] == ToI64(Total(s.log, key))
      ensures key in s.counters <==> exists e :: e in s.log && Changes(e, key)
    {
      ReplayIsTotal(s.log, key);
    }
    forall x | 0 <= x < |s.log|
      ensures Explained(s.log, x)
    {
      LegalExplained(s.log, x);
    }
  }

  /** When every thread is idle, the calls that returned can be put in an order, each once, that
      explains every result returned and every counter. */
  lemma ReturnedCallsExplained(run: seq<State>, i: nat) returns (order: seq<Entry>)
    requires IsRun(run) && i < |run| && forall t :: 0 <= t < |run[i].threads| ==> run[i].threads[t].Idle?
    ensures var s := run[i];
      && DistinctEntries(order) && DistinctEntries(s.done) && (forall e :: e in order <==> e in s.done)
      && (forall x :: 0 <= x < |order| ==> Explained(order, x))
      && (forall key :: key in s.counters ==> s.counters[key] == ToI64(Total(order, key)))
      && (forall key :: key in s.counters <==> exists e :: e in s.done && Changes(e, key))
  {
    hide IsRun, Legal, Replay, Total, ToI64, Explained;
    order := run[i].log;
    Linearizable(run, i);
    RunKeepsDoneOnce(run, i);
    CountersAreTotals(run, i);
  }

  /** A Set that was called after every other returned change of its key had returned: when every
      thread is idle the counter holds its value. */
  lemma LastSetHolds(run: seq<State>, j: nat, i: nat, e: Entry)
    requires IsRun(run) && j <= i < |run| && forall t :: 0 <= t < |run[i].threads| ==> run[i].threads[t].Idle?
    requires e in run[i].done && e.op.Set? && e.id >= run[j].nextId
    requires forall f :: f in run[i].done && Changes(f, e.op.key) && f != e ==> f in run[j].done
    ensures e.op.key in run[i].counters && run[i].counters[e.op.key] == e.op.value
  {
    hide IsRun, Legal, Replay, Total, ToI64, Explained, SumFor;
    var s, key := run[i], e.op.key;
    Linearizable(run, i);
    RunKeepsDoneOnce(run, i);
    CountersAreTotals(run, i);
    var x :| 0 <= x < |s.log| && s.log[x] == e;
    forall f | f in s.log[x + 1..]
      ensures !Changes(f, key)
    {
      var z :| 0 <= z < |s.log[x + 1..]| && s.log[x + 1..][z] == f;
      assert s.log[x + 1 + z] == f && f.id != e.id;
      assert f in s.log && Accounted(s, f);
      if Changes(f, key) { RealTimeOrder(run, j, i, f, e); }
    }
    assert NeverSet(s.log[x + 1..], key) by {
      forall f | f in s.log[x + 1..]
        ensures !(f.op.Set? && f.op.key == key)
      {
        assert !Changes(f, key);
      }
    }
    TotalSinceSet(s.log, x, key);
    NothingAdded(s.log[x + 1..], key);
    WrapOnce(0, e.op.value);
    assert e in s.log && Changes(e, key);
  }

  lemma {:induction false} NothingAdded(log: seq<Entry>, key: Key)
    requires forall f :: f in log ==> !Changes(f, key)
    ensures SumFor(log, key) == 0
  {
    if log != [] {
      assert log[|log| - 1] in log;
      NothingAdded(log[..|log| - 1], key);
    }
  }

  // ---------------------------------------------------------------- no deadlock

  /** How many steps a thread may still take inside its call. */
  function StepsLeft(pc: Pc): nat {
    match pc
    case Idle => 0
    case Returning(_, _, _) => 1
    case LeavingMap(_, _, _, _) => 2
    case LeavingElem(_, _, _, _) => 3
    case Storing(_, _, _, _) => 4
    case InElem(_, _, _) => 5
    case AtElem(_, _, _) => 6
    case Rechecking(_, _) => 7
    case AtMapWrite(_, _) => 8
    case Missed(_, _) => 9
    case Finding(_, _) => 10
    case AtMap(_, _) => 11
  }

  /** The locks never leave the threads waiting for each other: in every interleaving, while some
      call is under way some thread can take a step that brings its call closer to its return. */
  lemma SomeThreadMoves(run: seq<State>, i: nat, t: nat) returns (k: nat, u: State)
    requires IsRun(run) && i < |run| && t < |run[i].threads| && !run[i].threads[t].Idle?
    ensures k < |run[i].threads| && !run[i].threads[k].Idle? && Next(run[i], u)
    ensures |u.threads| == |run[i].threads| && StepsLeft(u.threads[k]) < StepsLeft(run[i].threads[k])
  {
    hide Inv, Legal, Replay, NoPhantoms, DistinctIds, PcLogged, ToI64;
    var s := run[i];
    RunKeepsInv(run, i);
    if j :| 0 <= j < |s.threads| && NeedsNoLock(s.threads[j]) {
      k := j;
    } else if j :| 0 <= j < |s.threads| && s.threads[j].AtElem? {
      k := j;
    } else {
      k := t;
    }
    InvPcOk(s, k);
    assert Enabled(s, k);
    u := AfterStep(s, k);
    assert ThreadStep(s, k, u);
    assert StepOf(s, k, u);
  }

  lemma InvPcOk(s: State, k: nat)
    requires Inv(s) && k < |s.threads|
    ensures PcOk(s.counters, s.threads[k])
  {
    hide Legal, Replay, NoPhantoms, DistinctIds, PcLogged, Exclusive;
  }

  predicate NeedsNoLock(pc: Pc) { !pc.Idle? && !pc.AtMap? && !pc.AtMapWrite? && !pc.AtElem? }
}
