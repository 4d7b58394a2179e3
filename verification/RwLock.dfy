/** The AppleTalk read-write lock (AppleTalk-52-1/at_rwlock.c) as a transition system.

    Any number of threads call the lock, trylock, unlock and destroy operations. Every operation
    tests `valid` without the mutex, then takes the mutex, runs one critical section and releases
    the mutex; `condition_wait` releases the mutex and goes to sleep in one step. Sleepers may
    wake for no reason. Since all counters are touched only between mutex_lock and
    mutex_unlock/condition_wait, each critical section is one step here. */
module RwLock {

  type Thread = nat

  /** Where a thread stands. "Want" means past the `valid` test and about to take the mutex,
      "In" means owning the mutex in front of the critical section, "Out" means owning the mutex
      after it, with what the thread holds from then on. */
  datatype Pc =
    | Rest(mode: Mode)
    | Want(op: Op)
    | In(op: Op)
    | Asleep(writing: bool)        // inside condition_wait, not woken
    | Woken(writing: bool)         // woken, not yet owning the mutex again
    | Recheck(writing: bool)       // back from condition_wait, owning the mutex
    | Out(mode: Mode)
    | Leaving                      // owning the mutex after it, the lock having been destroyed
    | Clearing                     // past mutex_unlock, about to clear mutex and conditions

  /** What a thread holds between calls. */
  datatype Mode = Nothing | ForRead | ForWrite

  datatype Op = ReadLock | ReadTry | ReadUnlock | WriteLock | WriteTry | WriteUnlock | Destroy

  datatype Status = Ok | Ebusy | Einval

  /** The fields of at_rwlock_t, the owner of its mutex, the threads' places, the status the last call
      of each thread returned, and whether mutex and conditions have been cleared. A thread missing
      from `pcs` is idle. */
  datatype State = State(
    valid: bool, rActive: int, wActive: bool, rWait: int, wWait: int,
    owner: set<Thread>, pcs: map<Thread, Pc>, returned: map<Thread, Status>, cleared: bool)
  {
    function Pc(t: Thread): Pc {
      if t in pcs then pcs[t] else Rest(Nothing)
    }

    function Goto(t: Thread, pc: Pc): State {
      this.(pcs := pcs[t := pc])
    }

    function Return(t: Thread, pc: Pc, status: Status): State {
      this.(pcs := pcs[t := pc], returned := returned[t := status])
    }
  }

  const INIT := State(true, 0, false, 0, 0, {}, map[], map[], false)

  /** What can happen next. `Section` carries the thread a condition_signal would choose. */
  datatype Step =
    | Call(t: Thread, op: Op)
    | Lock(t: Thread)
    | Section(t: Thread, chosen: Thread)
    | Unlock(t: Thread)
    | SpuriousWakeup(t: Thread)
    | Clear(t: Thread)

  /** Who may call what: unlock is for holders of that mode, everything else for idle threads. */
  predicate MayCall(pc: Pc, op: Op) {
    match op
    case ReadUnlock => pc == Rest(ForRead)
    case WriteUnlock => pc == Rest(ForWrite)
    case _ => pc == Rest(Nothing)
  }

  predicate Owning(pc: Pc) {
    pc.In? || pc.Out? || pc.Recheck? || pc.Leaving?
  }

  /** What can happen. Once mutex and conditions have been cleared nothing that uses them can. */
  predicate Enabled(s: State, step: Step) {
    match step
    case Call(t, op) => MayCall(s.Pc(t), op)
    case Lock(t) => !s.cleared && (s.Pc(t).Want? || s.Pc(t).Woken?) && s.owner == {}
    case Section(t, chosen) =>
      && !s.cleared && (s.Pc(t).In? || s.Pc(t).Recheck?)
      && (SignalsWriter(s, s.Pc(t)) && Sleepers(s, true) != {} ==> chosen in Sleepers(s, true))
    case Unlock(t) => !s.cleared && (s.Pc(t).Out? || s.Pc(t).Leaving?)
    case SpuriousWakeup(t) => !s.cleared && s.Pc(t).Asleep?
    case Clear(t) => s.Pc(t).Clearing?
  }

  /** The threads blocked in condition_wait on the read or on the write condition. */
  function Sleepers(s: State, writing: bool): (r: set<Thread>) {
    set t | t in s.pcs && s.pcs[t] == Asleep(writing)
  }

  /** Does the critical section entered at `pc` end in condition_signal(&rwl->write)? */
  predicate SignalsWriter(s: State, pc: Pc) {
    || (pc == In(ReadUnlock) && s.rActive == 1 && s.wWait > 0)
    || (pc == In(WriteUnlock) && s.rWait <= 0 && s.wWait > 0)
  }

  /** condition_signal: wakes one sleeper of the write condition when there is one. */
  function SignalWrite(s: State, chosen: Thread): State {
    if chosen in Sleepers(s, true) then s.Goto(chosen, Woken(true)) else s
  }

  /** condition_broadcast on the read condition: wakes all its sleepers. */
  function BroadcastRead(s: State): State {
    s.(pcs := map t | t in s.pcs :: if s.pcs[t] == Asleep(false) then Woken(false) else s.pcs[t])
  }

  function Sleep(s: State, t: Thread, writing: bool): State {
    s.(owner := {}).Goto(t, Asleep(writing))
  }

  function EnterRead(s: State, t: Thread): State {
    s.(rActive := s.rActive + 1).Return(t, Out(ForRead), Ok)
  }

  function EnterWrite(s: State, t: Thread): State {
    s.(wActive := true).Return(t, Out(ForWrite), Ok)
  }

  // Each critical section is the code between mutex_lock (or the return from condition_wait) and
  // mutex_unlock (or the next condition_wait).

  function ReadLockSection(s: State, t: Thread): State {
    if s.wActive then Sleep(s.(rWait := s.rWait + 1), t, false) else EnterRead(s, t)
  }

  function ReadRecheckSection(s: State, t: Thread): State {
    if s.wActive then Sleep(s, t, false) else EnterRead(s.(rWait := s.rWait - 1), t)
  }

  function ReadTrySection(s: State, t: Thread): State {
    if s.wActive then s.Return(t, Out(Nothing), Ebusy) else EnterRead(s, t)
  }

  function ReadUnlockSection(s: State, t: Thread, chosen: Thread): State {
    var s1 := s.(rActive := s.rActive - 1);
    var s2 := if s1.rActive == 0 && s1.wWait > 0 then SignalWrite(s1, chosen) else s1;
    s2.Return(t, Out(Nothing), Ok)
  }

  predicate Busy(s: State) {
    s.wActive || s.rActive > 0
  }

  function WriteLockSection(s: State, t: Thread): State {
    if Busy(s) then Sleep(s.(wWait := s.wWait + 1), t, true) else EnterWrite(s, t)
  }

  function WriteRecheckSection(s: State, t: Thread): State {
    if Busy(s) then Sleep(s, t, true) else EnterWrite(s.(wWait := s.wWait - 1), t)
  }

  function WriteTrySection(s: State, t: Thread): State {
    if Busy(s) then s.Return(t, Out(Nothing), Ebusy) else EnterWrite(s, t)
  }

  function WriteUnlockSection(s: State, t: Thread, chosen: Thread): State {
    var s1 := s.(wActive := false);
    var s2 := if s1.rWait > 0 then BroadcastRead(s1)
              else if s1.wWait > 0 then SignalWrite(s1, chosen)
              else s1;
    s2.Return(t, Out(Nothing), Ok)
  }

  function DestroySection(s: State, t: Thread): State {
    if Busy(s) || s.rWait != 0 || s.wWait != 0 then s.Return(t, Out(Nothing), Ebusy)
    else s.(valid := false).Return(t, Leaving, Ok)
  }

  function RunSection(s: State, t: Thread, chosen: Thread): State {
    match s.Pc(t)
    case Recheck(writing) => if writing then WriteRecheckSection(s, t) else ReadRecheckSection(s, t)
    case In(op) => (
      match op
      case ReadLock => ReadLockSection(s, t)
      case ReadTry => ReadTrySection(s, t)
      case ReadUnlock => ReadUnlockSection(s, t, chosen)
      case WriteLock => WriteLockSection(s, t)
      case WriteTry => WriteTrySection(s, t)
      case WriteUnlock => WriteUnlockSection(s, t, chosen)
      case Destroy => DestroySection(s, t))
    case _ => s
  }

  function Locked(pc: Pc): Pc {
    match pc
    case Want(op) => In(op)
    case Woken(writing) => Recheck(writing)
    case _ => pc
  }

  function Unlocked(pc: Pc): Pc {
    match pc
    case Out(mode) => Rest(mode)
    case Leaving => Clearing
    case _ => pc
  }

  function Apply(s: State, step: Step): State {
    match step
    case Call(t, op) =>
      // the unprotected test of `valid`: a failing call returns at once, keeping its mode
      if s.valid then s.Goto(t, Want(op)) else s.Return(t, s.Pc(t), Einval)
    case Lock(t) =>
      s.(owner := {t}).Goto(t, Locked(s.Pc(t)))
    case Section(t, chosen) => RunSection(s, t, chosen)
    case Unlock(t) => s.(owner := {}).Goto(t, Unlocked(s.Pc(t)))
    case SpuriousWakeup(t) => if s.Pc(t).Asleep? then s.Goto(t, Woken(s.Pc(t).writing)) else s
    case Clear(t) => s.(cleared := true).Goto(t, Rest(Nothing))
  }

  /** The states reached by a run: every step must be enabled where it is taken. */
  predicate IsRun(s: State, run: seq<Step>)
    decreases |run|
  {
    run == [] || (Enabled(s, run[0]) && IsRun(Apply(s, run[0]), run[1..]))
  }

  function After(s: State, run: seq<Step>): State
    decreases |run|
  {
    if run == [] then s else After(Apply(s, run[0]), run[1..])
  }

  // ----- who holds, who waits -----

  datatype Group = Reading | Writing | WaitingToRead | WaitingToWrite

  /** Holding lasts from the change of r_active or w_active on entry to the change on exit;
      waiting lasts from the increment of r_wait or w_wait to its decrement. */
  predicate Member(pc: Pc, g: Group) {
    match g
    case Reading => pc == Rest(ForRead) || pc == Out(ForRead) || pc == Want(ReadUnlock) || pc == In(ReadUnlock)
    case Writing => pc == Rest(ForWrite) || pc == Out(ForWrite) || pc == Want(WriteUnlock) || pc == In(WriteUnlock)
    case WaitingToRead => pc == Asleep(false) || pc == Woken(false) || pc == Recheck(false)
    case WaitingToWrite => pc == Asleep(true) || pc == Woken(true) || pc == Recheck(true)
  }

  function Members(pcs: map<Thread, Pc>, g: Group): set<Thread> {
    set t | t in pcs && Member(pcs[t], g)
  }

  /** Waiting, woken and not yet rechecked. */
  predicate Awake(pc: Pc) {
    pc.Woken? || pc.Recheck?
  }

  predicate Free(s: State) {
    s.rActive == 0 && !s.wActive
  }

  // ----- the invariant -----

  ghost predicate CountersExact(s: State) {
    && s.rActive == |Members(s.pcs, Reading)|
    && (if s.wActive then 1 else 0) == |Members(s.pcs, Writing)|
    && s.rWait == |Members(s.pcs, WaitingToRead)|
    && s.wWait == |Members(s.pcs, WaitingToWrite)|
  }

  /** An active writer excludes every reader and, with CountersExact, every other writer. */
  ghost predicate Exclusive(s: State) {
    s.wActive ==> s.rActive == 0
  }

  ghost predicate MutexExact(s: State) {
    && (forall t, u :: t in s.owner && u in s.owner ==> t == u)
    && (forall t :: t in s.owner <==> Owning(s.Pc(t)))
  }

  /** The sub-invariant of the wakeup argument: with no active writer, no reader sleeps. */
  ghost predicate ReadersAwake(s: State) {
    !s.wActive ==> forall t :: s.Pc(t) != Asleep(false)
  }

  /** No lost wakeup: if the lock is free and some thread waits, some waiter is awake. */
  ghost predicate NoLostWakeup(s: State) {
    Free(s) && s.rWait + s.wWait > 0 ==> exists t :: Awake(s.Pc(t))
  }

  ghost predicate Inv(s: State) {
    && CountersExact(s)
    && Exclusive(s)
    && MutexExact(s)
    && ReadersAwake(s)
    && NoLostWakeup(s)
  }

  // ----- how the groups change -----

  function One(b: bool): int { if b then 1 else 0 }

  /** Moving one thread changes the size of a group by that thread's own membership only. */
  lemma MoveOne(pcs: map<Thread, Pc>, t: Thread, pc: Pc, g: Group)
    ensures |Members(pcs[t := pc], g)|
         == |Members(pcs, g)| - One(t in pcs && Member(pcs[t], g)) + One(Member(pc, g))
  {
    var before, after := Members(pcs, g), Members(pcs[t := pc], g);
    var rest := before - {t};
    assert before == if t in pcs && Member(pcs[t], g) then rest + {t} else rest;
    assert after == if Member(pc, g) then rest + {t} else rest;
  }

  lemma MoveAll(s: State, t: Thread, pc: Pc)
    ensures forall g ::
      |Members(s.pcs[t := pc], g)| == |Members(s.pcs, g)| - One(Member(s.Pc(t), g)) + One(Member(pc, g))
  {
    forall g
      ensures |Members(s.pcs[t := pc], g)| == |Members(s.pcs, g)| - One(Member(s.Pc(t), g)) + One(Member(pc, g))
    {
      MoveOne(s.pcs, t, pc, g);
    }
  }

  lemma BroadcastKeeps(s: State)
    ensures forall g :: Members(BroadcastRead(s).pcs, g) == Members(s.pcs, g)
  {
  }

  lemma SignalKeeps(s: State, chosen: Thread)
    ensures forall g :: |Members(SignalWrite(s, chosen).pcs, g)| == |Members(s.pcs, g)|
  {
    MoveAll(s, chosen, Woken(true));
  }

  /** A thread that takes part in a group is counted. */
  lemma Counted(s: State, t: Thread, g: Group)
    requires Member(s.Pc(t), g)
    ensures |Members(s.pcs, g)| >= 1
  {
    assert t in Members(s.pcs, g);
  }

  // ----- every step keeps the invariant -----

  lemma CallKeeps(s: State, t: Thread, op: Op)
    requires Inv(s) && Enabled(s, Call(t, op))
    ensures Inv(Apply(s, Call(t, op)))
  {
    if s.valid {
      MoveAll(s, t, Want(op));
      AwakeSurvives(s, Apply(s, Call(t, op)));
    } else {
      CallFails(s, t, op);
    }
  }

  lemma CallFails(s: State, t: Thread, op: Op)
    requires Inv(s) && Enabled(s, Call(t, op)) && !s.valid
    ensures Inv(Apply(s, Call(t, op)))
  {
    MoveAll(s, t, s.Pc(t));
    AwakeSurvives(s, Apply(s, Call(t, op)));
  }

  /** If every awake thread of `s` is still awake in `s2`, there is still one. */
  lemma AwakeSurvives(s: State, s2: State)
    requires forall t :: Awake(s.Pc(t)) ==> Awake(s2.Pc(t))
    ensures (exists t :: Awake(s.Pc(t))) ==> exists t :: Awake(s2.Pc(t))
  {
  }

  lemma LockKeeps(s: State, t: Thread)
    requires Inv(s) && Enabled(s, Lock(t))
    ensures Inv(Apply(s, Lock(t)))
  {
    MoveAll(s, t, Apply(s, Lock(t)).Pc(t));
    AwakeSurvives(s, Apply(s, Lock(t)));
  }

  lemma UnlockKeeps(s: State, t: Thread)
    requires Inv(s) && Enabled(s, Unlock(t))
    ensures Inv(Apply(s, Unlock(t)))
  {
    MoveAll(s, t, Unlocked(s.Pc(t)));
    AwakeSurvives(s, Apply(s, Unlock(t)));
  }

  lemma ClearKeeps(s: State, t: Thread)
    requires Inv(s) && Enabled(s, Clear(t))
    ensures Inv(Apply(s, Clear(t)))
  {
    MoveAll(s, t, Rest(Nothing));
    AwakeSurvives(s, Apply(s, Clear(t)));
  }

  lemma SpuriousKeeps(s: State, t: Thread)
    requires Inv(s) && Enabled(s, SpuriousWakeup(t))
    ensures Inv(Apply(s, SpuriousWakeup(t)))
  {
    var s2 := Apply(s, SpuriousWakeup(t));
    MoveAll(s, t, s2.Pc(t));
    assert Awake(s2.Pc(t));
  }

  /** `s2` is `s` with thread `t` moved from owning the mutex to `pc`, the counters adjusted to
      the groups it left and joined, and the mutex released if it went to sleep. */
  ghost predicate SectionMoves(s: State, t: Thread, pc: Pc, s2: State) {
    && s2.pcs == s.pcs[t := pc]
    && (if Owning(pc) then s2.owner == s.owner else s2.owner == {})
    && s2.rActive == s.rActive - One(Member(s.Pc(t), Reading)) + One(Member(pc, Reading))
    && One(s2.wActive) == One(s.wActive) - One(Member(s.Pc(t), Writing)) + One(Member(pc, Writing))
    && s2.rWait == s.rWait - One(Member(s.Pc(t), WaitingToRead)) + One(Member(pc, WaitingToRead))
    && s2.wWait == s.wWait - One(Member(s.Pc(t), WaitingToWrite)) + One(Member(pc, WaitingToWrite))
  }

  /** What such a move keeps whatever the operation; the wakeup clauses are the caller's. */
  lemma MoveKeeps(s: State, t: Thread, pc: Pc, s2: State)
    requires CountersExact(s) && MutexExact(s)
    requires Owning(s.Pc(t)) && SectionMoves(s, t, pc, s2)
    ensures CountersExact(s2) && MutexExact(s2)
    ensures forall u :: s2.Pc(u) == if u == t then pc else s.Pc(u)
  {
    MoveAll(s, t, pc);
    assert t in s.owner;
    assert forall u :: u != t ==> s2.Pc(u) == s.Pc(u);
  }

  // A section of a lock call leaves its thread holding or asleep, so the lock is not free.

  ghost predicate NobodyHolds(s: State) {
    Members(s.pcs, Reading) == {} && Members(s.pcs, Writing) == {}
  }

  /** What the code sees in its counters. */
  lemma BusyIff(s: State)
    requires CountersExact(s)
    ensures s.wActive <==> Members(s.pcs, Writing) != {}
    ensures Busy(s) <==> !NobodyHolds(s)
  {
    assert forall g :: |Members(s.pcs, g)| == 0 <==> Members(s.pcs, g) == {};
  }

  lemma ReadLockKeeps(s: State, t: Thread)
    requires Inv(s) && s.Pc(t) == In(ReadLock)
    ensures Inv(ReadLockSection(s, t))
    ensures ReadLockSection(s, t).Pc(t) == if Members(s.pcs, Writing) == {} then Out(ForRead) else Asleep(false)
    ensures ReadLockSection(s, t).returned == if Members(s.pcs, Writing) == {} then s.returned[t := Ok] else s.returned
  {
    BusyIff(s);
    var s2 := ReadLockSection(s, t);
    MoveKeeps(s, t, s2.Pc(t), s2);
  }

  lemma ReadRecheckKeeps(s: State, t: Thread)
    requires Inv(s) && s.Pc(t) == Recheck(false)
    ensures Inv(ReadRecheckSection(s, t))
    ensures ReadRecheckSection(s, t).Pc(t) == if Members(s.pcs, Writing) == {} then Out(ForRead) else Asleep(false)
    ensures ReadRecheckSection(s, t).returned
            == if Members(s.pcs, Writing) == {} then s.returned[t := Ok] else s.returned
  {
    BusyIff(s);
    var s2 := ReadRecheckSection(s, t);
    MoveKeeps(s, t, s2.Pc(t), s2);
  }

  lemma WriteLockKeeps(s: State, t: Thread)
    requires Inv(s) && s.Pc(t) == In(WriteLock)
    ensures Inv(WriteLockSection(s, t))
    ensures WriteLockSection(s, t).Pc(t) == if NobodyHolds(s) then Out(ForWrite) else Asleep(true)
    ensures WriteLockSection(s, t).returned == if NobodyHolds(s) then s.returned[t := Ok] else s.returned
  {
    BusyIff(s);
    var s2 := WriteLockSection(s, t);
    MoveKeeps(s, t, s2.Pc(t), s2);
  }

  lemma WriteRecheckKeeps(s: State, t: Thread)
    requires Inv(s) && s.Pc(t) == Recheck(true)
    ensures Inv(WriteRecheckSection(s, t))
    ensures WriteRecheckSection(s, t).Pc(t) == if NobodyHolds(s) then Out(ForWrite) else Asleep(true)
    ensures WriteRecheckSection(s, t).returned == if NobodyHolds(s) then s.returned[t := Ok] else s.returned
  {
    BusyIff(s);
    var s2 := WriteRecheckSection(s, t);
    MoveKeeps(s, t, s2.Pc(t), s2);
  }

  lemma ReadTryKeeps(s: State, t: Thread)
    requires Inv(s) && s.Pc(t) == In(ReadTry)
    ensures Inv(ReadTrySection(s, t))
    ensures ReadTrySection(s, t).Pc(t) == Out(if Members(s.pcs, Writing) == {} then ForRead else Nothing)
    ensures ReadTrySection(s, t).returned == s.returned[t := if Members(s.pcs, Writing) == {} then Ok else Ebusy]
  {
    BusyIff(s);
    var s2 := ReadTrySection(s, t);
    MoveKeeps(s, t, s2.Pc(t), s2);
    AwakeSurvives(s, s2);
  }

  lemma WriteTryKeeps(s: State, t: Thread)
    requires Inv(s) && s.Pc(t) == In(WriteTry)
    ensures Inv(WriteTrySection(s, t))
    ensures WriteTrySection(s, t).Pc(t) == Out(if NobodyHolds(s) then ForWrite else Nothing)
    ensures WriteTrySection(s, t).returned == s.returned[t := if NobodyHolds(s) then Ok else Ebusy]
  {
    BusyIff(s);
    var s2 := WriteTrySection(s, t);
    MoveKeeps(s, t, s2.Pc(t), s2);
    AwakeSurvives(s, s2);
  }

  lemma DestroyKeeps(s: State, t: Thread)
    requires Inv(s) && s.Pc(t) == In(Destroy)
    ensures Inv(DestroySection(s, t))
  {
    var s2 := DestroySection(s, t);
    MoveKeeps(s, t, s2.Pc(t), s2);
    AwakeSurvives(s, s2);
  }

  /** A waiter is either asleep or awake. */
  lemma WaiterIsSomewhere(s: State, g: Group) returns (t: Thread)
    requires g in {WaitingToRead, WaitingToWrite} && |Members(s.pcs, g)| > 0
    ensures Member(s.Pc(t), g)
    ensures Awake(s.Pc(t)) || s.Pc(t) == Asleep(g == WaitingToWrite)
  {
    assert Members(s.pcs, g) != {};
    t :| t in Members(s.pcs, g);
  }

  /** After condition_signal some waiting writer, if there is one, is awake. */
  lemma SignalWakes(s: State, chosen: Thread) returns (w: Thread)
    requires s.wWait > 0 && s.wWait == |Members(s.pcs, WaitingToWrite)|
    requires Sleepers(s, true) != {} ==> chosen in Sleepers(s, true)
    ensures Awake(SignalWrite(s, chosen).Pc(w)) && Member(s.Pc(w), WaitingToWrite)
  {
    w := WaiterIsSomewhere(s, WaitingToWrite);
    if s.Pc(w) == Asleep(true) {
      assert w in Sleepers(s, true);
      w := chosen;
    }
  }

  /** condition_signal and condition_broadcast move only sleepers, and only to `Woken`. */
  ghost predicate OnlyWakes(s: State, s2: State) {
    && s2 == s.(pcs := s2.pcs)
    && forall u :: s2.Pc(u) == s.Pc(u) || (s.Pc(u).Asleep? && s2.Pc(u) == Woken(s.Pc(u).writing))
  }

  lemma WakingKeeps(s: State, s2: State)
    requires CountersExact(s) && MutexExact(s) && OnlyWakes(s, s2)
    requires forall g :: |Members(s2.pcs, g)| == |Members(s.pcs, g)|
    ensures CountersExact(s2) && MutexExact(s2)
  {
  }

  /** condition_signal wakes at most one writer and changes no group. */
  lemma SignalOnlyWakes(s: State, chosen: Thread)
    requires CountersExact(s) && MutexExact(s)
    ensures OnlyWakes(s, SignalWrite(s, chosen))
    ensures CountersExact(SignalWrite(s, chosen)) && MutexExact(SignalWrite(s, chosen))
  {
    SignalKeeps(s, chosen);
    WakingKeeps(s, SignalWrite(s, chosen));
  }

  lemma BroadcastOnlyWakes(s: State)
    requires CountersExact(s) && MutexExact(s)
    ensures OnlyWakes(s, BroadcastRead(s))
    ensures CountersExact(BroadcastRead(s)) && MutexExact(BroadcastRead(s))
  {
    BroadcastKeeps(s);
    WakingKeeps(s, BroadcastRead(s));
  }

  /** The last reader leaves, and a writer waits. */
  lemma ReadUnlockToWriter(s: State, t: Thread, chosen: Thread)
    requires Inv(s) && Enabled(s, Section(t, chosen)) && s.Pc(t) == In(ReadUnlock) && s.rActive == 1 && s.wWait > 0
    ensures Inv(ReadUnlockSection(s, t, chosen))
  {
    var s2 := ReadUnlockSection(s, t, chosen);
    Counted(s, t, Reading);
    SignalOnlyWakes(s, chosen);
    MoveKeeps(SignalWrite(s, chosen), t, Out(Nothing), s2);
    var w := SignalWakes(s, chosen);
    assert Awake(s2.Pc(w));
  }

  /** The caller goes on its way out with nothing held, and its call will return 0. */
  predicate LeavesOk(s: State, s2: State, t: Thread) {
    s2.Pc(t) == Out(Nothing) && s2.returned == s.returned[t := Ok]
  }

  /** A reader wakes one writer if it was the last reader and a writer sleeps, and nobody else. */
  lemma ReadUnlockWakes(s: State, t: Thread, chosen: Thread, u: Thread)
    requires Inv(s) && Enabled(s, Section(t, chosen)) && s.Pc(t) == In(ReadUnlock) && u != t
    ensures ReadUnlockSection(s, t, chosen).Pc(u) ==
            if Members(s.pcs, Reading) == {t} && s.Pc(u) == Asleep(true) && u == chosen then Woken(true) else s.Pc(u)
  {
    assert t in Members(s.pcs, Reading);
    if s.rActive == 1 { OnlyMember(Members(s.pcs, Reading), t); }
    if s.Pc(u) == Asleep(true) { Counted(s, u, WaitingToWrite); }
  }

  lemma OnlyMember(m: set<Thread>, t: Thread)
    requires t in m && |m| == 1
    ensures m == {t}
  {
    assert |m - {t}| == 0;
    assert m == (m - {t}) + {t};
  }

  /** A writer wakes all sleeping readers if a reader waits, or else one sleeping writer. */
  lemma WriteUnlockWakes(s: State, t: Thread, chosen: Thread, u: Thread)
    requires Inv(s) && Enabled(s, Section(t, chosen)) && s.Pc(t) == In(WriteUnlock) && u != t
    ensures WriteUnlockSection(s, t, chosen).Pc(u) ==
            if s.Pc(u) == Asleep(false) then Woken(false)
            else if Members(s.pcs, WaitingToRead) == {} && s.Pc(u) == Asleep(true) && u == chosen then Woken(true)
            else s.Pc(u)
  {
    if s.Pc(u) == Asleep(false) { Counted(s, u, WaitingToRead); }
    if s.Pc(u) == Asleep(true) { Counted(s, u, WaitingToWrite); }
    assert Members(s.pcs, WaitingToRead) == {} <==> s.rWait == 0;
  }

  lemma ReadUnlockKeeps(s: State, t: Thread, chosen: Thread)
    requires Inv(s) && Enabled(s, Section(t, chosen)) && s.Pc(t) == In(ReadUnlock)
    ensures Inv(ReadUnlockSection(s, t, chosen))
    ensures LeavesOk(s, ReadUnlockSection(s, t, chosen), t)
  {
    var s2 := ReadUnlockSection(s, t, chosen);
    Counted(s, t, Reading);
    if s.rActive == 1 && s.wWait > 0 {
      ReadUnlockToWriter(s, t, chosen);
    } else {
      MoveKeeps(s, t, Out(Nothing), s2);
      if s.rWait > 0 {
        var r := WaiterIsSomewhere(s, WaitingToRead);
        assert Awake(s2.Pc(r));
      }
    }
  }

  /** The unlocking writer that finds readers waiting. */
  lemma WriteUnlockToReaders(s: State, t: Thread, chosen: Thread)
    requires Inv(s) && s.Pc(t) == In(WriteUnlock) && s.rWait > 0
    ensures Inv(WriteUnlockSection(s, t, chosen))
    ensures LeavesOk(s, WriteUnlockSection(s, t, chosen), t)
  {
    var s2 := WriteUnlockSection(s, t, chosen);
    Counted(s, t, Writing);
    BroadcastOnlyWakes(s);
    MoveKeeps(BroadcastRead(s), t, Out(Nothing), s2);
    var r := WaiterIsSomewhere(s, WaitingToRead);
    assert Awake(s2.Pc(r));
  }

  lemma NoReaderAsleep(s: State)
    requires s.rWait <= 0 && s.rWait == |Members(s.pcs, WaitingToRead)|
    ensures forall u :: s.Pc(u) != Asleep(false)
  {
    forall u ensures s.Pc(u) != Asleep(false) {
      if s.Pc(u) == Asleep(false) { Counted(s, u, WaitingToRead); }
    }
  }

  /** The writer leaves, no reader waits, and a writer does. */
  lemma WriterHandsOver(s: State, t: Thread, chosen: Thread)
    requires Inv(s) && Enabled(s, Section(t, chosen)) && s.Pc(t) == In(WriteUnlock) && s.rWait <= 0 && s.wWait > 0
    ensures Inv(WriteUnlockSection(s, t, chosen))
  {
    var s2 := WriteUnlockSection(s, t, chosen);
    Counted(s, t, Writing);
    NoReaderAsleep(s);
    SignalOnlyWakes(s, chosen);
    MoveKeeps(SignalWrite(s, chosen), t, Out(Nothing), s2);
    var w := SignalWakes(s, chosen);
    assert Awake(s2.Pc(w));
  }

  /** The unlocking writer that finds no reader waiting. */
  lemma WriteUnlockToWriter(s: State, t: Thread, chosen: Thread)
    requires Inv(s) && Enabled(s, Section(t, chosen)) && s.Pc(t) == In(WriteUnlock) && s.rWait <= 0
    ensures Inv(WriteUnlockSection(s, t, chosen))
    ensures LeavesOk(s, WriteUnlockSection(s, t, chosen), t)
  {
    if s.wWait > 0 {
      WriterHandsOver(s, t, chosen);
    } else {
      Counted(s, t, Writing);
      NoReaderAsleep(s);
      MoveKeeps(s, t, Out(Nothing), WriteUnlockSection(s, t, chosen));
    }
  }

  lemma StepKeeps(s: State, step: Step)
    requires Inv(s) && Enabled(s, step)
    ensures Inv(Apply(s, step))
  {
    match step
    case Call(t, op) => CallKeeps(s, t, op);
    case Lock(t) => LockKeeps(s, t);
    case Unlock(t) => UnlockKeeps(s, t);
    case SpuriousWakeup(t) => SpuriousKeeps(s, t);
    case Clear(t) => ClearKeeps(s, t);
    case Section(t, chosen) =>
      match s.Pc(t) {
        case Recheck(writing) =>
          if writing { WriteRecheckKeeps(s, t); } else { ReadRecheckKeeps(s, t); }
        case In(op) => match op {
          case ReadLock => ReadLockKeeps(s, t);
          case ReadTry => ReadTryKeeps(s, t);
          case ReadUnlock => ReadUnlockKeeps(s, t, chosen);
          case WriteLock => WriteLockKeeps(s, t);
          case WriteTry => WriteTryKeeps(s, t);
          case WriteUnlock =>
            if s.rWait > 0 { WriteUnlockToReaders(s, t, chosen); } else { WriteUnlockToWriter(s, t, chosen); }
          case Destroy => DestroyKeeps(s, t);
        }
        case _ => assert false;
      }
  }

  lemma {:induction false} RunKeeps(s: State, run: seq<Step>)
    requires Inv(s) && IsRun(s, run)
    ensures Inv(After(s, run))
    decreases |run|
  {
    if run != [] {
      StepKeeps(s, run[0]);
      RunKeeps(Apply(s, run[0]), run[1..]);
    }
  }

  lemma InitialInv()
    ensures Inv(INIT)
  {
    assert forall g :: Members(INIT.pcs, g) == {};
  }

  // ----- what holds of a destroyed lock -----

  /** Past the test of `valid` in an unlock call. */
  predicate Releasing(pc: Pc) {
    pc in {Want(ReadUnlock), In(ReadUnlock), Want(WriteUnlock), In(WriteUnlock)}
  }

  /** Only a destroyed lock is cleared; nobody gives a destroyed lock back, and who waits on it waits
      behind a holder. */
  ghost predicate Shut(s: State) {
    && (s.cleared ==> !s.valid)
    && (forall t :: s.Pc(t).Leaving? || s.Pc(t).Clearing? ==> !s.valid)
    && (!s.valid ==>
          && (forall t :: !Releasing(s.Pc(t)))
          && (s.rWait > 0 ==> s.wActive) && (s.wWait > 0 ==> Busy(s)))
  }

  /** A section that wakes nobody moves its own thread only. */
  lemma OnlyItsOwn(s: State, t: Thread, chosen: Thread, u: Thread)
    requires s.Pc(t) != In(ReadUnlock) && s.Pc(t) != In(WriteUnlock) && t != u
    ensures RunSection(s, t, chosen).Pc(u) == s.Pc(u)
  {
  }

  lemma DestroyShuts(s: State, t: Thread)
    requires Inv(s) && Shut(s) && s.Pc(t) == In(Destroy)
    ensures Shut(DestroySection(s, t))
  {
    assert forall u :: u != t ==> DestroySection(s, t).Pc(u) == s.Pc(u);
    if !Busy(s) && s.rWait == 0 && s.wWait == 0 {
      forall u ensures !Releasing(s.Pc(u)) {
        if Member(s.Pc(u), Reading) { Counted(s, u, Reading); }
        if Member(s.Pc(u), Writing) { Counted(s, u, Writing); }
      }
    }
  }

  /** As long as the lock is valid only leaving threads matter, and waking makes none. */
  lemma StaysValid(s: State, t: Thread, s2: State)
    requires Shut(s) && s.valid && s2.valid && !s2.cleared && !s2.Pc(t).Leaving? && !s2.Pc(t).Clearing?
    requires forall u :: u != t ==> s2.Pc(u) == s.Pc(u) || s2.Pc(u).Woken?
    ensures Shut(s2)
  {
    forall u ensures !s2.Pc(u).Leaving? && !s2.Pc(u).Clearing? {
      assert s.Pc(u) == s.Pc(u);
    }
  }

  lemma ReleaseShuts(s: State, t: Thread, chosen: Thread)
    requires Shut(s) && (s.Pc(t) == In(ReadUnlock) || s.Pc(t) == In(WriteUnlock))
    ensures Shut(RunSection(s, t, chosen))
  {
    assert Releasing(s.Pc(t));
    StaysValid(s, t, RunSection(s, t, chosen));
  }

  /** A thread that asks for the lock. */
  lemma AskingShuts(s: State, t: Thread, chosen: Thread)
    requires Inv(s) && Shut(s) && s.Pc(t).In? && !Releasing(s.Pc(t)) && s.Pc(t) != In(Destroy)
    ensures Shut(RunSection(s, t, chosen))
  {
    if s.valid { AskingKeepsValid(s, t, chosen); } else { AskingInVain(s, t, chosen); }
  }

  lemma AskingKeepsValid(s: State, t: Thread, chosen: Thread)
    requires Inv(s) && Shut(s) && s.Pc(t).In? && !Releasing(s.Pc(t)) && s.Pc(t) != In(Destroy) && s.valid
    ensures Shut(RunSection(s, t, chosen))
  {
    var s2 := RunSection(s, t, chosen);
    forall u | u != t ensures s2.Pc(u) == s.Pc(u) { OnlyItsOwn(s, t, chosen, u); }
    StaysValid(s, t, s2);
  }

  lemma AskingInVain(s: State, t: Thread, chosen: Thread)
    requires Inv(s) && Shut(s) && s.Pc(t).In? && !Releasing(s.Pc(t)) && s.Pc(t) != In(Destroy) && !s.valid
    ensures Shut(RunSection(s, t, chosen))
  {
    var s2 := RunSection(s, t, chosen);
    forall u | u != t ensures s2.Pc(u) == s.Pc(u) { OnlyItsOwn(s, t, chosen, u); }
    NobodyReleases(s, t, s2);
  }

  /** A thread that asks again. */
  lemma RecheckShuts(s: State, t: Thread, chosen: Thread)
    requires Inv(s) && Shut(s) && s.Pc(t).Recheck?
    ensures Shut(RunSection(s, t, chosen))
  {
    var s2 := RunSection(s, t, chosen);
    forall u | u != t ensures s2.Pc(u) == s.Pc(u) { OnlyItsOwn(s, t, chosen, u); }
    if s.valid {
      StaysValid(s, t, s2);
    } else {
      Counted(s, t, if s.Pc(t).writing then WaitingToWrite else WaitingToRead);
      NobodyReleases(s, t, s2);
    }
  }

  lemma NobodyReleases(s: State, t: Thread, s2: State)
    requires Shut(s) && !s.valid && !s2.valid && !Releasing(s2.Pc(t))
    requires forall u :: u != t ==> s2.Pc(u) == s.Pc(u)
    requires (s2.rWait > 0 ==> s2.wActive) && (s2.wWait > 0 ==> Busy(s2))
    ensures Shut(s2)
  {
    forall u ensures !Releasing(s2.Pc(u)) {
      if u != t { assert !Releasing(s.Pc(u)); }
    }
  }

  lemma ShutKeeps(s: State, step: Step)
    requires Inv(s) && Shut(s) && Enabled(s, step)
    ensures Shut(Apply(s, step))
  {
    if step.Section? {
      if s.Pc(step.t) == In(Destroy) {
        DestroyShuts(s, step.t);
      } else if Releasing(s.Pc(step.t)) {
        ReleaseShuts(s, step.t, step.chosen);
      } else if s.Pc(step.t).Recheck? {
        RecheckShuts(s, step.t, step.chosen);
      } else {
        AskingShuts(s, step.t, step.chosen);
      }
    } else {
      assert forall u :: u != step.t ==> Apply(s, step).Pc(u) == s.Pc(u);
    }
  }

  lemma {:induction false} RunShut(s: State, run: seq<Step>)
    requires Inv(s) && Shut(s) && IsRun(s, run)
    ensures Inv(After(s, run)) && Shut(After(s, run))
    decreases |run|
  {
    if run != [] {
      StepKeeps(s, run[0]);
      ShutKeeps(s, run[0]);
      RunShut(Apply(s, run[0]), run[1..]);
    }
  }

  lemma ReachableIsShut(past: seq<Step>)
    requires IsRun(INIT, past)
    ensures Inv(After(INIT, past)) && Shut(After(INIT, past))
  {
    InitialInv();
    RunShut(INIT, past);
  }

  // ----- what holds in every reachable state -----

  /** Every run keeps the counters exact and writers alone: if some thread holds for writing, no
      other thread holds in either mode, and at most one thread owns the mutex. */
  lemma MutualExclusion(run: seq<Step>, t: Thread, u: Thread)
    requires IsRun(INIT, run) && t != u
    ensures var s := After(INIT, run);
      && s.rActive == |Members(s.pcs, Reading)|
      && (s.wActive <==> Members(s.pcs, Writing) != {})
      && s.rWait == |Members(s.pcs, WaitingToRead)|
      && s.wWait == |Members(s.pcs, WaitingToWrite)|
      && (Member(s.Pc(t), Writing) ==> !Member(s.Pc(u), Writing) && !Member(s.Pc(u), Reading))
      && !(Owning(s.Pc(t)) && Owning(s.Pc(u)))
  {
    InitialInv();
    RunKeeps(INIT, run);
    var s := After(INIT, run);
    if Member(s.Pc(t), Writing) {
      Counted(s, t, Writing);
      AloneInGroup(s, t, u, Writing);
      if Member(s.Pc(u), Reading) { Counted(s, u, Reading); }
    }
  }

  lemma AloneInGroup(s: State, t: Thread, u: Thread, g: Group)
    requires Member(s.Pc(t), g) && |Members(s.pcs, g)| <= 1 && t != u
    ensures !Member(s.Pc(u), g)
  {
    if Member(s.Pc(u), g) {
      assert {t, u} <= Members(s.pcs, g);
      assert |{t, u}| == 2;
      SubsetSize({t, u}, Members(s.pcs, g));
    }
  }

  lemma {:induction false} SubsetSize(a: set<Thread>, b: set<Thread>)
    requires a <= b
    ensures |a| <= |b|
  {
    if a != {} {
      var x :| x in a;
      SubsetSize(a - {x}, b - {x});
    }
  }

  /** No lost wakeup: in every reachable state with the lock free and a thread waiting, some
      waiter has been woken and not yet rechecked; and no reader ever sleeps without an active
      writer. */
  lemma NoWakeupIsLost(run: seq<Step>, waiter: Thread)
    requires IsRun(INIT, run)
    requires Member(After(INIT, run).Pc(waiter), WaitingToRead) || Member(After(INIT, run).Pc(waiter), WaitingToWrite)
    ensures var s := After(INIT, run);
      && (Free(s) ==> exists t :: Awake(s.Pc(t)))
      && (s.Pc(waiter) == Asleep(false) ==> s.wActive)
  {
    InitialInv();
    RunKeeps(INIT, run);
    var s := After(INIT, run);
    if Member(s.Pc(waiter), WaitingToRead) {
      Counted(s, waiter, WaitingToRead);
    } else {
      Counted(s, waiter, WaitingToWrite);
    }
  }

  // ----- progress -----

  predicate Holds(s: State, t: Thread) {
    Member(s.Pc(t), Reading) || Member(s.Pc(t), Writing)
  }

  /** Steps that need nobody's goodwill: no new call and no spurious wakeup. */
  predicate Unprompted(step: Step) {
    step.Lock? || step.Section? || step.Unlock?
  }

  /** With the lock free, the owner of the mutex in front of a recheck or a lock section gets in. */
  lemma RecheckEnters(s: State, w: Thread)
    requires Inv(s) && Free(s) && !s.cleared && s.Pc(w).Recheck?
    ensures Enabled(s, Section(w, 0)) && Holds(Apply(s, Section(w, 0)), w)
  {
  }

  /** With the lock and the mutex free, an awake waiter gets in after two steps. */
  lemma WokenEnters(s: State, w: Thread)
    requires Inv(s) && Free(s) && !s.cleared && s.owner == {} && Awake(s.Pc(w))
    ensures IsRun(s, [Lock(w), Section(w, 0)]) && Holds(After(s, [Lock(w), Section(w, 0)]), w)
  {
    var run := [Lock(w), Section(w, 0)];
    var s1 := Apply(s, run[0]);
    assert s.Pc(w).Woken?;
    LockKeeps(s, w);
    RecheckEnters(s1, w);
    assert run[1..] == [Section(w, 0)] && run[1..][1..] == [];
    assert After(s1, run[1..]) == Apply(s1, Section(w, 0));
  }

  lemma Prefixed(s: State, step: Step, run: seq<Step>)
    requires Enabled(s, step) && IsRun(Apply(s, step), run)
    ensures IsRun(s, [step] + run) && After(s, [step] + run) == After(Apply(s, step), run)
  {
    assert ([step] + run)[1..] == run;
  }

  /** No thread is stuck: in every reachable state with the lock free and some thread waiting, without
      any further call and without any spurious wakeup some thread comes to hold the lock. */
  lemma NobodyIsStuck(past: seq<Step>, waiter: Thread) returns (run: seq<Step>, t: Thread)
    requires IsRun(INIT, past) && Free(After(INIT, past))
    requires Member(After(INIT, past).Pc(waiter), WaitingToRead) || Member(After(INIT, past).Pc(waiter), WaitingToWrite)
    ensures IsRun(After(INIT, past), run) && (forall i :: 0 <= i < |run| ==> Unprompted(run[i]))
    ensures Holds(After(After(INIT, past), run), t)
  {
    NoWakeupIsLost(past, waiter);
    InitialInv();
    RunKeeps(INIT, past);
    var s := After(INIT, past);
    ReachableIsShut(past);
    if Member(s.Pc(waiter), WaitingToRead) {
      Counted(s, waiter, WaitingToRead);
    } else {
      Counted(s, waiter, WaitingToWrite);
    }
    assert s.valid && !s.cleared;
    if s.owner == {} {
      t :| Awake(s.Pc(t));
      WokenEnters(s, t);
      run := [Lock(t), Section(t, 0)];
    } else {
      t :| t in s.owner;
      run, t := OwnerGetsOutOfTheWay(s, t);
    }
  }

  ghost predicate SomeoneGetsIn(s: State) {
    exists run, t :: IsRun(s, run) && Holds(After(s, run), t)
  }

  lemma OwnerLeaves(s: State, o: Thread) returns (run: seq<Step>, t: Thread)
    requires Inv(s) && Free(s) && !s.cleared && s.rWait + s.wWait > 0 && (s.Pc(o).Out? || s.Pc(o).Leaving?)
    ensures IsRun(s, run) && (forall i :: 0 <= i < |run| ==> Unprompted(run[i]))
    ensures Holds(After(s, run), t)
  {
    UnlockKeeps(s, o);
    var s1 := Apply(s, Unlock(o));
    t :| Awake(s1.Pc(t));
    WokenEnters(s1, t);
    run := [Lock(t), Section(t, 0)];
    Prefixed(s, Unlock(o), run);
    run := [Unlock(o)] + run;
  }

  lemma OwnerGetsOutOfTheWay(s: State, o: Thread) returns (run: seq<Step>, t: Thread)
    requires Inv(s) && Free(s) && !s.cleared && s.rWait + s.wWait > 0 && Owning(s.Pc(o))
    ensures IsRun(s, run) && (forall i :: 0 <= i < |run| ==> Unprompted(run[i]))
    ensures Holds(After(s, run), t)
  {
    var step := Section(o, 0);
    if s.Pc(o).Out? || s.Pc(o).Leaving? {
      run, t := OwnerLeaves(s, o);
    } else if s.Pc(o) == In(Destroy) {
      DestroyKeeps(s, o);
      run, t := OwnerLeaves(Apply(s, step), o);
      Prefixed(s, step, run);
      run := [step] + run;
    } else {
      if s.Pc(o) == In(ReadUnlock) { Counted(s, o, Reading); }
      if s.Pc(o) == In(WriteUnlock) { Counted(s, o, Writing); }
      t := o;
      Prefixed(s, step, []);
      run := [step] + [];
      assert Holds(Apply(s, step), o);
    }
  }

  // ----- destroy -----

  /** In every reachable state, a destroy about to run its section succeeds exactly when no thread
      holds the lock and none waits for it; otherwise it reports EBUSY and changes nothing. */
  lemma DestroyIffUnused(run: seq<Step>, t: Thread)
    requires IsRun(INIT, run) && After(INIT, run).Pc(t) == In(Destroy)
    ensures var s := After(INIT, run); var s2 := Apply(s, Section(t, 0));
      && t in s2.returned
      && (s2.returned[t] == Ok <==> forall g :: Members(s.pcs, g) == {})
      && (s2.returned[t] == Ok ==> !s2.valid)
      && (s2.returned[t] != Ok ==> s2.returned[t] == Ebusy && s2.valid == s.valid)
  {
    InitialInv();
    RunKeeps(INIT, run);
    var s := After(INIT, run);
    assert forall g :: |Members(s.pcs, g)| == 0 <==> Members(s.pcs, g) == {};
    if !Busy(s) && s.rWait == 0 && s.wWait == 0 {
      forall g ensures Members(s.pcs, g) == {} {
        match g
        case Reading => case Writing => case WaitingToRead => case WaitingToWrite =>
      }
    } else {
      assert Members(s.pcs, Reading) != {} || Members(s.pcs, Writing) != {}
          || Members(s.pcs, WaitingToRead) != {} || Members(s.pcs, WaitingToWrite) != {};
    }
  }

  /** A thread that tested `valid` before the destroy and has not taken the mutex yet. */
  predicate Late(pc: Pc) {
    pc in {Want(ReadLock), Want(ReadTry), Want(WriteLock), Want(WriteTry)}
  }

  predicate Quiet(pc: Pc) {
    pc in {Rest(Nothing), Out(Nothing), Want(Destroy), In(Destroy), Leaving, Clearing}
  }

  /** A destroyed lock that nobody was entering stays out of use. */
  lemma {:induction false} QuietStays(s: State, run: seq<Step>)
    requires !s.valid && (forall u :: Quiet(s.Pc(u))) && IsRun(s, run)
    ensures var s2 := After(s, run); !s2.valid && forall u :: Quiet(s2.Pc(u))
    decreases |run|
  {
    if run != [] {
      var s1 := Apply(s, run[0]);
      assert forall u :: Quiet(s1.Pc(u)) by {
        assert Quiet(s.Pc(run[0].t));
        assert forall u :: u != run[0].t ==> s1.Pc(u) == s.Pc(u);
      }
      QuietStays(s1, run[1..]);
    }
  }

  /** The state in which a destroy has just succeeded. */
  ghost predicate JustDestroyed(s: State, past: seq<Step>, d: Thread) {
    && IsRun(INIT, past) && After(INIT, past).Pc(d) == In(Destroy) && Enabled(After(INIT, past), Section(d, 0))
    && s == Apply(After(INIT, past), Section(d, 0))
    && d in s.returned && s.returned[d] == Ok
  }

  lemma LateOrQuietPc(pc: Pc)
    requires !Owning(pc) && forall g :: !Member(pc, g)
    ensures Late(pc) || Quiet(pc)
  {
    assert !Member(pc, Reading) && !Member(pc, Writing) && !Member(pc, WaitingToRead) && !Member(pc, WaitingToWrite);
    match pc
    case Rest(mode) => assert mode == Nothing;
    case Out(mode) => assert false;
    case Want(op) => match op { case ReadUnlock => assert false; case WriteUnlock => assert false; case _ => }
    case Asleep(writing) => if writing { assert false; } else { assert false; }
    case Woken(writing) => if writing { assert false; } else { assert false; }
    case _ =>
  }

  lemma LateOrQuiet(s: State, past: seq<Step>, d: Thread)
    requires JustDestroyed(s, past, d)
    ensures !s.valid && Inv(s) && Free(s) && !s.cleared && s.Pc(d) == Leaving
    ensures forall u :: Late(s.Pc(u)) || Quiet(s.Pc(u))
  {
    DestroyIffUnused(past, d);
    InitialInv();
    RunKeeps(INIT, past);
    DestroyKeeps(After(INIT, past), d);
    forall u ensures Late(s.Pc(u)) || Quiet(s.Pc(u)) {
      forall g ensures !Member(s.Pc(u), g) {
        assert u !in Members(After(INIT, past).pcs, g);
      }
      if u != d {
        assert d in s.owner && u !in s.owner;
        LateOrQuietPc(s.Pc(u));
      }
    }
  }

  /** A late thread takes the mutex after the destroyer released it and before it clears it, and enters. */
  lemma LateEnters(s: State, d: Thread, u: Thread) returns (run: seq<Step>)
    requires Inv(s) && Free(s) && !s.cleared && s.Pc(d) == Leaving && Late(s.Pc(u))
    ensures IsRun(s, run) && Holds(After(s, run), u)
  {
    var s1 := Apply(s, Unlock(d));
    var s2 := Apply(s1, Lock(u));
    assert Enabled(s1, Lock(u));
    assert Enabled(s2, Section(u, 0)) && Holds(Apply(s2, Section(u, 0)), u);
    run := [Section(u, 0)] + [];
    Prefixed(s2, Section(u, 0), []);
    Prefixed(s1, Lock(u), run);
    run := [Lock(u)] + run;
    Prefixed(s, Unlock(d), run);
    run := [Unlock(d)] + run;
  }

  /** `valid` is tested outside the mutex, so a successful destroy does not by itself keep threads
      out: one can still come to hold the destroyed lock if and only if it had passed the test and
      was waiting for the mutex when the destroy succeeded. It gets in between mutex_unlock and
      mutex_clear; what happens to threads that use the mutex after that is not determined. */
  lemma DestroyKeepsOutIff(s: State, past: seq<Step>, d: Thread)
    requires JustDestroyed(s, past, d)
    ensures SomeoneGetsIn(s) <==> exists u :: Late(s.Pc(u))
  {
    LateOrQuiet(s, past, d);
    if u :| Late(s.Pc(u)) {
      var run := LateEnters(s, d, u);
      assert SomeoneGetsIn(s);
    } else {
      NobodyGetsIn(s);
    }
  }

  lemma NobodyGetsIn(s: State)
    requires !s.valid && forall u :: Quiet(s.Pc(u))
    ensures !SomeoneGetsIn(s)
  {
    forall run, t | IsRun(s, run) ensures !Holds(After(s, run), t) {
      QuietStays(s, run);
      assert Quiet(After(s, run).Pc(t));
    }
  }

  /** It does happen: thread 1 passes the test, thread 2 destroys the lock and releases the mutex, and
      before it clears the mutex thread 1 holds a lock on which its unlock reports EINVAL. */
  lemma DestroyRace() returns (run: seq<Step>)
    ensures IsRun(INIT, run)
    ensures var s := After(INIT, run);
      !s.valid && !s.cleared && s.Pc(1) == Rest(ForRead) && 1 in s.returned && s.returned[1] == Einval
  {
    var s1 := Apply(INIT, Call(1, ReadLock));
    var s2 := Apply(s1, Call(2, Destroy));
    var s3 := Apply(s2, Lock(2));
    var s4 := Apply(s3, Section(2, 0));
    assert !s4.valid && s4.Pc(1) == Want(ReadLock) && s4.owner == {2} && Free(s4);
    run := LateThreadCannotLeave(s4);
    Prefixed(s3, Section(2, 0), run);
    run := [Section(2, 0)] + run;
    Prefixed(s2, Lock(2), run);
    run := [Lock(2)] + run;
    Prefixed(s1, Call(2, Destroy), run);
    run := [Call(2, Destroy)] + run;
    Prefixed(INIT, Call(1, ReadLock), run);
    run := [Call(1, ReadLock)] + run;
  }

  lemma LateThreadCannotLeave(s4: State) returns (run: seq<Step>)
    requires !s4.valid && s4.Pc(1) == Want(ReadLock) && s4.Pc(2) == Leaving && s4.owner == {2} && Free(s4)
    requires !s4.cleared
    ensures IsRun(s4, run)
    ensures var s := After(s4, run);
      !s.valid && !s.cleared && s.Pc(1) == Rest(ForRead) && 1 in s.returned && s.returned[1] == Einval
  {
    var s5 := Apply(s4, Unlock(2));
    var s6 := Apply(s5, Lock(1));
    var s7 := Apply(s6, Section(1, 0));
    var s8 := Apply(s7, Unlock(1));
    run := [Call(1, ReadUnlock)] + [];
    Prefixed(s8, Call(1, ReadUnlock), []);
    Prefixed(s7, Unlock(1), run);
    run := [Unlock(1)] + run;
    Prefixed(s6, Section(1, 0), run);
    run := [Section(1, 0)] + run;
    Prefixed(s5, Lock(1), run);
    run := [Lock(1)] + run;
    Prefixed(s4, Unlock(2), run);
    run := [Unlock(2)] + run;
  }

  predicate Waits(pc: Pc) {
    Member(pc, WaitingToRead) || Member(pc, WaitingToWrite)
  }

  /** One step takes no waiter in and no holder out once `valid` is 0. */
  lemma NothingMoves(s: State, step: Step, t: Thread)
    requires Inv(s) && Shut(s) && !s.valid && Enabled(s, step)
    ensures var s2 := Apply(s, step);
      && !s2.valid && (Waits(s.Pc(t)) ==> Waits(s2.Pc(t)))
      && (Member(s.Pc(t), Reading) ==> Member(s2.Pc(t), Reading))
      && (Member(s.Pc(t), Writing) ==> Member(s2.Pc(t), Writing))
  {
    assert !Releasing(s.Pc(step.t)) && !Releasing(s.Pc(t));
    if step.t == t {
      OwnStepStays(s, step);
    } else if step.Section? {
      OnlyItsOwn(s, step.t, step.chosen, t);
    } else {
      assert Apply(s, step).Pc(t) == s.Pc(t);
    }
  }

  lemma OwnStepStays(s: State, step: Step)
    requires CountersExact(s) && Shut(s) && !s.valid && Enabled(s, step) && !Releasing(s.Pc(step.t))
    ensures var s2, t := Apply(s, step), step.t;
      && !s2.valid && (Waits(s.Pc(t)) ==> Waits(s2.Pc(t)))
      && (Member(s.Pc(t), Reading) ==> Member(s2.Pc(t), Reading))
      && (Member(s.Pc(t), Writing) ==> Member(s2.Pc(t), Writing))
  {
    if s.Pc(step.t) == Recheck(false) { Counted(s, step.t, WaitingToRead); }
    if s.Pc(step.t) == Recheck(true) { Counted(s, step.t, WaitingToWrite); }
  }

  lemma {:induction false} NothingMovesOn(s: State, run: seq<Step>, t: Thread)
    requires Inv(s) && Shut(s) && !s.valid && IsRun(s, run)
    ensures var s2 := After(s, run);
      && !s2.valid && (Waits(s.Pc(t)) ==> Waits(s2.Pc(t)))
      && (Member(s.Pc(t), Reading) ==> Member(s2.Pc(t), Reading))
      && (Member(s.Pc(t), Writing) ==> Member(s2.Pc(t), Writing))
    decreases |run|
  {
    if run != [] {
      NothingMoves(s, run[0], t);
      StepKeeps(s, run[0]);
      ShutKeeps(s, run[0]);
      NothingMovesOn(Apply(s, run[0]), run[1..], t);
    }
  }

  /** A thread that holds a destroyed lock holds it for ever, in the same mode, and each unlock it
      tries reports EINVAL. */
  lemma HoldersNeverLeave(past: seq<Step>, run: seq<Step>, t: Thread)
    requires IsRun(INIT, past) && !After(INIT, past).valid && IsRun(After(INIT, past), run)
    requires Holds(After(INIT, past), t)
    ensures var s, s2 := After(INIT, past), After(After(INIT, past), run);
      && (Member(s.Pc(t), Reading) ==> Member(s2.Pc(t), Reading))
      && (Member(s.Pc(t), Writing) ==> Member(s2.Pc(t), Writing))
      && forall op :: Enabled(s2, Call(t, op)) ==>
           Apply(s2, Call(t, op)) == s2.Return(t, s2.Pc(t), Einval)
  {
    ReachableIsShut(past);
    NothingMovesOn(After(INIT, past), run, t);
  }

  // ----- a waiter of a lock that is still valid -----

  lemma {:induction false} RunOn(s: State, a: seq<Step>, b: seq<Step>)
    requires IsRun(s, a) && IsRun(After(s, a), b)
    ensures IsRun(s, a + b) && After(s, a + b) == After(After(s, a), b)
    decreases |a|
  {
    if a == [] {
      assert a + b == b;
    } else {
      RunOn(Apply(s, a[0]), a[1..], b);
      assert (a + b)[1..] == a[1..] + b;
    }
  }

  lemma OneStep(s: State, step: Step)
    requires Enabled(s, step)
    ensures IsRun(s, [step]) && After(s, [step]) == Apply(s, step)
  {
    assert [step][1..] == [];
  }

  /** A valid lock with its invariants, at which `w` waits or which it holds. */
  ghost predicate Awaited(s: State, w: Thread) {
    Inv(s) && Shut(s) && s.valid && (Waits(s.Pc(w)) || Holds(s, w))
  }

  lemma SomeSection(s: State, o: Thread) returns (step: Step)
    requires !s.cleared && (s.Pc(o).In? || s.Pc(o).Recheck?)
    ensures step.Section? && step.t == o && Enabled(s, step)
  {
    var chosen := 0;
    if c :| c in Sleepers(s, true) { chosen := c; }
    step := Section(o, chosen);
  }

  /** Signals and broadcasts wake waiters and leave them waiting. */
  lemma WakingLeavesWaiting(s: State, chosen: Thread, w: Thread)
    requires Waits(s.Pc(w))
    ensures Waits(SignalWrite(s, chosen).Pc(w)) && Waits(BroadcastRead(s).Pc(w))
  {
  }

  lemma SectionOfAnother(s: State, o: Thread, chosen: Thread, w: Thread)
    requires Waits(s.Pc(w)) && o != w
    ensures Waits(RunSection(s, o, chosen).Pc(w))
  {
    if s.Pc(o) == In(ReadUnlock) {
      WakingLeavesWaiting(s.(rActive := s.rActive - 1), chosen, w);
    } else if s.Pc(o) == In(WriteUnlock) {
      WakingLeavesWaiting(s.(wActive := false), chosen, w);
    } else {
      OnlyItsOwn(s, o, chosen, w);
    }
  }

  /** The lock is not destroyed while somebody waits. */
  lemma SectionStaysValid(s: State, o: Thread, chosen: Thread, w: Thread)
    requires CountersExact(s) && s.valid && Waits(s.Pc(w))
    ensures RunSection(s, o, chosen).valid
  {
    Counted(s, w, if Member(s.Pc(w), WaitingToRead) then WaitingToRead else WaitingToWrite);
  }

  lemma OwnSection(s: State, w: Thread, chosen: Thread)
    requires s.Pc(w).Recheck?
    ensures Waits(RunSection(s, w, chosen).Pc(w)) || Holds(RunSection(s, w, chosen), w)
  {
  }

  /** A section of another thread leaves a waiter waiting; its own may let it in. */
  lemma SectionOf(s: State, o: Thread, w: Thread) returns (step: Step)
    requires Awaited(s, w) && Waits(s.Pc(w)) && (s.Pc(o).In? || s.Pc(o).Recheck?)
    ensures step.Section? && step.t == o && Enabled(s, step) && Awaited(Apply(s, step), w)
    ensures o != w ==> Waits(Apply(s, step).Pc(w))
  {
    step := SomeSection(s, o);
    StepKeeps(s, step);
    ShutKeeps(s, step);
    SectionStaysValid(s, o, step.chosen, w);
    if o == w { OwnSection(s, w, step.chosen); } else { SectionOfAnother(s, o, step.chosen, w); }
  }

  /** The owner of the mutex gives it back, or the waiter has got in. */
  lemma MutexIsFreed(s: State, o: Thread, w: Thread) returns (run: seq<Step>)
    requires Awaited(s, w) && Waits(s.Pc(w)) && o in s.owner
    ensures IsRun(s, run) && Awaited(After(s, run), w)
    ensures Holds(After(s, run), w) || After(s, run).owner == {}
  {
    if s.Pc(o).Out? {
      run := OutUnlocks(s, o, w);
    } else {
      var step := SectionOf(s, o, w);
      var s1 := Apply(s, step);
      if Holds(s1, w) || s1.owner == {} {
        OneStep(s, step);
        run := [step];
      } else {
        SectionOrSleep(s, step);
        run := OutUnlocks(s1, o, w);
        Prefixed(s, step, run);
        run := [step] + run;
      }
    }
  }

  /** A section ends on the way out or asleep. */
  lemma SectionOrSleep(s: State, step: Step)
    requires Shut(s) && s.valid && step.Section? && Enabled(s, step) && Apply(s, step).valid
    ensures Apply(s, step).owner == {} || Apply(s, step).Pc(step.t).Out?
  {
  }

  lemma OutUnlocks(s: State, o: Thread, w: Thread) returns (run: seq<Step>)
    requires Awaited(s, w) && s.Pc(o).Out?
    ensures IsRun(s, run) && Awaited(After(s, run), w) && After(s, run).owner == {}
    ensures Waits(s.Pc(w)) ==> Waits(After(s, run).Pc(w))
    ensures Active(After(s, run)) == Active(s)
  {
    run := [Unlock(o)];
    OneStep(s, Unlock(o));
    StepKeeps(s, Unlock(o));
    ShutKeeps(s, Unlock(o));
  }

  /** The number of threads that hold the lock. */
  function Active(s: State): int {
    s.rActive + One(s.wActive)
  }

  /** With the mutex free a holder leaves by its unlock call. */
  lemma HolderReleases(s: State, h: Thread, w: Thread) returns (run: seq<Step>)
    requires Awaited(s, w) && Waits(s.Pc(w)) && s.owner == {} && Holds(s, h)
    ensures IsRun(s, run) && Awaited(After(s, run), w) && Waits(After(s, run).Pc(w))
    ensures After(s, run).owner == {} && Active(After(s, run)) == Active(s) - 1
  {
    assert !Owning(s.Pc(h));
    if s.Pc(h).Rest? {
      var call := Call(h, if s.Pc(h).mode == ForRead then ReadUnlock else WriteUnlock);
      StepKeeps(s, call);
      ShutKeeps(s, call);
      run := WantedRelease(Apply(s, call), h, w);
      Prefixed(s, call, run);
      run := [call] + run;
    } else {
      run := WantedRelease(s, h, w);
    }
  }

  lemma ReleaseLowers(s: State, h: Thread, chosen: Thread)
    requires CountersExact(s) && (s.Pc(h) == In(ReadUnlock) || s.Pc(h) == In(WriteUnlock))
    ensures Active(RunSection(s, h, chosen)) == Active(s) - 1 && RunSection(s, h, chosen).Pc(h).Out?
  {
    if s.Pc(h) == In(WriteUnlock) { Counted(s, h, Writing); }
  }

  lemma WantedRelease(s: State, h: Thread, w: Thread) returns (run: seq<Step>)
    requires Awaited(s, w) && Waits(s.Pc(w)) && s.owner == {}
    requires s.Pc(h) == Want(ReadUnlock) || s.Pc(h) == Want(WriteUnlock)
    ensures IsRun(s, run) && Awaited(After(s, run), w) && Waits(After(s, run).Pc(w))
    ensures After(s, run).owner == {} && Active(After(s, run)) == Active(s) - 1
  {
    var s1 := Apply(s, Lock(h));
    StepKeeps(s, Lock(h));
    ShutKeeps(s, Lock(h));
    var step := SectionOf(s1, h, w);
    ReleaseLowers(s1, h, step.chosen);
    run := OutUnlocks(Apply(s1, step), h, w);
    Prefixed(s1, step, run);
    run := [step] + run;
    Prefixed(s, Lock(h), run);
    run := [Lock(h)] + run;
  }

  lemma {:induction false} HoldersLeave(s: State, w: Thread) returns (run: seq<Step>)
    requires Awaited(s, w) && Waits(s.Pc(w)) && s.owner == {}
    ensures IsRun(s, run) && Awaited(After(s, run), w) && Waits(After(s, run).Pc(w))
    ensures After(s, run).owner == {} && Free(After(s, run))
    decreases Active(s)
  {
    if Free(s) {
      run := [];
    } else {
      BusyIff(s);
      var h :| h in Members(s.pcs, Writing) || h in Members(s.pcs, Reading);
      run := HolderReleases(s, h, w);
      var more := HoldersLeave(After(s, run), w);
      RunOn(s, run, more);
      run := run + more;
    }
  }

  /** With lock and mutex free it gets in, woken by whatever cause. */
  lemma WaiterEnters(s: State, w: Thread) returns (run: seq<Step>)
    requires Awaited(s, w) && Waits(s.Pc(w)) && s.owner == {} && Free(s)
    ensures IsRun(s, run) && Holds(After(s, run), w)
  {
    if s.Pc(w).Asleep? {
      StepKeeps(s, SpuriousWakeup(w));
      WokenEnters(Apply(s, SpuriousWakeup(w)), w);
      run := [Lock(w), Section(w, 0)];
      Prefixed(s, SpuriousWakeup(w), run);
      run := [SpuriousWakeup(w)] + run;
    } else {
      WokenEnters(s, w);
      run := [Lock(w), Section(w, 0)];
    }
  }

  lemma WaiterGetsIn(s: State, w: Thread) returns (run: seq<Step>)
    requires Awaited(s, w) && Waits(s.Pc(w))
    ensures IsRun(s, run) && Holds(After(s, run), w)
  {
    run := [];
    if o :| o in s.owner {
      run := MutexIsFreed(s, o, w);
    }
    if !Holds(After(s, run), w) {
      var s1 := After(s, run);
      var leave := HoldersLeave(s1, w);
      var enter := WaiterEnters(After(s1, leave), w);
      RunOn(s1, leave, enter);
      RunOn(s, run, leave + enter);
      run := run + (leave + enter);
    }
  }

  ghost predicate CanGetIn(s: State, w: Thread) {
    exists run :: IsRun(s, run) && Holds(After(s, run), w)
  }

  /** A thread that waits, in any reachable state, can still come to hold the lock if and only if the
      lock has not been destroyed; otherwise it waits for ever, whatever anybody does. */
  lemma WaiterGetsInIff(past: seq<Step>, w: Thread)
    requires IsRun(INIT, past) && Waits(After(INIT, past).Pc(w))
    ensures CanGetIn(After(INIT, past), w) <==> After(INIT, past).valid
    ensures !After(INIT, past).valid ==>
      forall run :: IsRun(After(INIT, past), run) ==> Waits(After(After(INIT, past), run).Pc(w))
  {
    var s := After(INIT, past);
    ReachableIsShut(past);
    if s.valid {
      var run := WaiterGetsIn(s, w);
    } else {
      forall run | IsRun(s, run) ensures Waits(After(s, run).Pc(w)) {
        NothingMovesOn(s, run, w);
      }
    }
  }

  /** It does happen: threads 1 and 2 pass the test, thread 3 destroys the lock, thread 1 enters, and
      thread 2 goes to sleep behind it. */
  lemma StrandedWaiter() returns (run: seq<Step>)
    ensures IsRun(INIT, run) && Waits(After(INIT, run).Pc(2)) && !After(INIT, run).valid
  {
    var s1 := Apply(INIT, Call(1, WriteLock));
    var s2 := Apply(s1, Call(2, WriteLock));
    var s3 := Apply(s2, Call(3, Destroy));
    var s4 := Apply(s3, Lock(3));
    var s5 := Apply(s4, Section(3, 0));
    assert !s5.valid && s5.Pc(1) == s5.Pc(2) == Want(WriteLock) && s5.Pc(3) == Leaving && s5.owner == {3} && Free(s5);
    run := SecondSleeps(s5);
    Prefixed(s4, Section(3, 0), run);
    run := [Section(3, 0)] + run;
    Prefixed(s3, Lock(3), run);
    run := [Lock(3)] + run;
    Prefixed(s2, Call(3, Destroy), run);
    run := [Call(3, Destroy)] + run;
    Prefixed(s1, Call(2, WriteLock), run);
    run := [Call(2, WriteLock)] + run;
    Prefixed(INIT, Call(1, WriteLock), run);
    run := [Call(1, WriteLock)] + run;
  }

  lemma SecondSleeps(s5: State) returns (run: seq<Step>)
    requires !s5.valid && !s5.cleared && s5.Pc(1) == s5.Pc(2) == Want(WriteLock) && s5.Pc(3) == Leaving
    requires s5.owner == {3} && Free(s5)
    ensures IsRun(s5, run) && Waits(After(s5, run).Pc(2)) && !After(s5, run).valid
  {
    var s6 := Apply(s5, Unlock(3));
    var s7 := Apply(s6, Lock(1));
    var s8 := Apply(s7, Section(1, 0));
    var s9 := Apply(s8, Unlock(1));
    var s10 := Apply(s9, Lock(2));
    OneStep(s10, Section(2, 0));
    run := [Section(2, 0)];
    Prefixed(s9, Lock(2), run);
    run := [Lock(2)] + run;
    Prefixed(s8, Unlock(1), run);
    run := [Unlock(1)] + run;
    Prefixed(s7, Section(1, 0), run);
    run := [Section(1, 0)] + run;
    Prefixed(s6, Lock(1), run);
    run := [Lock(1)] + run;
    Prefixed(s5, Unlock(3), run);
    run := [Unlock(3)] + run;
  }
}
