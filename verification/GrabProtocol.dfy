/** The hand-over of a preview frame from a camera callback to the threads waiting in grab():
    one mutex, one condition variable, and the flags wantToGrab and ready.

    Any number of threads wait and any number of callbacks run, interleaved at every lock,
    flag access, wait and notification.  Waits may end spuriously. */
module GrabProtocol {

  type Frame = seq<bv8>
  type Tid = nat

  datatype Option<T> = None | Some(value: T)

  datatype Pc =
    | Idle
    // waitForFrame
    | WantLock
    | Entered                      // holds the lock, about to make its request
    | Testing                      // holds the lock, about to test `ready`
    | Parked                       // in cv.wait, without the lock
    | Woken                        // on its way out of cv.wait, needs the lock
    // preview_buffer_callback
    | CbWantLock(frame: Frame)
    | CbEntered(frame: Frame)      // holds the lock, about to look at wantToGrab
    | CbCopied(grabbed: bool)      // holds the lock, handing buffer headers around
    | CbNotify                     // has set `ready`, about to notify
    | CbLeave                      // about to give the lock up

  /** The shared part of PORT_PREVIEW_USERDATA. */
  datatype Flags = Flags(wantToGrab: bool, ready: bool, buffer: Frame)

  /** A finished waitForFrame: the frame it found, how many frames had been copied when it made
      its request, and how many when it returned. */
  datatype Grabbed = Grabbed(tid: Tid, frame: Frame, asked: nat, got: nat)

  datatype State = State(
    lock: Option<Tid>, flags: Flags, threads: map<Tid, Pc>,
    copies: seq<Frame>,            // history: frames copied so far
    asked: map<Tid, nat>,          // history: |copies| at a thread's latest request
    grabs: seq<Grabbed>)           // history

  datatype Event =
    | StartGrab(tid: Tid)
    | StartCallback(tid: Tid, frame: Frame)
    | Run(tid: Tid)
    | Spurious(tid: Tid)

  // ------------------------------------------------------------------ steps

  function PcOf(s: State, t: Tid): Pc {
    if t in s.threads then s.threads[t] else Idle
  }

  function Goto(s: State, t: Tid, pc: Pc): State {
    s.(threads := s.threads[t := pc])
  }

  function Lock(s: State, t: Tid, pc: Pc): State {
    if s.lock == None then Goto(s, t, pc).(lock := Some(t)) else s
  }

  /** waitForFrame's request. */
  function Requested(f: Flags): Flags { f.(wantToGrab := true, ready := false) }

  predicate Takes(f: Flags, frame: Frame) { f.wantToGrab && frame != [] }

  /** What the callback does to the flags when it is offered a frame. */
  function Offered(f: Flags, frame: Frame): Flags {
    if Takes(f, frame) then f.(buffer := frame, wantToGrab := false) else f
  }

  function WakeAll(threads: map<Tid, Pc>): map<Tid, Pc> {
    map t | t in threads :: if threads[t] == Parked then Woken else threads[t]
  }

  function Step(s: State, e: Event): State {
    match e
    case StartGrab(t) => if PcOf(s, t) == Idle then Goto(s, t, WantLock) else s
    case StartCallback(t, frame) => if PcOf(s, t) == Idle then Goto(s, t, CbWantLock(frame)) else s
    case Spurious(t) => if PcOf(s, t) == Parked then Goto(s, t, Woken) else s
    case Run(t) =>
      match PcOf(s, t)
      case Idle => s
      case WantLock => Lock(s, t, Entered)
      case Entered => Goto(s, t, Testing).(flags := Requested(s.flags), asked := s.asked[t := |s.copies|])
      case Testing =>
        if s.flags.ready then
          Goto(s, t, Idle).(lock := None, grabs := s.grabs +
            [Grabbed(t, s.flags.buffer, if t in s.asked then s.asked[t] else 0, |s.copies|)])
        else Goto(s, t, Parked).(lock := None)
      case Parked => s
      case Woken => Lock(s, t, Testing)
      case CbWantLock(frame) => Lock(s, t, CbEntered(frame))
      case CbEntered(frame) =>
        Goto(s, t, CbCopied(Takes(s.flags, frame))).(flags := Offered(s.flags, frame),
          copies := if Takes(s.flags, frame) then s.copies + [frame] else s.copies)
      case CbCopied(grabbed) =>
        if grabbed then Goto(s, t, CbNotify).(flags := s.flags.(ready := true)) else Goto(s, t, CbLeave)
      case CbNotify => Goto(s.(threads := WakeAll(s.threads)), t, CbLeave)
      case CbLeave => Goto(s, t, Idle).(lock := None)
  }

  function Exec(s: State, run: seq<Event>): State
    decreases |run|
  {
    if run == [] then s else Exec(Step(s, run[0]), run[1..])
  }

  /** A fresh PORT_PREVIEW_USERDATA: the constructor clears wantToGrab only. */
  predicate Initial(s: State) {
    s.lock == None && !s.flags.wantToGrab && s.threads == map[] && s.copies == [] && s.asked == map[] && s.grabs == []
  }

  // -------------------------------------------------------------- invariant

  predicate Holding(pc: Pc) {
    pc.Entered? || pc.Testing? || pc.CbEntered? || pc.CbCopied? || pc.CbNotify? || pc.CbLeave?
  }

  predicate Waiting(pc: Pc) { pc.Testing? || pc.Parked? || pc.Woken? }

  function HolderPc(s: State): Pc {
    if s.lock == None then Idle else PcOf(s, s.lock.value)
  }

  ghost predicate Exclusive(s: State) {
    forall t :: t in s.threads ==> (Holding(s.threads[t]) <==> s.lock == Some(t))
  }

  /** While anybody waits there is a request, or a frame already announced, or one just copied. */
  ghost predicate Wakeable(s: State) {
    && (forall t :: t in s.threads && Waiting(s.threads[t]) ==>
          s.flags.wantToGrab || s.flags.ready || HolderPc(s) == CbCopied(true))
    && (forall t :: t in s.threads && s.threads[t] == Parked && s.flags.ready ==> HolderPc(s) == CbNotify)
  }

  /** A frame that is announced, or about to be, was copied after every pending request. */
  ghost predicate FreshFrame(s: State) {
    forall t :: t in s.threads && Waiting(s.threads[t]) ==>
      && t in s.asked && s.asked[t] <= |s.copies|
      && (s.flags.ready || HolderPc(s) == CbCopied(true) ==> s.asked[t] < |s.copies|)
  }

  ghost predicate CopiesOk(s: State) {
    && (forall k :: 0 <= k < |s.copies| ==> s.copies[k] != [])
    && (s.copies != [] ==> s.flags.buffer == s.copies[|s.copies| - 1])
    && (forall g :: g in s.grabs ==> g.asked < g.got <= |s.copies| && g.frame == s.copies[g.got - 1])
  }

  ghost predicate Inv(s: State) {
    LockOk(s) && Wakeable(s) && FreshFrame(s) && CopiesOk(s)
  }

  /** The steps of waitForFrame. */
  predicate WaiterAt(pc: Pc) { pc.WantLock? || pc.Entered? || pc.Testing? || pc.Parked? || pc.Woken? }

  /** The holder of the lock, if any, is a thread in a critical section, and only it is. */
  ghost predicate LockOk(s: State) {
    Exclusive(s) && (s.lock.Some? ==> s.lock.value in s.threads)
  }

  lemma WaiterKeepsLock(s: State, t: Tid)
    requires LockOk(s) && WaiterAt(PcOf(s, t))
    ensures LockOk(Step(s, Run(t)))
  {
  }

  lemma CallbackKeepsLock(s: State, t: Tid)
    requires LockOk(s) && !WaiterAt(PcOf(s, t))
    ensures LockOk(Step(s, Run(t)))
  {
  }

  lemma StepKeepsExclusive(s: State, e: Event)
    requires LockOk(s)
    ensures LockOk(Step(s, e))
  {
    if e.Run? {
      if WaiterAt(PcOf(s, e.tid)) { WaiterKeepsLock(s, e.tid); } else { CallbackKeepsLock(s, e.tid); }
    }
  }

  lemma WaiterKeepsWakeable(s: State, t: Tid)
    requires Inv(s) && WaiterAt(PcOf(s, t))
    ensures Wakeable(Step(s, Run(t)))
  {
  }

  lemma CallbackKeepsWakeable(s: State, t: Tid)
    requires Inv(s) && !WaiterAt(PcOf(s, t))
    ensures Wakeable(Step(s, Run(t)))
  {
  }

  lemma StepKeepsWakeable(s: State, e: Event)
    requires Inv(s)
    ensures Wakeable(Step(s, e))
  {
    if e.Run? {
      if WaiterAt(PcOf(s, e.tid)) { WaiterKeepsWakeable(s, e.tid); } else { CallbackKeepsWakeable(s, e.tid); }
    }
  }

  lemma WaiterKeepsFresh(s: State, t: Tid)
    requires Inv(s) && WaiterAt(PcOf(s, t))
    ensures FreshFrame(Step(s, Run(t)))
  {
  }

  lemma CallbackKeepsFresh(s: State, t: Tid)
    requires Inv(s) && !WaiterAt(PcOf(s, t))
    ensures FreshFrame(Step(s, Run(t)))
  {
  }

  lemma StepKeepsFresh(s: State, e: Event)
    requires Inv(s)
    ensures FreshFrame(Step(s, e))
  {
    if e.Run? {
      if WaiterAt(PcOf(s, e.tid)) { WaiterKeepsFresh(s, e.tid); } else { CallbackKeepsFresh(s, e.tid); }
    }
  }

  lemma StepKeepsCopies(s: State, e: Event)
    requires Inv(s)
    ensures CopiesOk(Step(s, e))
  {
  }

  lemma StepKeepsInv(s: State, e: Event)
    requires Inv(s)
    ensures Inv(Step(s, e))
  {
    StepKeepsExclusive(s, e);
    StepKeepsWakeable(s, e);
    StepKeepsFresh(s, e);
    StepKeepsCopies(s, e);
  }

  lemma {:induction false} ExecKeepsInv(s: State, run: seq<Event>)
    requires Inv(s)
    ensures Inv(Exec(s, run))
    decreases |run|
  {
    if run != [] {
      StepKeepsInv(s, run[0]);
      ExecKeepsInv(Step(s, run[0]), run[1..]);
    }
  }

  // ---------------------------------------------------------------- results

  /** No wake-up is lost: whenever the lock is free, a parked thread's request still stands, so
      the next non-empty frame will be copied for it. */
  lemma NoLostWakeup(s: State, run: seq<Event>, t: Tid)
    requires Initial(s) && Exec(s, run).lock == None && PcOf(Exec(s, run), t) == Parked
    ensures Exec(s, run).flags.wantToGrab && !Exec(s, run).flags.ready
  {
    ExecKeepsInv(s, run);
  }

  /** Every grab that returns has found a non-empty frame that was copied after the grab made
      its request, and it is the latest one copied. */
  lemma GrabsAreFresh(s: State, run: seq<Event>)
    requires Initial(s)
    ensures var q := Exec(s, run);
            forall g :: g in q.grabs ==>
              g.frame != [] && g.asked < g.got <= |q.copies| && g.frame == q.copies[g.got - 1]
  {
    ExecKeepsInv(s, run);
  }

  /** One thread at a time is in a critical section. */
  lemma MutualExclusion(s: State, run: seq<Event>, t: Tid, u: Tid)
    requires Initial(s) && Holding(PcOf(Exec(s, run), t)) && Holding(PcOf(Exec(s, run), u))
    ensures t == u
  {
    ExecKeepsInv(s, run);
  }

  /** Steps of threads other than c. */
  predicate Others(run: seq<Event>, c: Tid) { Run(c) !in run }

  predicate InWait(pc: Pc) { pc.Parked? || pc.Woken? }

  /** From s to q nothing has got past the lock that c holds: the shared fields are the same, and of
      the waiting threads some may have woken by themselves. */
  ghost predicate HeldOff(s: State, q: State, c: Tid) {
    && q.lock == Some(c) && q.flags == s.flags && q.copies == s.copies && q.grabs == s.grabs && PcOf(q, c) == PcOf(s, c)
    && (forall t :: t in s.threads && InWait(s.threads[t]) ==>
          t in q.threads && InWait(q.threads[t]) && (s.threads[t] == Woken ==> q.threads[t] == Woken))
    && (forall t :: t in q.threads && q.threads[t] == Parked ==> t in s.threads && s.threads[t] == Parked)
  }

  lemma OtherHeldOff(s: State, e: Event, c: Tid)
    requires Exclusive(s) && s.lock == Some(c) && c in s.threads && Holding(PcOf(s, c)) && e != Run(c)
    ensures HeldOff(s, Step(s, e), c)
  {
  }

  lemma {:induction false} OthersHeldOff(s: State, run: seq<Event>, c: Tid)
    requires Inv(s) && s.lock == Some(c) && Holding(PcOf(s, c)) && Others(run, c)
    ensures Inv(Exec(s, run)) && HeldOff(s, Exec(s, run), c)
    decreases |run|
  {
    if run != [] {
      assert run[0] in run && Others(run[1..], c);
      StepKeepsInv(s, run[0]);
      OtherHeldOff(s, run[0], c);
      OthersHeldOff(Step(s, run[0]), run[1..], c);
    }
  }

  /** A callback's next step, after any steps of other threads. */
  function Next(s: State, others: seq<Event>, c: Tid): State { Step(Exec(s, others), Run(c)) }

  /** A callback that holds the lock with a frame somebody wants, under any steps of any other threads
      between its own: by the time it is about to leave, the frame is the announced one and every
      thread that was parked when it began is on its way out of the wait; nobody is parked. */
  lemma CallbackServesAll(s: State, c: Tid, frame: Frame, w1: seq<Event>, w2: seq<Event>, w3: seq<Event>, w4: seq<Event>)
    requires Inv(s) && PcOf(s, c) == CbEntered(frame) && frame != []
    requires exists t :: t in s.threads && s.threads[t] == Parked
    requires Others(w1, c) && Others(w2, c) && Others(w3, c) && Others(w4, c)
    ensures var q := Exec(Next(Next(Next(s, w1, c), w2, c), w3, c), w4);
            && q.lock == Some(c) && PcOf(q, c) == CbLeave
            && q.flags == Flags(false, true, frame) && q.copies == s.copies + [frame]
            && (forall t :: t in s.threads && InWait(s.threads[t]) ==> t in q.threads && q.threads[t] == Woken)
            && (forall t :: t in q.threads ==> q.threads[t] != Parked)
  {
    var t :| t in s.threads && s.threads[t] == Parked;
    assert s.lock == Some(c) && s.flags.wantToGrab;
    var s1 := Copies(s, c, frame, w1);
    var s2 := Announces(s1, c, w2);
    var s3 := Notifies(s2, c, w3);
    OthersHeldOff(s3, w4, c);
  }

  lemma Copies(s: State, c: Tid, frame: Frame, others: seq<Event>) returns (q: State)
    requires Inv(s) && s.lock == Some(c) && PcOf(s, c) == CbEntered(frame) && Takes(s.flags, frame) && Others(others, c)
    ensures q == Next(s, others, c) && Inv(q) && q.lock == Some(c) && PcOf(q, c) == CbCopied(true)
    ensures q.flags == Offered(s.flags, frame) && q.copies == s.copies + [frame] && StillWaiting(s, q)
  {
    OthersHeldOff(s, others, c);
    StepKeepsInv(Exec(s, others), Run(c));
    q := Next(s, others, c);
  }

  lemma Announces(s: State, c: Tid, others: seq<Event>) returns (q: State)
    requires Inv(s) && s.lock == Some(c) && PcOf(s, c) == CbCopied(true) && Others(others, c)
    ensures q == Next(s, others, c) && Inv(q) && q.lock == Some(c) && PcOf(q, c) == CbNotify
    ensures q.flags == s.flags.(ready := true) && q.copies == s.copies && StillWaiting(s, q)
  {
    OthersHeldOff(s, others, c);
    StepKeepsInv(Exec(s, others), Run(c));
    q := Next(s, others, c);
  }

  lemma Notifies(s: State, c: Tid, others: seq<Event>) returns (q: State)
    requires Inv(s) && s.lock == Some(c) && PcOf(s, c) == CbNotify && Others(others, c)
    ensures q == Next(s, others, c) && Inv(q) && q.lock == Some(c) && PcOf(q, c) == CbLeave
    ensures q.flags == s.flags && q.copies == s.copies
    ensures forall t :: t in s.threads && InWait(s.threads[t]) ==> t in q.threads && q.threads[t] == Woken
    ensures forall t :: t in q.threads ==> q.threads[t] != Parked
  {
    OthersHeldOff(s, others, c);
    StepKeepsInv(Exec(s, others), Run(c));
    q := Next(s, others, c);
  }

  /** A callback whose frame is empty or not asked for, under any steps of other threads between its own:
      it changes no flag and copies nothing, wakes nobody, and gives the lock up. */
  lemma CallbackPassesBy(s: State, c: Tid, frame: Frame, w1: seq<Event>, w2: seq<Event>, w3: seq<Event>, t: Tid)
    requires Inv(s) && PcOf(s, c) == CbEntered(frame) && (frame == [] || !s.flags.wantToGrab)
    requires Others(w1, c) && Others(w2, c) && Others(w3, c)
    requires PcOf(s, t) == Parked && Spurious(t) !in w1 && Spurious(t) !in w2 && Spurious(t) !in w3
    ensures var q := Next(Next(Next(s, w1, c), w2, c), w3, c);
            && q.lock == None && PcOf(q, c) == Idle && PcOf(q, t) == Parked
            && q.flags == s.flags && q.copies == s.copies && q.grabs == s.grabs
  {
    assert s.lock == Some(c);
    var s1 := QuietMove(s, c, w1, t);
    var s2 := QuietMove(s1, c, w2, t);
    QuietLeave(s2, c, w3, t);
  }

  /** Without a spurious wake-up a parked thread stays where it is while others are held off. */
  lemma {:induction false} StaysParked(s: State, run: seq<Event>, c: Tid, t: Tid)
    requires Inv(s) && s.lock == Some(c) && Holding(PcOf(s, c)) && Others(run, c)
    requires PcOf(s, t) == Parked && Spurious(t) !in run
    ensures PcOf(Exec(s, run), t) == Parked
    decreases |run|
  {
    if run != [] {
      assert run[0] in run && Others(run[1..], c);
      StepKeepsInv(s, run[0]);
      OtherHeldOff(s, run[0], c);
      StaysParked(Step(s, run[0]), run[1..], c, t);
    }
  }

  lemma QuietMove(s: State, c: Tid, others: seq<Event>, t: Tid) returns (q: State)
    requires Inv(s) && s.lock == Some(c) && Others(others, c)
    requires PcOf(s, c) == CbCopied(false) || (PcOf(s, c).CbEntered? && !Takes(s.flags, PcOf(s, c).frame))
    requires PcOf(s, t) == Parked && Spurious(t) !in others
    ensures q == Next(s, others, c) && Inv(q) && q.lock == Some(c) && PcOf(q, t) == Parked
    ensures PcOf(q, c) == if PcOf(s, c).CbEntered? then CbCopied(false) else CbLeave
    ensures q.flags == s.flags && q.copies == s.copies && q.grabs == s.grabs
  {
    OthersHeldOff(s, others, c);
    StaysParked(s, others, c, t);
    StepKeepsInv(Exec(s, others), Run(c));
    q := Next(s, others, c);
  }

  lemma QuietLeave(s: State, c: Tid, others: seq<Event>, t: Tid)
    requires Inv(s) && s.lock == Some(c) && Others(others, c) && PcOf(s, c) == CbLeave
    requires PcOf(s, t) == Parked && Spurious(t) !in others
    ensures var q := Next(s, others, c);
            q.lock == None && PcOf(q, c) == Idle && PcOf(q, t) == Parked
            && q.flags == s.flags && q.copies == s.copies && q.grabs == s.grabs
  {
    OthersHeldOff(s, others, c);
    StaysParked(s, others, c, t);
  }

  /** A grab that has the lock asks for a frame and waits, under any steps of other threads between its own:
      at the moment it parks the request stands, nothing is announced, and the lock is free. */
  lemma GrabParks(s: State, t: Tid, w1: seq<Event>, w2: seq<Event>)
    requires Inv(s) && PcOf(s, t) == Entered && Others(w1, t) && Others(w2, t)
    ensures var q := Next(Next(s, w1, t), w2, t);
            && PcOf(q, t) == Parked && q.lock == None && q.flags == Flags(true, false, s.flags.buffer)
            && q.copies == s.copies && q.grabs == s.grabs && t in q.asked && q.asked[t] == |s.copies|
  {
    assert s.lock == Some(t);
    OthersHeldOff(s, w1, t);
    var s1 := Next(s, w1, t);
    StepKeepsInv(Exec(s, w1), Run(t));
    OthersHeldOff(s1, w2, t);
    OthersKeepAsked(s1, w2, t);
  }

  lemma {:induction false} OthersKeepAsked(s: State, run: seq<Event>, t: Tid)
    requires Others(run, t)
    ensures t in s.asked ==> t in Exec(s, run).asked && Exec(s, run).asked[t] == s.asked[t]
    decreases |run|
  {
    if run != [] {
      assert run[0] in run && Others(run[1..], t);
      OthersKeepAsked(Step(s, run[0]), run[1..], t);
    }
  }

  /** A parked thread that wakes by itself before a frame is announced goes back to waiting: it takes the
      lock, finds nothing, and parks again, with nothing changed. */
  lemma SpuriousWakeParks(s: State, t: Tid)
    requires PcOf(s, t) == Parked && s.lock == None && !s.flags.ready
    ensures PcOf(Step(s, Spurious(t)), t) == Woken
    ensures Exec(Step(s, Spurious(t)), [Run(t), Run(t)]) == s
  {
    ExecTwo(Step(s, Spurious(t)), Run(t), Run(t));
    assert s.threads[t := Woken][t := Testing][t := Parked] == s.threads;
  }

  /** How many of its own steps the holder of the lock is from giving it up, at most. */
  function HoldLeft(pc: Pc): nat {
    match pc
    case Entered => 2
    case Testing => 1
    case CbEntered(_) => 4
    case CbCopied(_) => 3
    case CbNotify => 2
    case CbLeave => 1
    case _ => 0
  }

  function StepsOf(run: seq<Event>, c: Tid): nat {
    if run == [] then 0 else (if run[0] == Run(c) then 1 else 0) + StepsOf(run[1..], c)
  }

  /** The lock is free at some point of the run. */
  predicate FreeDuring(s: State, run: seq<Event>)
    decreases |run|
  {
    s.lock == None || (run != [] && FreeDuring(Step(s, run[0]), run[1..]))
  }

  /** Nobody keeps the lock: the thread that has it gives it up within four steps of its own, whatever the
      other threads do. */
  lemma {:induction false} LockIsGivenUp(s: State, run: seq<Event>, c: Tid)
    requires Inv(s) && s.lock == Some(c) && StepsOf(run, c) >= HoldLeft(PcOf(s, c))
    ensures FreeDuring(s, run) && HoldLeft(PcOf(s, c)) <= 4
    decreases |run|
  {
    assert Holding(PcOf(s, c));
    if run != [] {
      var s' := Step(s, run[0]);
      StepKeepsInv(s, run[0]);
      HolderStep(s, run[0], c);
      if s'.lock != None { LockIsGivenUp(s', run[1..], c); }
    }
  }

  lemma HolderStep(s: State, e: Event, c: Tid)
    requires Exclusive(s) && c in s.threads && s.lock == Some(c) && Holding(PcOf(s, c))
    ensures var q := Step(s, e);
            if e == Run(c) then q.lock == None || (q.lock == Some(c) && HoldLeft(PcOf(q, c)) < HoldLeft(PcOf(s, c)))
            else q.lock == Some(c) && PcOf(q, c) == PcOf(s, c)
  {
    if e != Run(c) { OtherHeldOff(s, e, c); }
  }

  /** Whoever waited waits still. */
  ghost predicate StillWaiting(s: State, q: State) {
    forall t :: t in s.threads && InWait(s.threads[t]) ==> t in q.threads && InWait(q.threads[t])
  }

  /** No thread makes a request during the run. */
  predicate NoRequest(s: State, run: seq<Event>)
    decreases |run|
  {
    run != [] ==> !(run[0].Run? && PcOf(s, run[0].tid) == Entered) && NoRequest(Step(s, run[0]), run[1..])
  }

  predicate LeavingWait(pc: Pc) { pc.Woken? || pc.Testing? }

  /** t has finished a grab between s and q. */
  ghost predicate Returned(s: State, q: State, t: Tid) {
    s.grabs <= q.grabs && exists k :: |s.grabs| <= k < |q.grabs| && q.grabs[k].tid == t
  }

  /** A thread on its way out of the wait with a frame announced needs two steps of its own: the grab is
      then over, with the frame in the buffer, and the lock free. */
  lemma TwoStepsReturn(s: State, t: Tid)
    requires LockOk(s) && LeavingWait(PcOf(s, t)) && s.flags.ready && (s.lock == None || s.lock == Some(t))
    ensures var q := Exec(s, [Run(t), Run(t)]);
            && q.grabs == s.grabs + [Grabbed(t, s.flags.buffer, if t in s.asked then s.asked[t] else 0, |s.copies|)]
            && q.lock == None && PcOf(q, t) == Idle && q.flags == s.flags && q.copies == s.copies
  {
    ExecTwo(s, Run(t), Run(t));
  }

  lemma ExecTwo(s: State, e: Event, f: Event)
    ensures Exec(s, [e, f]) == Step(Step(s, e), f)
  {
    assert [e, f][1..] == [f] && [f][1..] == [];
    assert Exec(s, [e, f]) == Exec(Step(s, e), [f]);
  }

  /** t runs at a moment when the lock is free, and again later. */
  predicate RunsFree(s: State, run: seq<Event>, t: Tid)
    decreases |run|
  {
    run != [] && ((run[0] == Run(t) && s.lock == None && Run(t) in run[1..]) || RunsFree(Step(s, run[0]), run[1..], t))
  }

  lemma {:induction false} TestingReturns(s: State, run: seq<Event>, t: Tid)
    requires PcOf(s, t) == Testing && s.flags.ready && s.lock == Some(t) && LockOk(s) && Run(t) in run
    ensures Returned(s, Exec(s, run), t)
    decreases |run|
  {
    var s' := Step(s, run[0]);
    GrabsGrow(s', run[1..]);
    if run[0] == Run(t) {
      assert Exec(s, run).grabs[|s.grabs|].tid == t;
    } else {
      StepKeepsExclusive(s, run[0]);
      OtherHeldOff(s, run[0], t);
      TestingReturns(s', run[1..], t);
      ReturnedEarlier(s, s', Exec(s, run), t);
    }
  }

  /** Under any interleaving in which nobody makes a new request, a woken thread with a frame announced
      does return: it needs to run once when the lock is free, and once more. */
  lemma {:induction false} WokenThreadGetsOut(s: State, run: seq<Event>, t: Tid)
    requires LockOk(s) && LeavingWait(PcOf(s, t)) && s.flags.ready && NoRequest(s, run) && RunsFree(s, run, t)
    ensures Returned(s, Exec(s, run), t)
    decreases |run|
  {
    var s' := Step(s, run[0]);
    StepKeepsExclusive(s, run[0]);
    LeavesOrReturns(s, run[0], t);
    GrabsGrow(s', run[1..]);
    if !LeavingWait(PcOf(s', t)) {
      assert Exec(s, run).grabs[|s.grabs|].tid == t;
    } else {
      if run[0] == Run(t) && s.lock == None && Run(t) in run[1..] {
        TestingReturns(s', run[1..], t);
      } else {
        WokenThreadGetsOut(s', run[1..], t);
      }
      ReturnedEarlier(s, s', Exec(s, run), t);
    }
  }

  /** From start to finish, with nobody else in the way: a grab that starts waits for the next frame, and
      returns with it after the callback that brings it. */
  lemma GrabRoundTrip(s: State, t: Tid, c: Tid, frame: Frame)
    requires Inv(s) && s.lock == None && PcOf(s, t) == Idle && PcOf(s, c) == Idle && t != c && frame != []
    ensures var asked := Exec(s, [StartGrab(t), Run(t)] + [Run(t), Run(t)]);
            var served := Exec(asked, [StartCallback(c, frame), Run(c)] + ([Run(c), Run(c)] + [Run(c), Run(c)]));
            var q := Exec(served, [Run(t), Run(t)]);
            && PcOf(asked, t) == Parked && asked.flags == Flags(true, false, s.flags.buffer) && asked.grabs == s.grabs
            && PcOf(served, t) == Woken && served.flags == Flags(false, true, frame) && served.grabs == s.grabs
            && PcOf(q, t) == PcOf(q, c) == Idle && q.lock == None && q.copies == s.copies + [frame]
            && q.grabs == s.grabs + [Grabbed(t, frame, |s.copies|, |s.copies| + 1)]
  {
    var asked := Asked(s, t);
    var served := Served(asked, c, frame, t);
    TwoStepsReturn(served, t);
    ExecTwo(served, Run(t), Run(t));
  }

  lemma Asked(s: State, t: Tid) returns (q: State)
    requires Inv(s) && s.lock == None && PcOf(s, t) == Idle
    ensures q == Exec(s, [StartGrab(t), Run(t)] + [Run(t), Run(t)]) && Inv(q) && q.lock == None && PcOf(q, t) == Parked
    ensures q.flags == Flags(true, false, s.flags.buffer) && q.copies == s.copies && q.grabs == s.grabs
    ensures t in q.asked && q.asked[t] == |s.copies| && forall u :: u != t ==> PcOf(q, u) == PcOf(s, u)
  {
    q := Exec(s, [StartGrab(t), Run(t)] + [Run(t), Run(t)]);
    var s2 := Step(Step(s, StartGrab(t)), Run(t));
    ExecKeepsInv(s, [StartGrab(t), Run(t)] + [Run(t), Run(t)]);
    ExecTwo(s, StartGrab(t), Run(t));
    ExecTwo(s2, Run(t), Run(t));
    ExecAppend(s, [StartGrab(t), Run(t)], [Run(t), Run(t)]);
  }

  lemma Served(s: State, c: Tid, frame: Frame, t: Tid) returns (q: State)
    requires Inv(s) && s.lock == None && PcOf(s, c) == Idle && PcOf(s, t) == Parked && frame != [] && t in s.asked
    ensures q == Exec(s, [StartCallback(c, frame), Run(c)] + ([Run(c), Run(c)] + [Run(c), Run(c)]))
    ensures Inv(q) && q.lock == None && PcOf(q, c) == Idle && PcOf(q, t) == Woken && q.flags == Flags(false, true, frame)
    ensures q.copies == s.copies + [frame] && q.grabs == s.grabs && q.asked == s.asked
  {
    var run := [StartCallback(c, frame), Run(c)] + ([Run(c), Run(c)] + [Run(c), Run(c)]);
    q := Exec(s, run);
    ExecKeepsInv(s, run);
    var s2 := Step(Step(s, StartCallback(c, frame)), Run(c));
    ExecAppend(s, [StartCallback(c, frame), Run(c)], [Run(c), Run(c)] + [Run(c), Run(c)]);
    ExecTwo(s, StartCallback(c, frame), Run(c));
    assert s.flags.wantToGrab;
    CallbackAlone(s2, c, frame, t);
  }

  lemma CallbackAlone(s: State, c: Tid, frame: Frame, t: Tid)
    requires PcOf(s, c) == CbEntered(frame) && s.lock == Some(c) && PcOf(s, t) == Parked && Takes(s.flags, frame)
    ensures var q := Exec(s, [Run(c), Run(c)] + [Run(c), Run(c)]);
            && q.lock == None && PcOf(q, c) == Idle && PcOf(q, t) == Woken && q.flags == Flags(false, true, frame)
            && q.copies == s.copies + [frame] && q.grabs == s.grabs && q.asked == s.asked
  {
    var s2 := Step(Step(s, Run(c)), Run(c));
    ExecTwo(s, Run(c), Run(c));
    ExecTwo(s2, Run(c), Run(c));
    ExecAppend(s, [Run(c), Run(c)], [Run(c), Run(c)]);
  }

  lemma {:induction false} ExecAppend(s: State, run: seq<Event>, more: seq<Event>)
    ensures Exec(s, run + more) == Exec(Exec(s, run), more)
    decreases |run|
  {
    if run == [] {
      assert run + more == more;
    } else {
      assert (run + more)[0] == run[0] && (run + more)[1..] == run[1..] + more;
      ExecAppend(Step(s, run[0]), run[1..], more);
    }
  }

  /** A woken thread with a frame announced never parks again while nobody makes a new request, under
      any interleaving: either it has returned with a frame, or it is still on its way and the frame
      still announced. */
  lemma {:induction false} WokenThreadReturns(s: State, run: seq<Event>, t: Tid)
    requires LeavingWait(PcOf(s, t)) && s.flags.ready && NoRequest(s, run)
    ensures var q := Exec(s, run);
            && s.grabs <= q.grabs
            && (Returned(s, q, t) || (LeavingWait(PcOf(q, t)) && q.flags.ready))
    decreases |run|
  {
    if run != [] {
      var s' := Step(s, run[0]);
      LeavesOrReturns(s, run[0], t);
      if LeavingWait(PcOf(s', t)) {
        WokenThreadReturns(s', run[1..], t);
        if Returned(s', Exec(s, run), t) { ReturnedEarlier(s, s', Exec(s, run), t); }
      } else {
        GrabsGrow(s', run[1..]);
        assert Exec(s, run).grabs[|s.grabs|].tid == t;
      }
    }
  }

  lemma LeavesOrReturns(s: State, e: Event, t: Tid)
    requires LeavingWait(PcOf(s, t)) && s.flags.ready && !(e.Run? && PcOf(s, e.tid) == Entered)
    ensures Step(s, e).flags.ready && s.grabs <= Step(s, e).grabs
    ensures LeavingWait(PcOf(Step(s, e), t))
         || (|Step(s, e).grabs| == |s.grabs| + 1 && Step(s, e).grabs[|s.grabs|].tid == t)
  {
  }

  lemma ReturnedEarlier(s: State, s': State, q: State, t: Tid)
    requires s.grabs <= s'.grabs && Returned(s', q, t)
    ensures Returned(s, q, t)
  {
    var k :| |s'.grabs| <= k < |q.grabs| && q.grabs[k].tid == t;
    assert |s.grabs| <= k;
  }

  lemma {:induction false} GrabsGrow(s: State, run: seq<Event>)
    ensures s.grabs <= Exec(s, run).grabs
    decreases |run|
  {
    if run != [] { GrabsGrow(Step(s, run[0]), run[1..]); }
  }

  predicate InCallback(pc: Pc) { pc.CbWantLock? || pc.CbEntered? || pc.CbCopied? || pc.CbNotify? || pc.CbLeave? }

  /** Without callbacks no grab ever returns. */
  lemma {:induction false} NoCallbackNoReturn(s: State, run: seq<Event>)
    requires !s.flags.ready && forall t :: t in s.threads ==> !InCallback(s.threads[t])
    requires forall k :: 0 <= k < |run| ==> !run[k].StartCallback?
    ensures Exec(s, run).grabs == s.grabs
    decreases |run|
  {
    if run != [] {
      QuietStep(s, run[0]);
      NoCallbackNoReturn(Step(s, run[0]), run[1..]);
    }
  }

  lemma QuietStep(s: State, e: Event)
    requires !s.flags.ready && (forall t :: t in s.threads ==> !InCallback(s.threads[t])) && !e.StartCallback?
    ensures var q := Step(s, e);
            !q.flags.ready && (forall t :: t in q.threads ==> !InCallback(q.threads[t])) && q.grabs == s.grabs
  {
  }

  /** The fields themselves, with the three places that change them. */
  class PreviewUserdata {
    var wantToGrab: bool
    var ready: bool
    var bufferData: Frame

    ghost function View(): Flags
      reads this
    {
      Flags(wantToGrab, ready, bufferData)
    }

    constructor ()
      ensures !View().wantToGrab
    {
      wantToGrab := false;
    }

    /** The start of waitForFrame, under the lock. */
    method Request()
      modifies this
      ensures View() == Requested(old(View()))
    {
      wantToGrab := true;
      ready := false;
    }

    /** The first part of preview_buffer_callback, under the lock. */
    method Offer(frame: Frame) returns (hasGrabbed: bool)
      modifies this
      ensures View() == Offered(old(View()), frame) && hasGrabbed == Takes(old(View()), frame)
    {
      hasGrabbed := false;
      if wantToGrab && |frame| != 0 {
        bufferData := frame;
        wantToGrab := false;
        hasGrabbed := true;
      }
    }

    method Broadcast()
      modifies this
      ensures View() == old(View()).(ready := true)
    {
      ready := true;
    }
  }
}
