/** The ring queue shared by one producer thread and one consumer thread, at the level of
    single tests, event waits, stores, loads, increments and signals.

    The counters are 32-bit and wrap.  An event is an auto-reset event: signalling it wakes
    the parked thread if there is one, and otherwise leaves it signalled for the next wait. */
module RingProtocol {
  import opened Bits
  import opened Limits
  import opened RingCounters

  datatype Producer<T> =
    | PIdle
    | PTest(x: T)     // about to evaluate the loop condition
    | PWait(x: T)     // saw a full queue, about to wait on `pop`
    | PParked(x: T)   // blocked in the wait
    | PStore(x: T)
    | PInc(x: T)
    | PSignal

  datatype Consumer<T> =
    | CIdle
    | CTest(pop: bool)    // pop or peek
    | CWait(pop: bool)
    | CParked(pop: bool)
    | CLoad(pop: bool)
    | CInc(x: T)
    | CSignal(x: T)

  datatype Ring<T> = Ring(
    size: nat, read: nat, write: nat, storage: seq<T>,
    popEvent: bool, pushEvent: bool,
    p: Producer<T>, c: Consumer<T>,
    called: seq<T>,     // history: arguments of the push calls so far
    returned: seq<T>,   // history: results of the pop calls that have returned
    seen: seq<T>)       // history: results of the peek calls that have returned

  datatype Action<T> = CallPush(x: T) | ProducerStep | CallPop | CallPeek | ConsumerStep

  function Slot<T>(s: Ring<T>, counter: nat): nat
    requires s.size > 0
  {
    And(counter, s.size - 1)
  }

  predicate IsFull<T>(s: Ring<T>) { s.write == (s.read + s.size) % WRAP }

  predicate IsEmpty<T>(s: Ring<T>) { s.write == s.read }

  predicate Sane<T>(s: Ring<T>) {
    s.size > 0 && |s.storage| == s.size && Slot(s, s.write) < s.size && Slot(s, s.read) < s.size
  }

  function Step<T>(s: Ring<T>, a: Action<T>): Ring<T> {
    if !Sane(s) then s else
    match a
    case CallPush(x) => if s.p.PIdle? then s.(p := PTest(x), called := s.called + [x]) else s
    case CallPop => if s.c.CIdle? then s.(c := CTest(true)) else s
    case CallPeek => if s.c.CIdle? then s.(c := CTest(false)) else s
    case ProducerStep => ProducerMove(s)
    case ConsumerStep => ConsumerMove(s)
  }

  /** vchiu_queue_push */
  function ProducerMove<T>(s: Ring<T>): Ring<T>
    requires Sane(s)
  {
    match s.p
    case PIdle => s
    case PTest(x) => s.(p := if IsFull(s) then PWait(x) else PStore(x))
    case PWait(x) => if s.popEvent then s.(popEvent := false, p := PTest(x)) else s.(p := PParked(x))
    case PParked(_) => s
    case PStore(x) => s.(storage := s.storage[Slot(s, s.write) := x], p := PInc(x))
    case PInc(_) => s.(write := (s.write + 1) % WRAP, p := PSignal)
    case PSignal =>
      if s.c.CParked? then s.(c := CTest(s.c.pop), p := PIdle) else s.(pushEvent := true, p := PIdle)
  }

  /** vchiu_queue_pop and vchiu_queue_peek */
  function ConsumerMove<T>(s: Ring<T>): Ring<T>
    requires Sane(s)
  {
    match s.c
    case CIdle => s
    case CTest(pop) => s.(c := if IsEmpty(s) then CWait(pop) else CLoad(pop))
    case CWait(pop) => if s.pushEvent then s.(pushEvent := false, c := CTest(pop)) else s.(c := CParked(pop))
    case CParked(_) => s
    case CLoad(pop) =>
      var x := s.storage[Slot(s, s.read)];
      if pop then s.(c := CInc(x)) else s.(c := CIdle, seen := s.seen + [x])
    case CInc(x) => s.(read := (s.read + 1) % WRAP, c := CSignal(x))
    case CSignal(x) =>
      var s' := s.(c := CIdle, returned := s.returned + [x]);
      if s.p.PParked? then s'.(p := PTest(s.p.x)) else s'.(popEvent := true)
  }

  function Exec<T>(s: Ring<T>, run: seq<Action<T>>): Ring<T>
    decreases |run|
  {
    if run == [] then s else Exec(Step(s, run[0]), run[1..])
  }

  /** vchiu_queue_init, with the arbitrary contents of fresh storage. */
  predicate Initial<T>(s: Ring<T>) {
    && IsPow2(s.size) && s.size <= MAX_SIZE && |s.storage| == s.size
    && s.read == 0 && s.write == 0 && !s.popEvent && !s.pushEvent
    && s.p.PIdle? && s.c.CIdle? && s.called == [] && s.returned == [] && s.seen == []
  }

  // -------------------------------------------------------------- invariant

  predicate InFlight<T>(p: Producer<T>) { !p.PIdle? && !p.PSignal? }

  /** The values whose push has taken effect (the write counter has moved). */
  function Pushed<T>(s: Ring<T>): seq<T> {
    if InFlight(s.p) && s.called != [] then s.called[..|s.called| - 1] else s.called
  }

  /** The values whose pop has taken effect (the read counter has moved). */
  function Popped<T>(s: Ring<T>): seq<T> {
    s.returned + if s.c.CSignal? then [s.c.x] else []
  }

  ghost predicate Counters<T>(s: Ring<T>) {
    && IsPow2(s.size) && s.size <= MAX_SIZE && |s.storage| == s.size
    && s.write == |Pushed(s)| % WRAP && s.read == |Popped(s)| % WRAP
    && |Popped(s)| <= |Pushed(s)| <= |Popped(s)| + s.size
  }

  ghost predicate Contents<T>(s: Ring<T>)
    requires s.size > 0 && |s.storage| == s.size
  {
    && Popped(s) <= Pushed(s)
    && CallsMatch(s)
    && Holds(s.storage, s.size, Pushed(s), |Popped(s)|)
    && Positions(s)
  }

  /** Between its test and its increment the producer has room, and its value is where it goes. */
  ghost predicate ProducerAt<T>(s: Ring<T>)
    requires s.size > 0 && |s.storage| == s.size
  {
    && (s.p.PStore? || s.p.PInc? ==> |Pushed(s)| < |Popped(s)| + s.size)
    && (s.p.PInc? ==> s.storage[|Pushed(s)| % s.size] == s.p.x)
  }

  /** Between its test and its increment the consumer has a value, and holds the oldest one. */
  ghost predicate ConsumerAt<T>(s: Ring<T>) {
    && (s.c.CLoad? || s.c.CInc? ==> |Popped(s)| < |Pushed(s)|)
    && (s.c.CInc? ==> s.c.x == Pushed(s)[|Popped(s)|])
  }

  ghost predicate Positions<T>(s: Ring<T>)
    requires s.size > 0 && |s.storage| == s.size
  {
    ProducerAt(s) && ConsumerAt(s)
  }

  ghost predicate Wakeups<T>(s: Ring<T>) {
    && (s.p.PWait? && |Pushed(s)| < |Popped(s)| + s.size ==> s.popEvent || s.c.CSignal?)
    && (s.p.PParked? ==> !s.popEvent && (|Pushed(s)| < |Popped(s)| + s.size ==> s.c.CSignal?))
    && (s.c.CWait? && |Popped(s)| < |Pushed(s)| ==> s.pushEvent || s.p.PSignal?)
    && (s.c.CParked? ==> !s.pushEvent && (|Popped(s)| < |Pushed(s)| ==> s.p.PSignal?))
  }

  ghost predicate Inv<T>(s: Ring<T>) {
    Counters(s) && Contents(s) && Wakeups(s)
  }

  // -------------------------------------------------- unwrapping the counters

  /** The wrapped full and empty tests are exact, whatever the counters have wrapped to. */
  lemma TestsExact<T>(s: Ring<T>)
    requires Counters(s)
    ensures IsFull(s) <==> |Pushed(s)| == |Popped(s)| + s.size
    ensures IsEmpty(s) <==> |Pushed(s)| == |Popped(s)|
    ensures (s.write - s.read) % WRAP == |Pushed(s)| - |Popped(s)|
  {
    TestsUnwrap(s.size, |Pushed(s)|, |Popped(s)|);
  }

  lemma CountersSane<T>(s: Ring<T>)
    requires Counters(s)
    ensures Sane(s) && Slot(s, s.write) == |Pushed(s)| % s.size && Slot(s, s.read) == |Popped(s)| % s.size
  {
    MaskIsMod(s.size, |Pushed(s)|);
    MaskIsMod(s.size, |Popped(s)|);
  }

  /** What the tests and the room left say, without the wrapped representation. */
  ghost predicate Unwrapped<T>(s: Ring<T>) {
    && Sane(s)
    && (IsFull(s) <==> |Pushed(s)| == |Popped(s)| + s.size)
    && (IsEmpty(s) <==> |Pushed(s)| == |Popped(s)|)
    && |Popped(s)| <= |Pushed(s)| <= |Popped(s)| + s.size
    && Slot(s, s.write) == |Pushed(s)| % s.size && Slot(s, s.read) == |Popped(s)| % s.size
  }

  lemma InvUnwraps<T>(s: Ring<T>)
    requires Inv(s)
    ensures Unwrapped(s)
  {
    CountersSane(s);
    TestsExact(s);
  }

  predicate Incrementing<T>(s: Ring<T>, a: Action<T>) { a.ProducerStep? && s.p.PInc? }

  predicate Taking<T>(s: Ring<T>, a: Action<T>) { a.ConsumerStep? && s.c.CInc? }

  ghost predicate CallsMatch<T>(s: Ring<T>) {
    InFlight(s.p) ==> s.called != [] && s.called[|s.called| - 1] == s.p.x
  }

  lemma ProducerPushed<T>(s: Ring<T>)
    requires Sane(s) && CallsMatch(s)
    ensures Pushed(ProducerMove(s)) == if s.p.PInc? then Pushed(s) + [s.p.x] else Pushed(s)
    ensures CallsMatch(ProducerMove(s))
  {
    if s.p.PInc? { assert s.called == s.called[..|s.called| - 1] + [s.p.x]; }
  }

  lemma ConsumerPushed<T>(s: Ring<T>)
    requires Sane(s) && CallsMatch(s)
    ensures Pushed(ConsumerMove(s)) == Pushed(s) && CallsMatch(ConsumerMove(s))
  {
    var q := ConsumerMove(s);
    assert q.called == s.called && InFlight(q.p) == InFlight(s.p) && (InFlight(s.p) ==> q.p.x == s.p.x);
  }

  /** Each step moves at most one of the counters, together with the history it counts. */
  lemma StepPushed<T>(s: Ring<T>, a: Action<T>)
    requires Sane(s) && CallsMatch(s)
    ensures Pushed(Step(s, a)) == if Incrementing(s, a) then Pushed(s) + [s.p.x] else Pushed(s)
    ensures CallsMatch(Step(s, a))
  {
    match a
    case CallPush(_) => if s.p.PIdle? { assert Step(s, a).called[..|s.called|] == s.called; }
    case ProducerStep => ProducerPushed(s);
    case ConsumerStep => ConsumerPushed(s);
    case CallPop =>
    case CallPeek =>
  }

  lemma StepPopped<T>(s: Ring<T>, a: Action<T>)
    requires Sane(s)
    ensures Popped(Step(s, a)) == if Taking(s, a) then Popped(s) + [s.c.x] else Popped(s)
  {
  }

  lemma StepHistory<T>(s: Ring<T>, a: Action<T>)
    requires Sane(s) && CallsMatch(s)
    ensures Pushed(Step(s, a)) == if Incrementing(s, a) then Pushed(s) + [s.p.x] else Pushed(s)
    ensures Popped(Step(s, a)) == if Taking(s, a) then Popped(s) + [s.c.x] else Popped(s)
    ensures CallsMatch(Step(s, a))
  {
    StepPushed(s, a);
    StepPopped(s, a);
  }

  lemma StepCounts<T>(s: Ring<T>, a: Action<T>)
    requires Sane(s)
    ensures Step(s, a).size == s.size && |Step(s, a).storage| == s.size
    ensures Step(s, a).write == if Incrementing(s, a) then (s.write + 1) % WRAP else s.write
    ensures Step(s, a).read == if Taking(s, a) then (s.read + 1) % WRAP else s.read
    ensures Step(s, a).storage ==
      if a.ProducerStep? && s.p.PStore? then s.storage[Slot(s, s.write) := s.p.x] else s.storage
  {
  }

  /** The room left and the values waiting, which is all the wake-up condition needs of the counters. */
  lemma StepRoom<T>(s: Ring<T>, a: Action<T>)
    requires Sane(s) && CallsMatch(s)
    ensures Step(s, a).size == s.size
    ensures |Pushed(Step(s, a))| == |Pushed(s)| + if Incrementing(s, a) then 1 else 0
    ensures |Popped(Step(s, a))| == |Popped(s)| + if Taking(s, a) then 1 else 0
  {
    StepHistory(s, a);
    StepCounts(s, a);
  }

  lemma StepKeepsCounters<T>(s: Ring<T>, a: Action<T>)
    requires Counters(s) && Sane(s) && CallsMatch(s)
    requires s.p.PInc? ==> |Pushed(s)| < |Popped(s)| + s.size
    requires s.c.CInc? ==> |Popped(s)| < |Pushed(s)|
    ensures Counters(Step(s, a))
  {
    StepRoom(s, a);
    StepCounts(s, a);
    assert (s.write + 1) % WRAP == (|Pushed(s)| + 1) % WRAP by { WrappedSum(|Pushed(s)|, 1); }
    assert (s.read + 1) % WRAP == (|Popped(s)| + 1) % WRAP by { WrappedSum(|Popped(s)|, 1); }
  }

  lemma ProducerKeepsWakeups<T>(s: Ring<T>)
    requires Unwrapped(s) && CallsMatch(s) && Wakeups(s)
    ensures Wakeups(Step(s, ProducerStep))
  {
    StepRoom(s, ProducerStep);
  }

  lemma ConsumerKeepsWakeups<T>(s: Ring<T>)
    requires Unwrapped(s) && CallsMatch(s) && Wakeups(s)
    ensures Wakeups(Step(s, ConsumerStep))
  {
    StepRoom(s, ConsumerStep);
  }

  lemma CallKeepsWakeups<T>(s: Ring<T>, a: Action<T>)
    requires Unwrapped(s) && CallsMatch(s) && Wakeups(s) && !a.ProducerStep? && !a.ConsumerStep?
    ensures Wakeups(Step(s, a))
  {
    StepRoom(s, a);
  }

  lemma StepKeepsWakeups<T>(s: Ring<T>, a: Action<T>)
    requires Unwrapped(s) && CallsMatch(s) && Wakeups(s)
    ensures Wakeups(Step(s, a))
  {
    match a
    case ProducerStep => ProducerKeepsWakeups(s);
    case ConsumerStep => ConsumerKeepsWakeups(s);
    case _ => CallKeepsWakeups(s, a);
  }

  lemma StepKeepsOrder<T>(s: Ring<T>, a: Action<T>)
    requires Unwrapped(s) && Contents(s)
    ensures CallsMatch(Step(s, a)) && Popped(Step(s, a)) <= Pushed(Step(s, a))
  {
    StepHistory(s, a);
  }

  lemma StepKeepsUnread<T>(s: Ring<T>, a: Action<T>)
    requires Unwrapped(s) && Contents(s)
    ensures Step(s, a).size == s.size && |Step(s, a).storage| == s.size
    ensures Holds(Step(s, a).storage, s.size, Pushed(Step(s, a)), |Popped(Step(s, a))|)
  {
    StepHistory(s, a);
    StepCounts(s, a);
    if a.ProducerStep? && s.p.PStore? {
      StoreElsewhere(s.storage, s.size, Pushed(s), |Popped(s)|, s.p.x);
    }
  }

  lemma StepKeepsProducerAt<T>(s: Ring<T>, a: Action<T>)
    requires Unwrapped(s) && CallsMatch(s) && ProducerAt(s)
    ensures Step(s, a).size == s.size && |Step(s, a).storage| == s.size && ProducerAt(Step(s, a))
  {
    StepRoom(s, a);
    StepCounts(s, a);
  }

  lemma StepKeepsConsumerAt<T>(s: Ring<T>, a: Action<T>)
    requires Unwrapped(s) && CallsMatch(s) && ConsumerAt(s) && Holds(s.storage, s.size, Pushed(s), |Popped(s)|)
    ensures ConsumerAt(Step(s, a))
  {
    if a.ConsumerStep? { ConsumerKeepsConsumerAt(s); } else { OtherKeepsConsumerAt(s, a); }
  }

  lemma ConsumerKeepsConsumerAt<T>(s: Ring<T>)
    requires Unwrapped(s) && CallsMatch(s) && ConsumerAt(s) && Holds(s.storage, s.size, Pushed(s), |Popped(s)|)
    ensures ConsumerAt(Step(s, ConsumerStep))
  {
    ConsumerPushed(s);
    assert |Popped(s)| < |Pushed(s)| ==> s.storage[|Popped(s)| % s.size] == Pushed(s)[|Popped(s)|];
  }

  lemma OtherKeepsConsumerAt<T>(s: Ring<T>, a: Action<T>)
    requires Sane(s) && CallsMatch(s) && ConsumerAt(s) && !a.ConsumerStep?
    ensures ConsumerAt(Step(s, a))
  {
    StepPushed(s, a);
  }

  lemma StepKeepsInv<T>(s: Ring<T>, a: Action<T>)
    requires Inv(s)
    ensures Inv(Step(s, a))
  {
    InvUnwraps(s);
    StepKeepsCounters(s, a);
    StepKeepsOrder(s, a);
    StepKeepsUnread(s, a);
    StepKeepsProducerAt(s, a);
    StepKeepsConsumerAt(s, a);
    StepKeepsWakeups(s, a);
  }

  lemma {:induction false} ExecKeepsInv<T>(s: Ring<T>, run: seq<Action<T>>)
    requires Inv(s)
    ensures Inv(Exec(s, run))
    decreases |run|
  {
    if run != [] {
      StepKeepsInv(s, run[0]);
      ExecKeepsInv(Step(s, run[0]), run[1..]);
    }
  }

  lemma InitialInv<T>(s: Ring<T>)
    requires Initial(s)
    ensures Inv(s)
  {
    var k := SizeBits(s.size);
  }

  // ---------------------------------------------------------------- results

  /** Under every interleaving, pops return exactly the first pushed values, in order; the
      wrapped counters stay within size of each other; and every value pushed but not popped
      is still in its slot, so no unread slot is overwritten. */
  lemma RingIsFifo<T>(s: Ring<T>, run: seq<Action<T>>)
    requires Initial(s)
    ensures var q := Exec(s, run);
            && q.returned <= q.called
            && Popped(q) <= Pushed(q) <= q.called
            && q.size == s.size && |q.storage| == s.size
            && (q.write - q.read) % WRAP == |Pushed(q)| - |Popped(q)| <= s.size
            && (forall j :: |Popped(q)| <= j < |Pushed(q)| ==>
                  Slot(q, j % WRAP) < s.size && q.storage[Slot(q, j % WRAP)] == q.called[j])
  {
    var q := Exec(s, run);
    InitialInv(s);
    ExecKeepsInv(s, run);
    SizeConstant(s, run);
    TestsExact(q);
    forall j | |Popped(q)| <= j < |Pushed(q)|
      ensures Slot(q, j % WRAP) < s.size && q.storage[Slot(q, j % WRAP)] == q.called[j]
    {
      MaskIsMod(q.size, j);
      assert q.storage[j % q.size] == Pushed(q)[j];
    }
  }

  lemma {:induction false} SizeConstant<T>(s: Ring<T>, run: seq<Action<T>>)
    ensures Exec(s, run).size == s.size
    decreases |run|
  {
    if run != [] { SizeConstant(Step(s, run[0]), run[1..]); }
  }

  /** Peek and pop both read the oldest value whose pop has not yet taken effect. */
  lemma LoadsOldest<T>(s: Ring<T>, run: seq<Action<T>>)
    requires Initial(s) && Exec(s, run).c.CLoad?
    ensures var q := Exec(s, run);
            && Sane(q) && |Popped(q)| < |q.called| && Popped(q) == q.returned
            && q.storage[Slot(q, q.read)] == q.called[|q.returned|]
  {
    var q := Exec(s, run);
    InitialInv(s);
    ExecKeepsInv(s, run);
    InvUnwraps(q);
    assert q.storage[|Popped(q)| % q.size] == Pushed(q)[|Popped(q)|];
  }

  /** No wake-up is lost: a thread is parked only while its event is unsignalled and either
      its condition still holds or the other thread is about to signal it; so the two threads
      are never both parked. */
  lemma NeverBothParked<T>(s: Ring<T>, run: seq<Action<T>>)
    requires Initial(s)
    ensures var q := Exec(s, run);
            && !(q.p.PParked? && q.c.CParked?)
            && (q.p.PParked? ==> !q.popEvent && (IsFull(q) || q.c.CSignal?))
            && (q.c.CParked? ==> !q.pushEvent && (IsEmpty(q) || q.p.PSignal?))
  {
    InitialInv(s);
    ExecKeepsInv(s, run);
    InvUnwraps(Exec(s, run));
  }

  // ------------------------------------------------ what each call comes to

  predicate PopInProgress<T>(c: Consumer<T>) {
    || c.CInc? || c.CSignal?
    || ((c.CTest? || c.CWait? || c.CParked? || c.CLoad?) && c.pop)
  }

  predicate PeekInProgress<T>(c: Consumer<T>) {
    (c.CTest? || c.CWait? || c.CParked? || c.CLoad?) && !c.pop
  }

  /** The pops called: a thread calls one while it is in no other call. */
  function PopsCalled<T>(s: Ring<T>, run: seq<Action<T>>): nat
    decreases |run|
  {
    if run == [] then 0
    else (if run[0].CallPop? && s.c.CIdle? then 1 else 0) + PopsCalled(Step(s, run[0]), run[1..])
  }

  function PeeksCalled<T>(s: Ring<T>, run: seq<Action<T>>): nat
    decreases |run|
  {
    if run == [] then 0
    else (if run[0].CallPeek? && s.c.CIdle? then 1 else 0) + PeeksCalled(Step(s, run[0]), run[1..])
  }

  /** The arguments of the pushes called. */
  function PushesCalled<T>(s: Ring<T>, run: seq<Action<T>>): seq<T>
    decreases |run|
  {
    if run == [] then []
    else (if run[0].CallPush? && s.p.PIdle? then [run[0].x] else []) + PushesCalled(Step(s, run[0]), run[1..])
  }

  function PopsDone<T>(s: Ring<T>): nat { |s.returned| + if PopInProgress(s.c) then 1 else 0 }

  function PeeksDone<T>(s: Ring<T>): nat { |s.seen| + if PeekInProgress(s.c) then 1 else 0 }

  lemma StepTakes<T>(s: Ring<T>, a: Action<T>)
    requires Sane(s)
    ensures PopsDone(Step(s, a)) == PopsDone(s) + if a.CallPop? && s.c.CIdle? then 1 else 0
    ensures PeeksDone(Step(s, a)) == PeeksDone(s) + if a.CallPeek? && s.c.CIdle? then 1 else 0
  {
    match a
    case ProducerStep => ProducerTakesNothing(s);
    case ConsumerStep => ConsumerDone(s);
    case _ =>
  }

  lemma ConsumerDone<T>(s: Ring<T>)
    requires Sane(s)
    ensures PopsDone(ConsumerMove(s)) == PopsDone(s) && PeeksDone(ConsumerMove(s)) == PeeksDone(s)
  {
  }

  lemma ProducerTakesNothing<T>(s: Ring<T>)
    requires Sane(s)
    ensures PopsDone(ProducerMove(s)) == PopsDone(s) && PeeksDone(ProducerMove(s)) == PeeksDone(s)
  {
  }

  lemma StepCalled<T>(s: Ring<T>, a: Action<T>)
    requires Sane(s)
    ensures Step(s, a).called == s.called + if a.CallPush? && s.p.PIdle? then [a.x] else []
  {
  }

  lemma {:induction false} TakesCounted<T>(s: Ring<T>, run: seq<Action<T>>)
    requires Inv(s)
    ensures PopsDone(Exec(s, run)) == PopsDone(s) + PopsCalled(s, run)
    ensures PeeksDone(Exec(s, run)) == PeeksDone(s) + PeeksCalled(s, run)
    decreases |run|
  {
    if run != [] {
      assert Sane(s) by { InvUnwraps(s); }
      StepTakes(s, run[0]);
      StepKeepsInv(s, run[0]);
      TakesCounted(Step(s, run[0]), run[1..]);
    }
  }

  lemma {:induction false} PushesCounted<T>(s: Ring<T>, run: seq<Action<T>>)
    requires Inv(s)
    ensures Exec(s, run).called == s.called + PushesCalled(s, run)
    decreases |run|
  {
    if run != [] {
      assert Sane(s) by { InvUnwraps(s); }
      StepCalled(s, run[0]);
      StepKeepsInv(s, run[0]);
      PushesCounted(Step(s, run[0]), run[1..]);
      Associate(s.called, if run[0].CallPush? && s.p.PIdle? then [run[0].x] else [], PushesCalled(Step(s, run[0]), run[1..]));
    }
  }

  lemma Associate<X>(a: seq<X>, b: seq<X>, c: seq<X>)
    ensures (a + b) + c == a + (b + c)
  {
  }

  /** Every call counts once: after any run each pop called has returned one value or is in progress, each
      peek called has seen one or is in progress, and the values pushed are the arguments of the pushes
      called, in order. */
  lemma OneValuePerCall<T>(s: Ring<T>, run: seq<Action<T>>)
    requires Initial(s)
    ensures var q := Exec(s, run);
            && |q.returned| + (if PopInProgress(q.c) then 1 else 0) == PopsCalled(s, run)
            && |q.seen| + (if PeekInProgress(q.c) then 1 else 0) == PeeksCalled(s, run)
            && q.called == PushesCalled(s, run)
  {
    InitialInv(s);
    TakesCounted(s, run);
    PushesCounted(s, run);
  }

  /** The consumer's call, a pop or a peek, is not over before the last step of the run. */
  predicate DuringCall<T>(s: Ring<T>, run: seq<Action<T>>)
    decreases |run|
  {
    run != [] ==> !s.c.CIdle? && DuringCall(Step(s, run[0]), run[1..])
  }

  /** From s to q a peek has taken nothing; if it is over, it has seen the oldest value. */
  ghost predicate PeekOnly<T>(s: Ring<T>, q: Ring<T>) {
    && q.read == s.read && q.returned == s.returned && Popped(q) == Popped(s)
    && if q.c.CIdle? then |q.returned| < |q.called| && q.seen == s.seen + [q.called[|q.returned|]]
       else PeekInProgress(q.c) && q.seen == s.seen
  }

  lemma PeekStep<T>(s: Ring<T>, a: Action<T>)
    requires Inv(s) && PeekInProgress(s.c)
    ensures PeekOnly(s, Step(s, a))
  {
    assert Sane(s) by { InvUnwraps(s); }
    if s.c.CLoad? { OldestLoaded(s); }
  }

  lemma {:induction false} PeekSteps<T>(s: Ring<T>, run: seq<Action<T>>)
    requires Inv(s) && PeekInProgress(s.c) && DuringCall(s, run)
    ensures PeekOnly(s, Exec(s, run))
    decreases |run|
  {
    if run != [] {
      var s' := Step(s, run[0]);
      PeekStep(s, run[0]);
      StepKeepsInv(s, run[0]);
      if s'.c.CIdle? { assert run[1..] == []; } else { PeekSteps(s', run[1..]); }
    }
  }

  /** From its call until it is over, whatever the producer does meanwhile, a peek takes nothing, and it
      returns the oldest value not popped. */
  lemma PeekTakesNothing<T>(s: Ring<T>, before: seq<Action<T>>, run: seq<Action<T>>)
    requires Initial(s) && PeekInProgress(Exec(s, before).c) && DuringCall(Exec(s, before), run)
    ensures PeekOnly(Exec(s, before), Exec(Exec(s, before), run))
  {
    InitialInv(s);
    ExecKeepsInv(s, before);
    PeekSteps(Exec(s, before), run);
  }

  /** Since the producer last waited for room, a pop has signalled it while it was not parked. */
  predicate RoomSignalled<T>(s: Ring<T>, run: seq<Action<T>>)
    decreases |run|
  {
    if run == [] then s.popEvent else
    var before, a := Exec(s, run[..|run| - 1]), run[|run| - 1];
    if a.ProducerStep? && before.p.PWait? then false
    else (a.ConsumerStep? && before.c.CSignal? && !before.p.PParked?) || RoomSignalled(s, run[..|run| - 1])
  }

  /** Since the consumer last waited for a value, a push has signalled it while it was not parked. */
  predicate ValueSignalled<T>(s: Ring<T>, run: seq<Action<T>>)
    decreases |run|
  {
    if run == [] then s.pushEvent else
    var before, a := Exec(s, run[..|run| - 1]), run[|run| - 1];
    if a.ConsumerStep? && before.c.CWait? then false
    else (a.ProducerStep? && before.p.PSignal? && !before.c.CParked?) || ValueSignalled(s, run[..|run| - 1])
  }

  lemma StepSignals<T>(s: Ring<T>, a: Action<T>)
    requires Sane(s)
    ensures Step(s, a).popEvent == if a.ProducerStep? && s.p.PWait? then false
                                   else (a.ConsumerStep? && s.c.CSignal? && !s.p.PParked?) || s.popEvent
    ensures Step(s, a).pushEvent == if a.ConsumerStep? && s.c.CWait? then false
                                    else (a.ProducerStep? && s.p.PSignal? && !s.c.CParked?) || s.pushEvent
  {
  }

  lemma ExecLast<T>(s: Ring<T>, run: seq<Action<T>>)
    requires run != []
    ensures Exec(s, run) == Step(Exec(s, run[..|run| - 1]), run[|run| - 1])
  {
    var before, a := run[..|run| - 1], run[|run| - 1];
    assert run == before + [a] && [a][1..] == [];
    ExecAppend(s, before, [a]);
    assert Exec(Exec(s, before), [a]) == Step(Exec(s, before), a);
  }

  /** The events reset themselves: each is set exactly if its side has been signalled, while not parked,
      since it last waited. */
  lemma {:induction false} EventsResetThemselves<T>(s: Ring<T>, run: seq<Action<T>>)
    requires Initial(s)
    ensures Exec(s, run).popEvent <==> RoomSignalled(s, run)
    ensures Exec(s, run).pushEvent <==> ValueSignalled(s, run)
    decreases |run|
  {
    if run != [] {
      var before := run[..|run| - 1];
      EventsResetThemselves(s, before);
      InitialInv(s);
      ExecKeepsInv(s, before);
      assert Sane(Exec(s, before)) by { InvUnwraps(Exec(s, before)); }
      ExecLast(s, run);
      StepSignals(Exec(s, before), run[|run| - 1]);
    }
  }

  // ------------------------------------------------ calls come to an end

  function Flat<T>(rounds: seq<seq<T>>): seq<T> {
    if rounds == [] then [] else rounds[0] + Flat(rounds[1..])
  }

  lemma {:induction false} ExecAppend<T>(s: Ring<T>, run: seq<Action<T>>, more: seq<Action<T>>)
    ensures Exec(s, run + more) == Exec(Exec(s, run), more)
    decreases |run|
  {
    if run == [] {
      assert run + more == more;
    } else {
      assert (run + more)[0] == run[0] && (run + more)[1..] == run[1..] + more;
      ExecAppend(Step(s, run[0]), run[1..], more);
    }
  }

  predicate ProducerRuns<T>(run: seq<Action<T>>) { exists k :: 0 <= k < |run| && run[k].ProducerStep? }

  predicate ConsumerRuns<T>(run: seq<Action<T>>) { exists k :: 0 <= k < |run| && run[k].ConsumerStep? }

  /** Each of the two threads runs at least once. */
  predicate Fair<T>(run: seq<Action<T>>) { ProducerRuns(run) && ConsumerRuns(run) }

  predicate NoPush<T>(run: seq<Action<T>>) { forall k :: 0 <= k < |run| ==> !run[k].CallPush? }

  predicate NoTake<T>(run: seq<Action<T>>) { forall k :: 0 <= k < |run| ==> !run[k].CallPop? && !run[k].CallPeek? }

  /** How far the producer is from the end of its call, if there is room. */
  function PushLeft<T>(s: Ring<T>): nat {
    match s.p
    case PIdle => 0
    case PSignal => 1
    case PInc(_) => 2
    case PStore(_) => 3
    case PTest(_) => 4
    case PParked(_) => 5
    case PWait(_) => if s.popEvent then 5 else 6
  }

  /** A push in progress has room, or has put its value in already. */
  ghost predicate PushFits<T>(s: Ring<T>) { InFlight(s.p) ==> |Pushed(s)| < |Popped(s)| + s.size }

  ghost predicate PushGoesOn<T>(s: Ring<T>, a: Action<T>, q: Ring<T>) {
    && PushFits(q) && q.called == s.called
    && (PushLeft(q) < PushLeft(s) || (PushLeft(q) == PushLeft(s) && q.p == s.p))
    && (!s.p.PIdle? && (if s.p.PParked? then a.ConsumerStep? else a.ProducerStep?) ==> PushLeft(q) < PushLeft(s))
  }

  lemma PushOwnStep<T>(s: Ring<T>)
    requires Unwrapped(s) && CallsMatch(s) && PushFits(s)
    ensures PushGoesOn(s, ProducerStep, Step(s, ProducerStep))
  {
    StepRoom(s, ProducerStep);
  }

  lemma PushConsumerStep<T>(s: Ring<T>)
    requires Unwrapped(s) && CallsMatch(s) && Wakeups(s) && PushFits(s)
    ensures PushGoesOn(s, ConsumerStep, Step(s, ConsumerStep))
  {
    StepRoom(s, ConsumerStep);
    var q := ConsumerMove(s);
    assert q.called == s.called;
    if s.c.CSignal? {
      assert q.p == if s.p.PParked? then PTest(s.p.x) else s.p;
    } else {
      assert q.p == s.p && q.popEvent == s.popEvent;
    }
  }

  lemma PushCallStep<T>(s: Ring<T>, a: Action<T>)
    requires Sane(s) && PushFits(s) && (a.CallPop? || a.CallPeek?)
    ensures PushGoesOn(s, a, Step(s, a))
  {
  }

  lemma PushStep<T>(s: Ring<T>, a: Action<T>)
    requires Inv(s) && PushFits(s) && !a.CallPush?
    ensures PushGoesOn(s, a, Step(s, a))
  {
    InvUnwraps(s);
    if a.ProducerStep? { PushOwnStep(s); } else if a.ConsumerStep? { PushConsumerStep(s); } else { PushCallStep(s, a); }
  }

  lemma {:induction false} PushSteps<T>(s: Ring<T>, run: seq<Action<T>>)
    requires Inv(s) && PushFits(s) && NoPush(run)
    ensures Inv(Exec(s, run)) && PushFits(Exec(s, run)) && Exec(s, run).called == s.called
    ensures PushLeft(Exec(s, run)) <= PushLeft(s)
    ensures !s.p.PIdle? && (if s.p.PParked? then ConsumerRuns(run) else ProducerRuns(run)) ==>
              PushLeft(Exec(s, run)) < PushLeft(s)
    decreases |run|
  {
    if run != [] {
      StepKeepsInv(s, run[0]);
      PushStep(s, run[0]);
      PushSteps(Step(s, run[0]), run[1..]);
      assert ProducerRuns(run) ==> run[0].ProducerStep? || ProducerRuns(run[1..]) by { RunsLater(run); }
      assert ConsumerRuns(run) ==> run[0].ConsumerStep? || ConsumerRuns(run[1..]) by { RunsLater(run); }
    }
  }

  lemma RunsLater<T>(run: seq<Action<T>>)
    requires run != []
    ensures ProducerRuns(run) ==> run[0].ProducerStep? || ProducerRuns(run[1..])
    ensures ConsumerRuns(run) ==> run[0].ConsumerStep? || ConsumerRuns(run[1..])
  {
    if k :| 0 < k < |run| && run[k].ProducerStep? { assert run[1..][k - 1].ProducerStep?; }
    if k :| 0 < k < |run| && run[k].ConsumerStep? { assert run[1..][k - 1].ConsumerStep?; }
  }

  lemma {:induction false} PushRounds<T>(s: Ring<T>, rounds: seq<seq<Action<T>>>)
    requires Inv(s) && PushFits(s) && forall r :: r in rounds ==> Fair(r) && NoPush(r)
    ensures Exec(s, Flat(rounds)).called == s.called
    ensures |rounds| >= PushLeft(s) ==> Exec(s, Flat(rounds)).p.PIdle?
    decreases |rounds|
  {
    if rounds != [] {
      var s' := Exec(s, rounds[0]);
      assert rounds[0] in rounds;
      PushSteps(s, rounds[0]);
      ExecAppend(s, rounds[0], Flat(rounds[1..]));
      PushRounds(s', rounds[1..]);
    }
  }

  /** A push that has room ends: once both threads have had six turns, in any order and with any other
      calls in between, it has returned and its value is in the queue. */
  lemma PushEnds<T>(s: Ring<T>, before: seq<Action<T>>, rounds: seq<seq<Action<T>>>)
    requires Initial(s) && PushFits(Exec(s, before)) && |rounds| >= 6
    requires forall r :: r in rounds ==> Fair(r) && NoPush(r)
    ensures var q := Exec(s, before);
            var e := Exec(q, Flat(rounds));
            e.p.PIdle? && Pushed(e) == e.called == q.called
  {
    InitialInv(s);
    ExecKeepsInv(s, before);
    PushRounds(Exec(s, before), rounds);
  }

  /** How far the consumer is from the end of its call, if there is a value. */
  function TakeLeft<T>(s: Ring<T>): nat {
    match s.c
    case CIdle => 0
    case CSignal(_) => 1
    case CInc(_) => 2
    case CLoad(_) => 3
    case CTest(_) => 4
    case CParked(_) => 5
    case CWait(_) => if s.pushEvent then 5 else 6
  }

  /** A pop or peek in progress has a value to return, or has returned it already. */
  ghost predicate TakeFits<T>(s: Ring<T>) { s.c.CIdle? || s.c.CSignal? || |Popped(s)| < |Pushed(s)| }

  /** From s to q the call in progress has gone on, or has returned the oldest value. */
  ghost predicate TakeOutcome<T>(s: Ring<T>, q: Ring<T>) {
    if q.c.CIdle? then
      && (PopInProgress(s.c) ==> |s.returned| < |q.called| && q.returned == s.returned + [q.called[|s.returned|]] && q.seen == s.seen)
      && (PeekInProgress(s.c) ==> |s.returned| < |q.called| && q.seen == s.seen + [q.called[|s.returned|]] && q.returned == s.returned)
      && (s.c.CIdle? ==> q.returned == s.returned && q.seen == s.seen)
    else
      && q.returned == s.returned && q.seen == s.seen
      && (PopInProgress(q.c) <==> PopInProgress(s.c)) && (PeekInProgress(q.c) <==> PeekInProgress(s.c))
  }

  ghost predicate TakeGoesOn<T>(s: Ring<T>, a: Action<T>, q: Ring<T>) {
    && TakeFits(q)
    && (TakeLeft(q) < TakeLeft(s) || (TakeLeft(q) == TakeLeft(s) && q.c == s.c))
    && (!s.c.CIdle? && (if s.c.CParked? then a.ProducerStep? else a.ConsumerStep?) ==> TakeLeft(q) < TakeLeft(s))
  }

  lemma TakeOwnStep<T>(s: Ring<T>)
    requires Unwrapped(s) && CallsMatch(s) && TakeFits(s)
    ensures TakeGoesOn(s, ConsumerStep, Step(s, ConsumerStep))
  {
    StepRoom(s, ConsumerStep);
  }

  lemma TakeProducerStep<T>(s: Ring<T>)
    requires Unwrapped(s) && CallsMatch(s) && Wakeups(s) && TakeFits(s)
    ensures TakeGoesOn(s, ProducerStep, Step(s, ProducerStep))
  {
    StepRoom(s, ProducerStep);
    if s.c.CParked? { assert s.p.PSignal?; }
  }

  lemma TakeCallStep<T>(s: Ring<T>, a: Action<T>)
    requires Sane(s) && CallsMatch(s) && TakeFits(s) && a.CallPush?
    ensures TakeGoesOn(s, a, Step(s, a))
  {
    StepPushed(s, a);
  }

  lemma TakeStep<T>(s: Ring<T>, a: Action<T>)
    requires Inv(s) && TakeFits(s) && !a.CallPop? && !a.CallPeek?
    ensures TakeGoesOn(s, a, Step(s, a))
  {
    InvUnwraps(s);
    if a.ConsumerStep? { TakeOwnStep(s); } else if a.ProducerStep? { TakeProducerStep(s); } else { TakeCallStep(s, a); }
  }

  lemma TakeStepOutcome<T>(s: Ring<T>, a: Action<T>)
    requires Inv(s) && !a.CallPop? && !a.CallPeek?
    ensures TakeOutcome(s, Step(s, a)) && s.called <= Step(s, a).called
  {
    assert Sane(s) by { InvUnwraps(s); }
    if a.ConsumerStep? {
      if s.c.CLoad? { OldestLoaded(s); }
      if s.c.CSignal? { OldestReturned(s); }
      OwnOutcome(s);
    } else {
      OtherOutcome(s, a);
    }
  }

  lemma OwnOutcome<T>(s: Ring<T>)
    requires Sane(s)
    requires s.c.CLoad? ==> |s.returned| < |s.called| && s.storage[Slot(s, s.read)] == s.called[|s.returned|]
    requires s.c.CSignal? ==> |s.returned| < |s.called| && s.c.x == s.called[|s.returned|]
    ensures TakeOutcome(s, ConsumerMove(s)) && ConsumerMove(s).called == s.called
  {
  }

  lemma OtherOutcome<T>(s: Ring<T>, a: Action<T>)
    requires Sane(s) && !a.CallPop? && !a.CallPeek? && !a.ConsumerStep?
    ensures TakeOutcome(s, Step(s, a)) && s.called <= Step(s, a).called
  {
  }

  /** What a load reads and what a pop returns is the oldest value. */
  lemma OldestLoaded<T>(s: Ring<T>)
    requires Inv(s) && s.c.CLoad?
    ensures Sane(s) && |s.returned| < |s.called| && s.storage[Slot(s, s.read)] == s.called[|s.returned|]
  {
    InvUnwraps(s);
    assert s.storage[|Popped(s)| % s.size] == Pushed(s)[|Popped(s)|];
  }

  lemma OldestReturned<T>(s: Ring<T>)
    requires Inv(s) && s.c.CSignal?
    ensures |s.returned| < |s.called| && s.c.x == s.called[|s.returned|]
  {
    assert Popped(s)[|s.returned|] == s.c.x;
  }

  lemma TakeOutcomeOn<T>(s: Ring<T>, m: Ring<T>, q: Ring<T>)
    requires TakeOutcome(s, m) && TakeOutcome(m, q) && m.called <= q.called
    requires !s.c.CIdle? ==> PopInProgress(s.c) || PeekInProgress(s.c)
    requires m.c.CIdle? ==> q.c.CIdle?
    ensures TakeOutcome(s, q)
  {
  }

  lemma {:induction false} TakeSteps<T>(s: Ring<T>, run: seq<Action<T>>)
    requires Inv(s) && TakeFits(s) && NoTake(run)
    ensures Inv(Exec(s, run)) && TakeFits(Exec(s, run)) && TakeOutcome(s, Exec(s, run)) && s.called <= Exec(s, run).called
    ensures TakeLeft(Exec(s, run)) <= TakeLeft(s)
    ensures !s.c.CIdle? && (if s.c.CParked? then ProducerRuns(run) else ConsumerRuns(run)) ==>
              TakeLeft(Exec(s, run)) < TakeLeft(s)
    decreases |run|
  {
    if run != [] {
      var s' := Step(s, run[0]);
      StepKeepsInv(s, run[0]);
      TakeStep(s, run[0]);
      TakeStepOutcome(s, run[0]);
      TakeSteps(s', run[1..]);
      TakeOutcomeOn(s, s', Exec(s, run));
      RunsLater(run);
    }
  }

  lemma {:induction false} TakeRounds<T>(s: Ring<T>, rounds: seq<seq<Action<T>>>)
    requires Inv(s) && TakeFits(s) && forall r :: r in rounds ==> Fair(r) && NoTake(r)
    ensures TakeOutcome(s, Exec(s, Flat(rounds))) && s.called <= Exec(s, Flat(rounds)).called
    ensures |rounds| >= TakeLeft(s) ==> Exec(s, Flat(rounds)).c.CIdle?
    ensures s.c.CIdle? ==> Exec(s, Flat(rounds)).c.CIdle?
    decreases |rounds|
  {
    if rounds != [] {
      var s' := Exec(s, rounds[0]);
      assert rounds[0] in rounds;
      TakeSteps(s, rounds[0]);
      ExecAppend(s, rounds[0], Flat(rounds[1..]));
      TakeRounds(s', rounds[1..]);
      TakeOutcomeOn(s, s', Exec(s, Flat(rounds)));
    }
  }

  /** So does a pop or a peek that has a value to return: once both threads have had six turns it has
      returned, a pop having taken the oldest value and a peek having taken nothing. */
  lemma TakeEnds<T>(s: Ring<T>, before: seq<Action<T>>, rounds: seq<seq<Action<T>>>)
    requires Initial(s) && TakeFits(Exec(s, before)) && |rounds| >= 6
    requires forall r :: r in rounds ==> Fair(r) && NoTake(r)
    ensures var q := Exec(s, before);
            var e := Exec(q, Flat(rounds));
            && e.c.CIdle?
            && (PopInProgress(q.c) ==>
                  |q.returned| < |e.called| && e.returned == q.returned + [e.called[|q.returned|]] && e.seen == q.seen)
            && (PeekInProgress(q.c) ==>
                  |q.returned| < |e.called| && e.seen == q.seen + [e.called[|q.returned|]] && e.returned == q.returned)
  {
    InitialInv(s);
    ExecKeepsInv(s, before);
    TakeRounds(Exec(s, before), rounds);
  }
}
