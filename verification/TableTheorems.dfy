/** What holds of the service table over every sequence of API calls. */
module TableTheorems {
  import opened Limits
  import opened ServiceTable
  import opened Bits

  // -------------------------------------------------------------- invariant

  /** Handle h was issued for slot i at some reservation so far. */
  ghost predicate Issued(t: Table, h: nat, i: nat) {
    exists k: nat :: k < t.issued && h == SeqAt(k) + i
  }

  ghost predicate SlotsOk(t: Table) {
    && |t.slots| == SLOTS && t.used <= SLOTS
    && (forall i :: 0 <= i < SLOTS && t.slots[i].Live() ==> i < t.used && Issued(t, t.slots[i].libHandle, i))
    && (t.initialised == 0 ==> forall i :: 0 <= i < SLOTS ==> !t.slots[i].Live())
  }

  ghost predicate LifeOk(t: Table) {
    && t.initialised >= 0
    && (t.initialised > 0 ==> t.fd in t.descriptors)
    && (forall d :: d in t.descriptors ==> 0 < d <= t.opens)
    && (t.connected ==> t.initialised > 0)
  }

  ghost predicate ServersOk(t: Table)
    requires |t.slots| == SLOTS
  {
    forall i, j :: 0 <= i < SLOTS && 0 <= j < SLOTS && IsServer(t.slots[i]) && IsServer(t.slots[j]) ==>
      SameCallbacks(t.slots[i], t.slots[j])
  }

  predicate SameCallbacks(a: Slot, b: Slot) {
    a.fourcc == b.fourcc ==> a.callback == b.callback && a.vchiCallback == b.vchiCallback
  }

  predicate IsServer(s: Slot) { s.Live() && !s.isClient }

  ghost predicate Inv(t: Table) {
    && SlotsOk(t) && LifeOk(t) && ServersOk(t)
    && t.handleSeq == SeqAfter(t.issued)
  }

  lemma {:induction false} CountAtMost(slots: seq<Slot>, n: nat)
    requires forall j :: n <= j < |slots| ==> !slots[j].Live()
    ensures CountLive(slots) <= n
  {
    if |slots| > n {
      CountAtMost(slots[..|slots| - 1], n);
    } else {
      CountAtMostSize(slots);
    }
  }

  lemma {:induction false} CountAtMostSize(slots: seq<Slot>)
    ensures CountLive(slots) <= |slots|
  {
    if slots != [] { CountAtMostSize(slots[..|slots| - 1]); }
  }

  lemma {:induction false} CountExactly(slots: seq<Slot>, n: nat)
    requires n <= |slots|
    requires forall j :: 0 <= j < |slots| ==> (slots[j].Live() <==> j < n)
    ensures CountLive(slots) == n
  {
    if slots != [] { CountExactly(slots[..|slots| - 1], if n == |slots| then n - 1 else n); }
  }

  /** The slot created at i while its ioctl is in progress. */
  function Fresh(t: Table, i: nat, isOpen: bool, params: Params, vchiCallback: Fn): Slot
    requires i < |t.slots|
  {
    Slot(SeqAt(t.issued) + i, params.fourcc, params.callback, vchiCallback, params.userdata, t.slots[i].handle, isOpen)
  }

  lemma ReserveIs(t: Table, i: nat, isOpen: bool, params: Params, vchiCallback: Fn)
    requires |t.slots| == SLOTS && t.handleSeq == SeqAfter(t.issued) && i < SLOTS
    ensures var r := Reserve(t, i, isOpen, params, vchiCallback);
            && r.slots == t.slots[i := Fresh(t, i, isOpen, params, vchiCallback)]
            && r.slots[i].Live() && r.issued == t.issued + 1 && r.handleSeq == SeqAfter(r.issued)
  {
    ClaimIs(t, i);
    var claimed := Claim(t, i).slots;
    assert claimed[i := Fresh(t, i, isOpen, params, vchiCallback)] == t.slots[i := Fresh(t, i, isOpen, params, vchiCallback)];
  }

  /** Taking a slot gives it the handle of the next sequence number and changes no other slot. */
  lemma ClaimIs(t: Table, i: nat)
    requires |t.slots| == SLOTS && t.handleSeq == SeqAfter(t.issued) && i < SLOTS
    ensures var c := Claim(t, i);
            && c.slots == t.slots[i := t.slots[i].(libHandle := SeqAt(t.issued) + i)]
            && SeqAt(t.issued) + i > 0 && c.issued == t.issued + 1 && c.handleSeq == SeqAfter(c.issued)
  {
    NextHandle(t.handleSeq, t.issued, i);
  }

  lemma NextHandle(handleSeq: nat, issued: nat, i: nat)
    requires handleSeq == SeqAfter(issued) && i < SLOTS
    ensures Or(FirstSeq(handleSeq), i) == SeqAt(issued) + i > 0
    ensures (FirstSeq(handleSeq) + SLOTS) % WRAP == SeqAfter(issued + 1)
  {
    SeqFollows(issued);
    HandleBits(issued, i);
  }

  lemma CreateNothing(t: Table, isOpen: bool, params: Params, vchiCallback: Fn, driver: Driver)
    requires t.used <= |t.slots| == SLOTS && Chosen(t, isOpen, params, vchiCallback) >= SLOTS
    ensures Step(t, Create(isOpen, params, vchiCallback, driver)) == t
  {
  }

  /** Every slot a creation may get is free, and every slot below it is live. */
  lemma ChosenIsLowest(t: Table, isOpen: bool, params: Params, vchiCallback: Fn)
    requires Inv(t)
    ensures var i := Chosen(t, isOpen, params, vchiCallback);
            && i <= SLOTS && i <= Max(t.used, SLOTS)
            && (i < SLOTS ==> i <= t.used && !t.slots[i].Live() && forall j :: 0 <= j < i ==> t.slots[j].Live())
  {
  }

  lemma ReserveKeepsSlots(t: Table, i: nat, isOpen: bool, params: Params, vchiCallback: Fn)
    requires Inv(t) && i == Chosen(t, isOpen, params, vchiCallback) < SLOTS
    ensures SlotsOk(Reserve(t, i, isOpen, params, vchiCallback))
  {
    var r := Reserve(t, i, isOpen, params, vchiCallback);
    ReserveIs(t, i, isOpen, params, vchiCallback);
    ChosenIsLowest(t, isOpen, params, vchiCallback);
    forall j | 0 <= j < SLOTS && r.slots[j].Live() ensures j < r.used && Issued(r, r.slots[j].libHandle, j) {
      if j == i {
        assert t.issued < r.issued;
      } else {
        assert Issued(t, t.slots[j].libHandle, j);
        var k: nat :| k < t.issued && t.slots[j].libHandle == SeqAt(k) + j;
        assert k < r.issued;
      }
    }
  }

  lemma ReserveKeepsServers(t: Table, i: nat, isOpen: bool, params: Params, vchiCallback: Fn)
    requires Inv(t) && i == Chosen(t, isOpen, params, vchiCallback) < SLOTS
    ensures ServersOk(Reserve(t, i, isOpen, params, vchiCallback))
  {
    ReserveIs(t, i, isOpen, params, vchiCallback);
    forall j | 0 <= j < SLOTS && t.slots[j].Live() && !isOpen
      ensures !t.slots[j].Mismatches(params, vchiCallback)
    {
      assert j < t.used;
    }
  }

  lemma ReserveKeepsInv(t: Table, i: nat, isOpen: bool, params: Params, vchiCallback: Fn)
    requires Inv(t) && i == Chosen(t, isOpen, params, vchiCallback) < SLOTS
    ensures Inv(Reserve(t, i, isOpen, params, vchiCallback))
  {
    ReserveIs(t, i, isOpen, params, vchiCallback);
    ReserveKeepsSlots(t, i, isOpen, params, vchiCallback);
    ReserveKeepsServers(t, i, isOpen, params, vchiCallback);
  }

  lemma FreeKeepsInv(t: Table, i: nat)
    requires Inv(t) && i < SLOTS
    ensures Inv(Free(t, i))
  {
    var r := Free(t, i);
    forall j | 0 <= j < SLOTS && r.slots[j].Live() ensures j < r.used && Issued(r, r.slots[j].libHandle, j) {
      assert Issued(t, t.slots[j].libHandle, j);
      var k: nat :| k < t.issued && t.slots[j].libHandle == SeqAt(k) + j;
      assert k < r.issued;
    }
  }

  lemma StepKeepsInv(t: Table, e: Event)
    requires Inv(t)
    ensures Inv(Step(t, e))
  {
    match e
    case Create(isOpen, params, vchiCallback, driver) =>
      var i := Chosen(t, isOpen, params, vchiCallback);
      if i < SLOTS {
        ReserveKeepsInv(t, i, isOpen, params, vchiCallback);
        if driver.Refuses? {
          FreeKeepsInv(Reserve(t, i, isOpen, params, vchiCallback), i);
        } else {
          HandleKeepsInv(Reserve(t, i, isOpen, params, vchiCallback), i, driver.handle);
        }
      }
    case Close(handle) => if Resolves(t, handle) { FreeKeepsInv(t, SlotOf(handle)); }
    case Remove(handle) => if Resolves(t, handle) { FreeKeepsInv(t, SlotOf(handle)); }
    case Init(h) => InitKeepsInv(t, h);
    case Shutdown => ShutdownKeepsInv(t);
    case Connect(_) =>
  }

  lemma HandleKeepsInv(t: Table, i: nat, h: nat)
    requires Inv(t) && i < SLOTS
    ensures Inv(SetHandle(t, i, h))
  {
  }

  lemma InitKeepsInv(t: Table, h: Handshake)
    requires Inv(t)
    ensures Inv(Step(t, Init(h)))
  {
  }

  lemma ShutdownKeepsInv(t: Table)
    requires Inv(t)
    ensures Inv(Step(t, Shutdown))
  {
  }

  lemma {:induction false} ExecKeepsInv(t: Table, run: seq<Event>)
    requires Inv(t)
    ensures Inv(Exec(t, run))
    decreases |run|
  {
    if run != [] {
      StepKeepsInv(t, run[0]);
      ExecKeepsInv(Step(t, run[0]), run[1..]);
    }
  }

  lemma ReachableInv(run: seq<Event>)
    ensures Inv(Exec(START, run))
  {
    CountAtMost(START.slots, 0);
    ExecKeepsInv(START, run);
  }

  // ------------------------------------------------------- choosing a slot

  ghost predicate AllLive(t: Table)
    requires |t.slots| == SLOTS
  {
    forall j :: 0 <= j < SLOTS ==> t.slots[j].Live()
  }

  /** Some live service uses the fourcc with another callback, or with another VCHI callback. */
  ghost predicate FourccTaken(t: Table, params: Params, vchiCallback: Fn)
    requires |t.slots| == SLOTS
  {
    exists j :: 0 <= j < SLOTS && t.slots[j].libHandle != NO_HANDLE && t.slots[j].fourcc == params.fourcc
                && (t.slots[j].callback != params.callback || t.slots[j].vchiCallback != vchiCallback)
  }

  lemma ConflictsAre(t: Table, params: Params, vchiCallback: Fn)
    requires Inv(t)
    ensures Conflicts(t, params, vchiCallback) <==> FourccTaken(t, params, vchiCallback)
  {
    if FourccTaken(t, params, vchiCallback) {
      var j :| 0 <= j < SLOTS && t.slots[j].libHandle != NO_HANDLE && t.slots[j].fourcc == params.fourcc
               && (t.slots[j].callback != params.callback || t.slots[j].vchiCallback != vchiCallback);
      assert t.slots[j].Live() && t.slots[j].Mismatches(params, vchiCallback);
    }
  }

  /** A creation on a live instance is turned away before the driver is asked exactly when it
      is a server whose fourcc some live service uses with other callbacks, or when all 32
      slots are live; otherwise it reserves the lowest-index free slot of the whole table. */
  lemma ReservesLowestFreeSlot(run: seq<Event>, isOpen: bool, params: Params, vchiCallback: Fn)
    requires Exec(START, run).initialised > 0
    ensures var t := Exec(START, run);
            && |t.slots| == SLOTS && t.used <= SLOTS
            && var i := Chosen(t, isOpen, params, vchiCallback);
               var conflict := exists j :: 0 <= j < SLOTS && t.slots[j].libHandle != NO_HANDLE && t.slots[j].fourcc == params.fourcc
                                 && (t.slots[j].callback != params.callback || t.slots[j].vchiCallback != vchiCallback);
            && (i >= SLOTS <==> (!isOpen && conflict) || forall j :: 0 <= j < SLOTS ==> t.slots[j].libHandle != NO_HANDLE)
            && (i < SLOTS ==> t.slots[i].libHandle == NO_HANDLE && forall j :: 0 <= j < i ==> t.slots[j].libHandle != NO_HANDLE)
  {
    var t := Exec(START, run);
    ReachableInv(run);
    ConflictsAre(t, params, vchiCallback);
    ChosenIsLowest(t, isOpen, params, vchiCallback);
    assert AllLive(t) <==> forall j :: 0 <= j < SLOTS ==> t.slots[j].libHandle != NO_HANDLE;
  }

  /** What a creation does to the whole table: without a reservation nothing, and otherwise the slot it
      reserves is live exactly if the driver accepts the service; no other slot changes. */
  lemma CreationExactly(run: seq<Event>, create: Event, j: nat)
    requires create.Create? && j < SLOTS
    ensures |Exec(START, run).slots| == SLOTS && Exec(START, run).used <= SLOTS
    ensures var t := Exec(START, run);
            var q := Step(t, create);
            && |q.slots| == SLOTS
            && var i := Chosen(t, create.isOpen, create.params, create.vchiCallback);
            && (t.initialised == 0 ==> i >= SLOTS)
            && (i >= SLOTS ==> q == t)
            && (i < SLOTS && j != i ==> q.slots[j] == t.slots[j])
            && (j == i ==> (q.slots[j].libHandle != NO_HANDLE <==> create.driver.Grants?))
            && (j == i && create.driver.Grants? ==>
                  q.slots[j] == Slot(ReservedHandle(t, create), create.params.fourcc, create.params.callback,
                                     create.vchiCallback, create.params.userdata, create.driver.handle, create.isOpen))
  {
    ReachableInv(run);
    var t := Exec(START, run);
    var i := Chosen(t, create.isOpen, create.params, create.vchiCallback);
    StepKeepsInv(t, create);
    if i < SLOTS { ReserveIs(t, i, create.isOpen, create.params, create.vchiCallback); }
  }

  /** The slots reserved at the height of a call: a creation holds its slot even if the driver then
      refuses it. */
  function Height(t: Table, e: Event): nat {
    if e.Create? && t.used <= |t.slots| && Chosen(t, e.isOpen, e.params, e.vchiCallback) < |t.slots|
    then CountLive(Claim(t, Chosen(t, e.isOpen, e.params, e.vchiCallback)).slots)
    else CountLive(t.slots)
  }

  predicate FirstInit(t: Table, e: Event) {
    e.Init? && e.h.Accepted? && t.initialised == 0
  }

  /** The most slots reserved at once since the run last initialised the instance. */
  function PeakReserved(t: Table, run: seq<Event>): nat
    decreases |run|
  {
    if run == [] then CountLive(t.slots) else
    var before, e := run[..|run| - 1], run[|run| - 1];
    if FirstInit(Exec(t, before), e) then 0 else Max(PeakReserved(t, before), Height(Exec(t, before), e))
  }

  lemma ClaimHeight(t: Table, i: nat)
    requires Inv(t) && i <= t.used && i < SLOTS && !t.slots[i].Live() && forall j :: 0 <= j < i ==> t.slots[j].Live()
    ensures Max(t.used, CountLive(Claim(t, i).slots)) == Max(t.used, i + 1)
  {
    var slots := Claim(t, i).slots;
    ClaimIs(t, i);
    if i == t.used { CountExactly(slots, i + 1); } else { CountAtMost(slots, t.used); }
  }

  lemma StepUsed(t: Table, e: Event)
    requires Inv(t)
    ensures Step(t, e).used == if FirstInit(t, e) then 0 else Max(t.used, Height(t, e))
  {
    CountAtMost(t.slots, t.used);
    if e.Create? {
      var i := Chosen(t, e.isOpen, e.params, e.vchiCallback);
      ChosenIsLowest(t, e.isOpen, e.params, e.vchiCallback);
      if i < SLOTS { ClaimHeight(t, i); }
    }
  }

  lemma {:induction false} UsedFollowsPeak(run: seq<Event>)
    ensures Exec(START, run).used == PeakReserved(START, run)
    decreases |run|
  {
    if run == [] {
      CountAtMost(START.slots, 0);
    } else {
      var before, e := run[..|run| - 1], run[|run| - 1];
      UsedFollowsPeak(before);
      ReachableInv(before);
      ExecLast(START, run);
      StepUsed(Exec(START, before), e);
    }
  }

  /** used_services is the largest number of slots that were reserved at the same time since
      the instance was last initialised, no live slot lies beyond it, and re-initialising,
      which sets it to zero, happens only when no slot is live. */
  lemma UsedIsPeak(run: seq<Event>)
    ensures var t := Exec(START, run);
            && |t.slots| == SLOTS
            && t.used == PeakReserved(START, run)
            && CountLive(t.slots) <= t.used <= SLOTS
            && (forall i :: 0 <= i < SLOTS && t.slots[i].Live() ==> i < t.used)
            && (t.initialised == 0 ==> CountLive(t.slots) == 0)
  {
    var t := Exec(START, run);
    ReachableInv(run);
    UsedFollowsPeak(run);
    CountAtMost(t.slots, t.used);
    if t.initialised == 0 { CountAtMost(t.slots, 0); }
  }

  /** Whatever clients and servers were mixed, live servers with equal fourcc agree on both callbacks. */
  lemma ServersAgree(run: seq<Event>, i: nat, j: nat)
    requires i < SLOTS && j < SLOTS && |Exec(START, run).slots| == SLOTS
    requires IsServer(Exec(START, run).slots[i]) && IsServer(Exec(START, run).slots[j])
    requires Exec(START, run).slots[i].fourcc == Exec(START, run).slots[j].fourcc
    ensures var t := Exec(START, run);
            t.slots[i].callback == t.slots[j].callback && t.slots[i].vchiCallback == t.slots[j].vchiCallback
  {
    ReachableInv(run);
    assert SameCallbacks(Exec(START, run).slots[i], Exec(START, run).slots[j]);
  }

  // ---------------------------------------------------------------- lookups

  /** A nonzero handle resolves exactly when some live slot has it; zero resolves exactly when
      slot 0 is free. */
  lemma LookupFindsLive(run: seq<Event>, handle: nat)
    ensures var t := Exec(START, run);
            && |t.slots| == SLOTS
            && (handle != NO_HANDLE ==>
                  (Resolves(t, handle) <==> exists i :: 0 <= i < SLOTS && t.slots[i].Live() && t.slots[i].libHandle == handle))
            && (Resolves(t, NO_HANDLE) <==> !t.slots[0].Live())
  {
    var t := Exec(START, run);
    ReachableInv(run);
    Pow2Slot();
    forall i | 0 <= i < SLOTS && t.slots[i].Live() && t.slots[i].libHandle == handle ensures SlotOf(handle) == i {
      LiveSlotOf(t, i);
    }
  }

  lemma LiveSlotOf(t: Table, i: nat)
    requires Inv(t) && i < SLOTS && t.slots[i].Live()
    ensures SlotOf(t.slots[i].libHandle) == i
  {
    var h := t.slots[i].libHandle;
    assert Issued(t, h, i);
    var k: nat :| k < t.issued && h == SeqAt(k) + i;
    HandleBits(k, i);
  }

  lemma Pow2Slot()
    ensures SlotOf(NO_HANDLE) == 0
  {
  }

  lemma IssuedGrows(t: Table, e: Event)
    ensures t.issued <= Step(t, e).issued <= t.issued + 1
  {
  }

  lemma {:induction false} IssuedGrowsOver(t: Table, run: seq<Event>)
    ensures t.issued <= Exec(t, run).issued
    decreases |run|
  {
    if run != [] { IssuedGrowsOver(Step(t, run[0]), run[1..]); }
  }

  /** Only a reservation makes a handle resolve, and it issues the next sequence number. */
  lemma OnlyReservingResolves(t: Table, e: Event, k: nat, i: nat)
    requires Inv(t) && i < SLOTS && !Resolves(t, SeqAt(k) + i) && Resolves(Step(t, e), SeqAt(k) + i)
    ensures SeqAt(k) == SeqAt(t.issued) && Step(t, e).issued == t.issued + 1
  {
    HandleBits(k, i);
    HandleBits(t.issued, i);
    if e.Create? {
      var c := Chosen(t, e.isOpen, e.params, e.vchiCallback);
      if c < SLOTS { ReserveIs(t, c, e.isOpen, e.params, e.vchiCallback); }
    }
  }

  /** Once a handle does not resolve, it stays dead through any calls, shutdowns and
      re-initialisations, for as long as fewer than 2^27 - 1 reservations separate it from
      its own. */
  lemma {:induction false} DeadHandleStaysDead(t: Table, run: seq<Event>, k: nat, i: nat)
    requires Inv(t) && i < SLOTS && k < t.issued && !Resolves(t, SeqAt(k) + i)
    requires Exec(t, run).issued <= k + CYCLE
    ensures !Resolves(Exec(t, run), SeqAt(k) + i)
    decreases |run|
  {
    if run != [] {
      var t' := Step(t, run[0]);
      StepKeepsInv(t, run[0]);
      IssuedGrows(t, run[0]);
      IssuedGrowsOver(t', run[1..]);
      if Resolves(t', SeqAt(k) + i) {
        OnlyReservingResolves(t, run[0], k, i);
        HandlesDistinct(k, t.issued, 0, 0);
      }
      DeadHandleStaysDead(t', run[1..], k, i);
    }
  }

  /** The call ends the service that has handle h. */
  predicate Ends(close: Event, h: nat, isClient: bool, t: Table) {
    close == Remove(h) || (close == Close(h) && isClient) || (close == Shutdown && t.initialised == 1)
  }

  /** The handle a creation reserves on slot i. */
  function ReservedHandle(t: Table, c: Event): nat
    requires c.Create? && t.used <= |t.slots| == SLOTS && Chosen(t, c.isOpen, c.params, c.vchiCallback) < SLOTS
  {
    var i := Chosen(t, c.isOpen, c.params, c.vchiCallback);
    Reserve(t, i, c.isOpen, c.params, c.vchiCallback).slots[i].libHandle
  }

  ghost predicate Reserves(t: Table, c: Event) {
    c.Create? && t.used <= |t.slots| == SLOTS && Chosen(t, c.isOpen, c.params, c.vchiCallback) < SLOTS
  }

  /** A reserved handle is nonzero, carries its slot in the low five bits, and uses one sequence number. */
  lemma ReservedIs(t: Table, c: Event)
    requires Inv(t) && Reserves(t, c)
    ensures var i := Chosen(t, c.isOpen, c.params, c.vchiCallback);
            && ReservedHandle(t, c) == SeqAt(t.issued) + i && 0 < ReservedHandle(t, c) < WRAP
            && SlotOf(ReservedHandle(t, c)) == i
    ensures Step(t, c).issued == t.issued + 1
  {
    var i := Chosen(t, c.isOpen, c.params, c.vchiCallback);
    assert ReservedHandle(t, c) == SeqAt(t.issued) + i by { ReserveIs(t, i, c.isOpen, c.params, c.vchiCallback); }
    HandleBits(t.issued, i);
    ReservingIssues(t, c);
  }

  lemma ReservingIssues(t: Table, c: Event)
    requires Reserves(t, c)
    ensures Step(t, c).issued == t.issued + 1
  {
  }

  /** Any two reservations of a run get nonzero 32-bit handles that carry their slots in the low
      five bits, and different ones unless at least 2^27 - 1 reservations separate them;
      shutdowns and re-initialisations in between change nothing. */
  lemma ReservedHandlesDiffer(before: seq<Event>, c1: Event, between: seq<Event>, c2: Event)
    requires Reserves(Exec(START, before), c1)
    requires Reserves(Exec(Step(Exec(START, before), c1), between), c2)
    ensures var t1 := Exec(START, before);
            var t2 := Exec(Step(t1, c1), between);
            && 0 < ReservedHandle(t1, c1) < WRAP
            && SlotOf(ReservedHandle(t1, c1)) == Chosen(t1, c1.isOpen, c1.params, c1.vchiCallback)
            && (t2.issued < t1.issued + CYCLE ==> ReservedHandle(t1, c1) != ReservedHandle(t2, c2))
  {
    var t1 := Exec(START, before);
    var t2 := Exec(Step(t1, c1), between);
    assert Inv(t1) && Inv(t2) by {
      ReachableInv(before);
      StepKeepsInv(t1, c1);
      ExecKeepsInv(Step(t1, c1), between);
    }
    ReservedIs(t1, c1);
    ReservedIs(t2, c2);
    IssuedGrowsOver(Step(t1, c1), between);
    if t2.issued < t1.issued + CYCLE {
      HandlesDistinct(t1.issued, t2.issued, Chosen(t1, c1.isOpen, c1.params, c1.vchiCallback),
                      Chosen(t2, c2.isOpen, c2.params, c2.vchiCallback));
    }
  }

  /** The slot of a service that create has set up under handle h. */
  function SlotFor(create: Event, h: nat): Slot
    requires create.Create? && create.driver.Grants?
  {
    Slot(h, create.params.fourcc, create.params.callback, create.vchiCallback, create.params.userdata,
         create.driver.handle, create.isOpen)
  }

  lemma CreationResolves(t: Table, create: Event)
    requires Inv(t) && Reserves(t, create) && create.driver.Grants?
    ensures var i, h := Chosen(t, create.isOpen, create.params, create.vchiCallback), ReservedHandle(t, create);
            var t' := Step(t, create);
            && h == SeqAt(t.issued) + i && SlotOf(h) == i && Inv(t') && t'.issued == t.issued + 1
            && Resolves(t', h) && t'.slots[i] == SlotFor(create, h)
  {
    var i := Chosen(t, create.isOpen, create.params, create.vchiCallback);
    ReserveIs(t, i, create.isOpen, create.params, create.vchiCallback);
    ReservedIs(t, create);
    StepKeepsInv(t, create);
  }

  /** A service that has ended never resolves again within the window. */
  lemma EndedForGood(t: Table, between: seq<Event>, close: Event, after: seq<Event>, h: nat, isClient: bool, k: nat, i: nat)
    requires Inv(t) && i < SLOTS && k + 1 == t.issued && h == SeqAt(k) + i && SlotOf(h) == i
    requires Resolves(t, h) && t.slots[i].isClient == isClient
    requires Ends(close, h, isClient, Exec(t, between))
    requires Exec(Step(Exec(t, between), close), after).issued <= k + CYCLE
    ensures !Resolves(Exec(Step(Exec(t, between), close), after), h)
  {
    var t2 := Exec(t, between);
    IssuedGrowsOver(t, between);
    IssuedGrows(t2, close);
    IssuedGrowsOver(Step(t2, close), after);
    SameSlot(t, between, k, i);
    EndingKills(t2, close, h, i, isClient);
    StepKeepsInv(t2, close);
    DeadHandleStaysDead(Step(t2, close), after, k, i);
  }

  lemma EndingKills(t: Table, close: Event, h: nat, i: nat, isClient: bool)
    requires Inv(t) && i < SLOTS && SlotOf(h) == i && h != NO_HANDLE && Ends(close, h, isClient, t)
    requires Resolves(t, h) ==> t.slots[i].isClient == isClient
    ensures !Resolves(Step(t, close), h)
  {
    if Resolves(t, h) {
      KeepsSlot(t, close, i);
    } else if close == Shutdown {
      StepKeepsInv(t, close);
    }
  }

  /** The service a granted creation returns resolves to its slot; once it is closed (by a
      client), removed, or swept away by the last shutdown, its handle never resolves again
      within the window. */
  lemma ClosedForGood(before: seq<Event>, create: Event, between: seq<Event>, close: Event, after: seq<Event>)
    requires Reserves(Exec(START, before), create) && create.driver.Grants?
    requires Ends(close, ReservedHandle(Exec(START, before), create), create.isOpen,
                  Exec(Step(Exec(START, before), create), between))
    requires Exec(Step(Exec(Step(Exec(START, before), create), between), close), after).issued
          <= Exec(START, before).issued + CYCLE
    ensures var t := Exec(START, before);
            && Resolves(Step(t, create), ReservedHandle(t, create))
            && !Resolves(Exec(Step(Exec(Step(t, create), between), close), after), ReservedHandle(t, create))
  {
    ReachableInv(before);
    ClosedFrom(Exec(START, before), create, between, close, after);
  }

  lemma ClosedFrom(t: Table, create: Event, between: seq<Event>, close: Event, after: seq<Event>)
    requires Inv(t) && Reserves(t, create) && create.driver.Grants?
    requires Ends(close, ReservedHandle(t, create), create.isOpen, Exec(Step(t, create), between))
    requires Exec(Step(Exec(Step(t, create), between), close), after).issued <= t.issued + CYCLE
    ensures Resolves(Step(t, create), ReservedHandle(t, create))
    ensures !Resolves(Exec(Step(Exec(Step(t, create), between), close), after), ReservedHandle(t, create))
  {
    var i := Chosen(t, create.isOpen, create.params, create.vchiCallback);
    CreationResolves(t, create);
    EndedForGood(Step(t, create), between, close, after, ReservedHandle(t, create), create.isOpen, t.issued, i);
  }

  /** While a handle keeps resolving, nothing changes in its slot. */
  lemma {:induction false} SameSlot(t: Table, run: seq<Event>, k: nat, i: nat)
    requires Inv(t) && i < SLOTS && k < t.issued && Resolves(t, SeqAt(k) + i)
    requires Exec(t, run).issued <= k + CYCLE
    ensures Inv(Exec(t, run))
    ensures Resolves(Exec(t, run), SeqAt(k) + i) ==> Exec(t, run).slots[i] == t.slots[i]
    decreases |run|
  {
    HandleBits(k, i);
    if run != [] {
      var t' := Step(t, run[0]);
      StepKeepsInv(t, run[0]);
      IssuedGrows(t, run[0]);
      IssuedGrowsOver(t', run[1..]);
      if Resolves(t', SeqAt(k) + i) {
        KeepsSlot(t, run[0], i);
        SameSlot(t', run[1..], k, i);
      } else {
        ExecKeepsInv(t', run[1..]);
        DeadHandleStaysDead(t', run[1..], k, i);
      }
    }
  }

  /** A call changes nothing in a live slot, or ends its service and frees it. */
  lemma KeepsSlot(t: Table, e: Event, i: nat)
    requires Inv(t) && i < SLOTS && t.slots[i].Live()
    ensures |Step(t, e).slots| == SLOTS
    ensures if Ends(e, t.slots[i].libHandle, t.slots[i].isClient, t) then !Step(t, e).slots[i].Live()
            else Step(t, e).slots[i] == t.slots[i]
  {
    LiveSlotOf(t, i);
    StepKeepsInv(t, e);
    if e.Create? {
      var c := Chosen(t, e.isOpen, e.params, e.vchiCallback);
      if c < SLOTS { ReserveIs(t, c, e.isOpen, e.params, e.vchiCallback); }
    }
  }

  /** No call of the run ends the service with handle h. */
  predicate NeverEnded(t: Table, run: seq<Event>, h: nat, isClient: bool)
    decreases |run|
  {
    run != [] ==> !Ends(run[0], h, isClient, t) && NeverEnded(Step(t, run[0]), run[1..], h, isClient)
  }

  /** The call takes slot i for a new service. */
  predicate Picks(t: Table, e: Event, i: nat) {
    e.Create? && t.used <= |t.slots| && Chosen(t, e.isOpen, e.params, e.vchiCallback) == i
  }

  predicate NotReused(t: Table, run: seq<Event>, i: nat)
    decreases |run|
  {
    run != [] ==> !Picks(t, run[0], i) && NotReused(Step(t, run[0]), run[1..], i)
  }

  /** A call that does not take slot i for a new service changes nothing in it but a live handle that
      it ends. */
  lemma KeepsRest(t: Table, e: Event, i: nat)
    requires Inv(t) && i < SLOTS && !Picks(t, e, i)
    ensures |Step(t, e).slots| == SLOTS
    ensures Step(t, e).slots[i] in {t.slots[i], t.slots[i].(libHandle := NO_HANDLE)}
  {
    StepKeepsInv(t, e);
    if e.Create? {
      var c := Chosen(t, e.isOpen, e.params, e.vchiCallback);
      if c < SLOTS { ReserveIs(t, c, e.isOpen, e.params, e.vchiCallback); }
    }
  }

  lemma {:induction false} FreeSlotStays(t: Table, run: seq<Event>, i: nat)
    requires Inv(t) && i < SLOTS && !t.slots[i].Live() && NotReused(t, run, i)
    ensures Inv(Exec(t, run)) && Exec(t, run).slots[i] == t.slots[i]
    decreases |run|
  {
    if run != [] {
      StepKeepsInv(t, run[0]);
      KeepsRest(t, run[0], i);
      FreeSlotStays(Step(t, run[0]), run[1..], i);
    }
  }

  /** Until a slot is taken for a new service, it holds what the last one had, with the handle cleared
      from the call on that ended it. */
  lemma {:induction false} SlotOutlivesService(t: Table, run: seq<Event>, i: nat)
    requires Inv(t) && i < SLOTS && t.slots[i].Live() && NotReused(t, run, i)
    ensures var h := t.slots[i].libHandle;
            && Inv(Exec(t, run))
            && Exec(t, run).slots[i] == t.slots[i].(libHandle := if NeverEnded(t, run, h, t.slots[i].isClient) then h else NO_HANDLE)
    decreases |run|
  {
    if run != [] {
      StepKeepsInv(t, run[0]);
      KeepsSlot(t, run[0], i);
      KeepsRest(t, run[0], i);
      if Step(t, run[0]).slots[i].Live() {
        SlotOutlivesService(Step(t, run[0]), run[1..], i);
      } else {
        FreeSlotStays(Step(t, run[0]), run[1..], i);
      }
    }
  }

  /** A service that is not ended keeps its slot: no creation takes it. */
  lemma {:induction false} LiveNotReused(t: Table, run: seq<Event>, i: nat)
    requires Inv(t) && i < SLOTS && t.slots[i].Live()
    requires NeverEnded(t, run, t.slots[i].libHandle, t.slots[i].isClient)
    ensures NotReused(t, run, i)
    decreases |run|
  {
    if run != [] {
      StepKeepsInv(t, run[0]);
      KeepsSlot(t, run[0], i);
      if run[0].Create? { ChosenIsLowest(t, run[0].isOpen, run[0].params, run[0].vchiCallback); }
      LiveNotReused(Step(t, run[0]), run[1..], i);
    }
  }

  /** Until its slot is taken for another service, through any number of other calls, a service's slot
      has the parameters it was created with and the driver's handle it was given, and its handle as
      long as no call has ended it; and until then the slot is not taken. */
  lemma ServiceKeepsParameters(before: seq<Event>, create: Event, between: seq<Event>)
    requires Reserves(Exec(START, before), create) && create.driver.Grants?
    ensures var t := Exec(START, before);
            var i, h := Chosen(t, create.isOpen, create.params, create.vchiCallback), ReservedHandle(t, create);
            var t2, alive := Exec(Step(t, create), between), NeverEnded(Step(t, create), between, h, create.isOpen);
            && (alive ==> NotReused(Step(t, create), between, i) && Resolves(t2, h))
            && (NotReused(Step(t, create), between, i) ==>
                  i < SLOTS == |t2.slots| && t2.slots[i] == SlotFor(create, if alive then h else NO_HANDLE))
  {
    ReachableInv(before);
    KeepsParameters(Exec(START, before), create, between);
  }

  lemma KeepsParameters(t: Table, create: Event, between: seq<Event>)
    requires Inv(t) && Reserves(t, create) && create.driver.Grants?
    ensures var i, h := Chosen(t, create.isOpen, create.params, create.vchiCallback), ReservedHandle(t, create);
            var t2, alive := Exec(Step(t, create), between), NeverEnded(Step(t, create), between, h, create.isOpen);
            && (alive ==> NotReused(Step(t, create), between, i) && Resolves(t2, h))
            && (NotReused(Step(t, create), between, i) ==>
                  i < SLOTS == |t2.slots| && t2.slots[i] == SlotFor(create, if alive then h else NO_HANDLE))
  {
    CreationResolves(t, create);
    LiveOn(Step(t, create), between, Chosen(t, create.isOpen, create.params, create.vchiCallback));
  }

  lemma LiveOn(t: Table, run: seq<Event>, i: nat)
    requires Inv(t) && i < SLOTS && t.slots[i].Live()
    ensures var h := t.slots[i].libHandle;
            var alive := NeverEnded(t, run, h, t.slots[i].isClient);
            && (alive ==> NotReused(t, run, i) && Resolves(Exec(t, run), h))
            && (NotReused(t, run, i) ==>
                  |Exec(t, run).slots| == SLOTS
                  && Exec(t, run).slots[i] == t.slots[i].(libHandle := if alive then h else NO_HANDLE))
  {
    LiveSlotOf(t, i);
    if NeverEnded(t, run, t.slots[i].libHandle, t.slots[i].isClient) { LiveNotReused(t, run, i); }
    if NotReused(t, run, i) { SlotOutlivesService(t, run, i); }
  }

  // ------------------------------------------------------ life of the instance

  /** The call leaves one more user. */
  predicate AcceptsInit(t: Table, e: Event) {
    e.Init? && (t.initialised > 0 || e.h.Accepted?)
  }

  /** The call is a shutdown that returns success. */
  predicate AcceptsShutdown(t: Table, e: Event) { e.Shutdown? && t.initialised > 0 }

  function InitsIn(t: Table, run: seq<Event>): nat
    decreases |run|
  {
    if run == [] then 0 else (if AcceptsInit(t, run[0]) then 1 else 0) + InitsIn(Step(t, run[0]), run[1..])
  }

  function ShutdownsIn(t: Table, run: seq<Event>): nat
    decreases |run|
  {
    if run == [] then 0 else (if AcceptsShutdown(t, run[0]) then 1 else 0) + ShutdownsIn(Step(t, run[0]), run[1..])
  }

  lemma {:induction false} UsersBalance(t: Table, run: seq<Event>)
    requires Inv(t)
    ensures Exec(t, run).initialised == t.initialised + InitsIn(t, run) - ShutdownsIn(t, run)
    decreases |run|
  {
    if run != [] {
      StepKeepsInv(t, run[0]);
      UsersBalance(Step(t, run[0]), run[1..]);
    }
  }

  /** The count of users is the initialisations of the run less its accepted shutdowns; while there
      is one instance->fd is an open descriptor, and when there is none nothing is connected or live. */
  lemma InstanceLife(run: seq<Event>)
    ensures var t := Exec(START, run);
            && t.initialised == InitsIn(START, run) - ShutdownsIn(START, run) >= 0
            && (t.initialised > 0 ==> t.fd in t.descriptors)
            && (t.initialised == 0 ==> !t.connected)
            && |t.slots| == SLOTS && (t.initialised == 0 ==> forall i :: 0 <= i < SLOTS ==> !t.slots[i].Live())
  {
    ReachableInv([]);
    ReachableInv(run);
    UsersBalance(START, run);
  }

  /** An initialisation of an unused instance that gets as far as a failing LIB_VERSION. */
  predicate LeavesOpen(t: Table, e: Event) {
    e == Init(LibVersionFails) && t.initialised == 0
  }

  function LeaksIn(t: Table, run: seq<Event>): nat
    decreases |run|
  {
    if run == [] then 0 else (if LeavesOpen(t, run[0]) then 1 else 0) + LeaksIn(Step(t, run[0]), run[1..])
  }

  function InUse(t: Table): nat { if t.initialised > 0 then 1 else 0 }

  /** The initialisations of an unused instance that have got the device open. */
  function OpensIn(t: Table, run: seq<Event>): nat
    decreases |run|
  {
    if run == [] then 0
    else (if run[0].Init? && t.initialised == 0 && !run[0].h.OpenFails? then 1 else 0) + OpensIn(Step(t, run[0]), run[1..])
  }

  lemma {:induction false} OpensCounted(t: Table, run: seq<Event>)
    requires Inv(t)
    ensures Exec(t, run).opens == t.opens + OpensIn(t, run)
    decreases |run|
  {
    if run != [] {
      assert Step(t, run[0]).opens == t.opens + if run[0].Init? && t.initialised == 0 && !run[0].h.OpenFails? then 1 else 0;
      StepKeepsInv(t, run[0]);
      OpensCounted(Step(t, run[0]), run[1..]);
    }
  }

  /** The open descriptors are the one in use, if any, and one for each failing LIB_VERSION on an
      unused instance: nothing closes those. */
  lemma {:induction false} DescriptorCount(t: Table, run: seq<Event>)
    requires Inv(t)
    ensures |Exec(t, run).descriptors| - InUse(Exec(t, run)) == |t.descriptors| - InUse(t) + LeaksIn(t, run)
    decreases |run|
  {
    if run != [] {
      DescriptorStep(t, run[0]);
      StepKeepsInv(t, run[0]);
      DescriptorCount(Step(t, run[0]), run[1..]);
    }
  }

  lemma DescriptorStep(t: Table, e: Event)
    requires Inv(t)
    ensures |Step(t, e).descriptors| - InUse(Step(t, e)) == |t.descriptors| - InUse(t) + if LeavesOpen(t, e) then 1 else 0
  {
    if e.Init? {
      InitDescriptors(t, e.h);
    } else if e.Shutdown? {
      assert Step(t, e) == ShutDown(t);
    } else {
      OtherDescriptors(t, e);
    }
  }

  lemma InitDescriptors(t: Table, h: Handshake)
    requires LifeOk(t)
    ensures |Initialised(t, h).descriptors| - InUse(Initialised(t, h))
         == |t.descriptors| - InUse(t) + if LeavesOpen(t, Init(h)) then 1 else 0
  {
    var d := t.opens + 1;
    assert d !in t.descriptors;
    assert t.descriptors + {d} - {d} == t.descriptors;
  }

  /** Only initialisations and shutdowns touch the descriptor and the count of users. */
  lemma OtherDescriptors(t: Table, e: Event)
    requires !e.Init? && !e.Shutdown?
    ensures var q := Step(t, e); q.descriptors == t.descriptors && q.fd == t.fd && q.initialised == t.initialised
  {
  }

  /** After any run, exactly one descriptor is open while the instance is in use and none otherwise if
      and only if no initialisation of the run that found the instance unused failed at LIB_VERSION. */
  lemma DescriptorFollowsUse(run: seq<Event>)
    ensures var t := Exec(START, run);
            && t.opens == OpensIn(START, run)
            && |t.descriptors| == InUse(t) + LeaksIn(START, run)
            && (|t.descriptors| == InUse(t) <==> LeaksIn(START, run) == 0)
            && (LeaksIn(START, run) == 0 <==>
                  forall k :: 0 <= k < |run| ==> !LeavesOpen(Exec(START, run[..k]), run[k]))
  {
    ReachableInv([]);
    OpensCounted(START, run);
    DescriptorCount(START, run);
    LeaksExactly(START, run);
  }

  lemma {:induction false} LeaksExactly(t: Table, run: seq<Event>)
    ensures LeaksIn(t, run) == 0 <==> forall k :: 0 <= k < |run| ==> !LeavesOpen(Exec(t, run[..k]), run[k])
    decreases |run|
  {
    if run != [] {
      var t', rest := Step(t, run[0]), run[1..];
      LeaksExactly(t', rest);
      forall k | 0 <= k < |rest| ensures Exec(t', rest[..k]) == Exec(t, run[..k + 1]) {
        assert run[..k + 1][1..] == rest[..k];
      }
      assert run[..0] == [];
      if LeaksIn(t, run) == 0 {
        forall k | 0 <= k < |run| ensures !LeavesOpen(Exec(t, run[..k]), run[k]) {
          if k > 0 { assert !LeavesOpen(Exec(t', rest[..k - 1]), rest[k - 1]); }
        }
      } else if !LeavesOpen(t, run[0]) {
        var k :| 0 <= k < |rest| && LeavesOpen(Exec(t', rest[..k]), rest[k]);
        assert LeavesOpen(Exec(t, run[..k + 1]), run[k + 1]);
      } else {
        assert LeavesOpen(Exec(t, run[..0]), run[0]);
      }
    }
  }

  /** The descriptor such an initialisation leaves is never closed, also not by later initialisations
      and shutdowns that succeed. */
  lemma LeakedForGood(before: seq<Event>, run: seq<Event>)
    requires LeavesOpen(Exec(START, before), Init(LibVersionFails))
    ensures var t := Step(Exec(START, before), Init(LibVersionFails));
            t.fd in t.descriptors && t.fd in Exec(t, run).descriptors
  {
    var t := Exec(START, before);
    ReachableInv(before);
    StepKeepsInv(t, Init(LibVersionFails));
    StaysOpen(Step(t, Init(LibVersionFails)), run, t.opens + 1);
  }

  lemma StaysOpenStep(t: Table, e: Event, d: int)
    requires Inv(t) && d in t.descriptors && (t.initialised > 0 ==> t.fd != d)
    ensures d in Step(t, e).descriptors && (Step(t, e).initialised > 0 ==> Step(t, e).fd != d)
  {
    if e.Init? {
      assert Step(t, e) == Initialised(t, e.h) && d <= t.opens;
    } else if !e.Shutdown? {
      OtherDescriptors(t, e);
    }
  }

  lemma {:induction false} StaysOpen(t: Table, run: seq<Event>, d: int)
    requires Inv(t) && d in t.descriptors && (t.initialised > 0 ==> t.fd != d)
    ensures d in Exec(t, run).descriptors
    decreases |run|
  {
    if run != [] {
      StepKeepsInv(t, run[0]);
      StaysOpenStep(t, run[0], d);
      StaysOpen(Step(t, run[0]), run[1..], d);
    }
  }

  /** A live slot becomes free by its own removal, by its own close if it is a client's, and by the last
      shutdown, and by no other call. */
  lemma FreedExactly(run: seq<Event>, e: Event, i: nat)
    requires i < SLOTS && |Exec(START, run).slots| == SLOTS && Exec(START, run).slots[i].libHandle != NO_HANDLE
    ensures var t := Exec(START, run);
            |Step(t, e).slots| == SLOTS
            && if || e == Remove(t.slots[i].libHandle)
                  || (e == Close(t.slots[i].libHandle) && t.slots[i].isClient)
                  || (e == Shutdown && t.initialised == 1)
               then Step(t, e).slots[i] == t.slots[i].(libHandle := NO_HANDLE)
               else Step(t, e).slots[i] == t.slots[i]
  {
    var t := Exec(START, run);
    ReachableInv(run);
    KeepsSlot(t, e, i);
    KeepsRest(t, e, i);
  }

  // ------------------------------------------------------ connection and acknowledgements

  /** The run has connected the instance since it was last shut down. */
  predicate ConnectedIn(t: Table, run: seq<Event>)
    decreases |run|
  {
    if run == [] then t.connected else
    var before, e := Exec(t, run[..|run| - 1]), run[|run| - 1];
    if e == Shutdown && before.initialised == 1 then false
    else (e == Connect(true) && before.initialised > 0) || ConnectedIn(t, run[..|run| - 1])
  }

  /** What the latest handshake that brought an unused instance up has said about acknowledgements. */
  predicate WantsAcks(t: Table, run: seq<Event>)
    decreases |run|
  {
    if run == [] then t.closeDelivered else
    var before, e := Exec(t, run[..|run| - 1]), run[|run| - 1];
    if e.Init? && e.h.Accepted? && before.initialised == 0 then e.h.closeDelivered
    else WantsAcks(t, run[..|run| - 1])
  }

  lemma StepFlags(t: Table, e: Event)
    requires Inv(t)
    ensures Step(t, e).connected ==
      if e == Shutdown && t.initialised == 1 then false else (e == Connect(true) && t.initialised > 0) || t.connected
    ensures Step(t, e).closeDelivered ==
      if e.Init? && e.h.Accepted? && t.initialised == 0 then e.h.closeDelivered else t.closeDelivered
  {
  }

  /** After any run the instance is connected exactly if an accepted connect has found it in use since the
      last shutdown, and closes are acknowledged exactly if the driver that the latest first initialisation
      met wants them to be. */
  lemma {:induction false} FlagsFollowCalls(run: seq<Event>)
    ensures Exec(START, run).connected <==> ConnectedIn(START, run)
    ensures Exec(START, run).closeDelivered <==> WantsAcks(START, run)
    decreases |run|
  {
    if run != [] {
      var before := run[..|run| - 1];
      FlagsFollowCalls(before);
      ReachableInv(before);
      ExecLast(START, run);
      StepFlags(Exec(START, before), run[|run| - 1]);
    }
  }
}
