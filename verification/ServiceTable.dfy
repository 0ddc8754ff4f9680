/** The service table of vchiq_instance: slots, handles, and the life of the instance.

    Each event is one complete API call (calls are serialised); results of the driver's
    ioctls are part of the event. */
module ServiceTable {
  import opened Bits
  import opened Limits

  const NO_HANDLE: nat := 0

  /** A function pointer; 0 is NULL. */
  type Fn = nat

  datatype Params = Params(fourcc: int, callback: Fn, userdata: nat)

  datatype Slot = Slot(
    libHandle: nat, fourcc: int, callback: Fn, vchiCallback: Fn, userdata: nat,
    handle: nat,        // the driver's handle
    isClient: bool)
  {
    predicate Live() { libHandle != NO_HANDLE }

    predicate Mismatches(params: Params, vchiCallback: Fn) {
      fourcc == params.fourcc && (callback != params.callback || this.vchiCallback != vchiCallback)
    }
  }

  datatype Table = Table(
    slots: seq<Slot>, used: nat, handleSeq: nat,
    initialised: int, fd: int, connected: bool, closeDelivered: bool,
    descriptors: set<int>,   // the device's descriptors the process has open
    opens: nat,              // history: successful opens; a descriptor is known by its number in this order
    issued: nat)             // history: reservations so far

  /** How far vchiq_lib_init gets when it has to open the device. */
  datatype Handshake =
    | OpenFails
    | BadConfig                       // no configuration, or an incompatible version
    | LibVersionFails
    | Accepted(closeDelivered: bool)

  datatype Event =
    | Init(h: Handshake)
    | Connect(accepted: bool)
    | Create(isOpen: bool, params: Params, vchiCallback: Fn, driver: Driver)
    | Close(handle: nat)
    | Remove(handle: nat)
    | Shutdown

  datatype Driver = Refuses | Grants(handle: nat)

  const EMPTY_SLOT := Slot(0, 0, 0, 0, 0, 0, false)
  const START := Table(seq(SLOTS, _ => EMPTY_SLOT), 0, 0, 0, 0, false, false, {}, 0, 0)

  // ------------------------------------------------------------------ steps

  function SlotOf(handle: nat): nat { And(handle, SLOTS - 1) }

  lemma SlotOfBound(handle: nat)
    ensures SlotOf(handle) < SLOTS
  {
    assert Pow2(5) == SLOTS;
    AndMask(handle, 5);
  }

  /** find_service_by_handle finds something. */
  predicate Resolves(t: Table, handle: nat) {
    SlotOf(handle) < |t.slots| && t.slots[SlotOf(handle)].libHandle == handle
  }

  /** The first slot below n that is not live, or n. */
  function LowestFree(slots: seq<Slot>, n: nat): (i: nat)
    requires n <= |slots|
    ensures i <= n
    ensures forall j :: 0 <= j < i ==> slots[j].Live()
    ensures i < n ==> !slots[i].Live()
  {
    if n == 0 then 0
    else
      var i := LowestFree(slots, n - 1);
      if i < n - 1 || !slots[n - 1].Live() then i else n
  }

  predicate Conflicts(t: Table, params: Params, vchiCallback: Fn) {
    exists i :: 0 <= i < t.used && i < |t.slots| && t.slots[i].Live() && t.slots[i].Mismatches(params, vchiCallback)
  }

  function FirstSeq(handleSeq: nat): nat { if handleSeq == 0 then SLOTS else handleSeq }

  function CountLive(slots: seq<Slot>): nat {
    if slots == [] then 0 else CountLive(slots[..|slots| - 1]) + if slots[|slots| - 1].Live() then 1 else 0
  }

  /** The slot a creation reserves, or SLOTS when it gets none. */
  function Chosen(t: Table, isOpen: bool, params: Params, vchiCallback: Fn): nat
    requires t.used <= |t.slots|
  {
    if t.initialised <= 0 || (!isOpen && Conflicts(t, params, vchiCallback)) then SLOTS
    else LowestFree(t.slots, t.used)
  }

  /** Slot i taken, with a new handle. */
  function Claim(t: Table, i: nat): Table
    requires i < |t.slots|
  {
    var s := FirstSeq(t.handleSeq);
    var slots := t.slots[i := t.slots[i].(libHandle := Or(s, i))];
    t.(slots := slots, used := Max(t.used, i + 1), handleSeq := (s + SLOTS) % WRAP,
       issued := t.issued + 1)
  }

  /** The caller's parameters stored in slot i. */
  function Store(t: Table, i: nat, isOpen: bool, params: Params, vchiCallback: Fn): Table
    requires i < |t.slots|
  {
    t.(slots := t.slots[i := Slot(t.slots[i].libHandle, params.fourcc, params.callback, vchiCallback, params.userdata,
                                  t.slots[i].handle, isOpen)])
  }

  /** The slot while the CREATE_SERVICE ioctl is in progress. */
  function Reserve(t: Table, i: nat, isOpen: bool, params: Params, vchiCallback: Fn): Table
    requires i < |t.slots|
  {
    Store(Claim(t, i), i, isOpen, params, vchiCallback)
  }

  function SetHandle(t: Table, i: nat, h: nat): Table
    requires i < |t.slots|
  {
    t.(slots := t.slots[i := t.slots[i].(handle := h)])
  }

  function Free(t: Table, i: nat): Table
    requires i < |t.slots|
  {
    t.(slots := t.slots[i := t.slots[i].(libHandle := NO_HANDLE)])
  }

  function Initialised(t: Table, h: Handshake): Table {
    if t.initialised > 0 then t.(initialised := t.initialised + 1) else
    match h
    case OpenFails => t.(fd := -1)
    case BadConfig => Closed(Opened(t))
    case LibVersionFails => Opened(t)
    case Accepted(closeDelivered) =>
      Opened(t).(used := 0, closeDelivered := closeDelivered, initialised := 1)
  }

  /** open or dup stores a new descriptor in instance->fd, whatever was there. */
  function Opened(t: Table): Table {
    t.(fd := t.opens + 1, opens := t.opens + 1, descriptors := t.descriptors + {t.opens + 1})
  }

  /** close(instance->fd) */
  function Closed(t: Table): Table { t.(descriptors := t.descriptors - {t.fd}) }

  function ShutDown(t: Table): Table
    requires t.used <= |t.slots|
  {
    if t.initialised <= 0 then t
    else if t.initialised > 1 then t.(initialised := t.initialised - 1)
    else Closed(t).(slots := Cleared(t.slots, t.used), connected := false, fd := -1, initialised := 0)
  }

  /** Growing the used part before or while taking a slot comes to the same. */
  lemma ClaimAfterGrowth(t: Table, k: nat)
    requires k < |t.slots|
    ensures Claim(t.(used := Max(t.used, k + 1)), k) == Claim(t, k)
  {
  }

  function Step(t: Table, e: Event): Table {
    if |t.slots| != SLOTS || t.used > SLOTS then t else
    match e
    case Init(h) => Initialised(t, h)
    case Connect(accepted) =>
      if t.initialised > 0 && accepted then t.(connected := true) else t
    case Create(isOpen, params, vchiCallback, driver) =>
      var i := Chosen(t, isOpen, params, vchiCallback);
      if i >= SLOTS then t else
      var r := Reserve(t, i, isOpen, params, vchiCallback);
      (match driver
       case Refuses => Free(r, i)
       case Grants(h) => SetHandle(r, i, h))
    case Close(handle) =>
      if Resolves(t, handle) && t.slots[SlotOf(handle)].isClient then Free(t, SlotOf(handle)) else t
    case Remove(handle) =>
      if Resolves(t, handle) then Free(t, SlotOf(handle)) else t
    case Shutdown => ShutDown(t)
  }

  /** The first n slots made free. */
  function Cleared(slots: seq<Slot>, n: nat): (r: seq<Slot>)
    requires n <= |slots|
    ensures |r| == |slots|
  {
    seq(|slots|, i requires 0 <= i < |slots| =>
      if i < n then slots[i].(libHandle := NO_HANDLE) else slots[i])
  }

  function Exec(t: Table, run: seq<Event>): Table
    decreases |run|
  {
    if run == [] then t else Exec(Step(t, run[0]), run[1..])
  }

  lemma {:induction false} ExecAppend(t: Table, run: seq<Event>, more: seq<Event>)
    ensures Exec(t, run + more) == Exec(Exec(t, run), more)
    decreases |run|
  {
    if run == [] {
      assert run + more == more;
    } else {
      assert (run + more)[0] == run[0] && (run + more)[1..] == run[1..] + more;
      ExecAppend(Step(t, run[0]), run[1..], more);
    }
  }

  lemma ExecLast(t: Table, run: seq<Event>)
    requires run != []
    ensures Exec(t, run) == Step(Exec(t, run[..|run| - 1]), run[|run| - 1])
  {
    var before, e := run[..|run| - 1], run[|run| - 1];
    assert run == before + [e];
    ExecAppend(t, before, [e]);
    ExecOne(Exec(t, before), e);
  }

  lemma ExecOne(t: Table, e: Event)
    ensures Exec(t, [e]) == Step(t, e)
  {
    assert [e][1..] == [];
  }

  // ---------------------------------------------------------------- handles

  const CYCLE: nat := 0x800_0000 - 1   // 2^27 - 1 sequence numbers

  /** The sequence number of the k-th reservation ever made. */
  function SeqAt(k: nat): (s: nat)
    ensures s % SLOTS == 0 && SLOTS <= s < WRAP
  {
    SLOTS * (1 + k % CYCLE)
  }

  /** handle_seq after k reservations. */
  function SeqAfter(k: nat): nat {
    if k == 0 then 0 else (SeqAt(k - 1) + SLOTS) % WRAP
  }

  /** The stored counter runs through the closed form, skipping zero when it wraps. */
  lemma SeqFollows(k: nat)
    ensures FirstSeq(SeqAfter(k)) == SeqAt(k)
  {
    if k > 0 {
      var m := (k - 1) % CYCLE;
      if m == CYCLE - 1 {
        ModUnique(k, CYCLE, (k - 1) / CYCLE + 1, 0);
      } else {
        ModUnique(k, CYCLE, (k - 1) / CYCLE, m + 1);
      }
    }
  }

  lemma OrOf(m: nat, i: nat)
    requires i < SLOTS
    ensures Or(SLOTS * m, i) == SLOTS * m + i
  {
    assert Pow2(5) == SLOTS;
    OrLow(m, 5, i);
  }

  lemma SlotOfSum(m: nat, i: nat)
    requires i < SLOTS
    ensures SlotOf(SLOTS * m + i) == i
  {
    assert Pow2(5) == SLOTS;
    AndMask(SLOTS * m + i, 5);
    ModUnique(SLOTS * m + i, SLOTS, m, i);
  }

  /** A handle is its sequence number plus its slot, and its low five bits give the slot back. */
  lemma HandleBits(k: nat, i: nat)
    requires i < SLOTS
    ensures Or(SeqAt(k), i) == SeqAt(k) + i && 0 < SeqAt(k) + i < WRAP
    ensures SlotOf(SeqAt(k) + i) == i
  {
    OrOf(1 + k % CYCLE, i);
    SlotOfSum(1 + k % CYCLE, i);
  }

  /** Reservations less than 2^27 - 1 apart never get the same handle. */
  lemma HandlesDistinct(j: nat, k: nat, a: nat, b: nat)
    requires j < k < j + CYCLE && a < SLOTS && b < SLOTS
    ensures SeqAt(j) + a != SeqAt(k) + b
  {
  }

  /** ... and the window is exact: the sequence numbers repeat after 2^27 - 1 reservations. */
  lemma HandlesRepeat(k: nat)
    ensures SeqAt(k + CYCLE) == SeqAt(k)
  {
    ModUnique(k + CYCLE, CYCLE, k / CYCLE + 1, k % CYCLE);
  }
}
