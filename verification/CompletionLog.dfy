/** What the completion thread lets others see for the completions the driver hands it. */
module CompletionLog {
  import opened Limits
  import opened MessagePool
  import opened PoolTheorems
  import T = ServiceTable
  import TT = TableTheorems

  datatype LogEntry =
    | Callback(slot: nat, reason: Reason, header: seq<Msg>, libHandle: nat, bulk: nat)   // base.callback
    | VchiCallback(slot: nat, userdata: nat, vchiReason: VchiReason, bulk: nat)
    | CloseDelivered(slot: nat, handle: nat)                                             // the ioctl

  datatype VchiReason =
    | VchiServiceOpened | VchiServiceClosed | VchiMsgAvailable
    | VchiBulkSent | VchiBulkReceived | VchiBulkTransmitAborted | VchiBulkReceiveAborted

  /** Callbacks made and acknowledgements sent, the latest last. */
  datatype Log = Nothing | After(earlier: Log, entry: LogEntry)

  /** vchiq_reason_to_vchi */
  function ToVchi(reason: Reason): VchiReason {
    match reason
    case ServiceOpened => VchiServiceOpened
    case ServiceClosed => VchiServiceClosed
    case MessageAvailable => VchiMsgAvailable
    case BulkTransmitDone => VchiBulkSent
    case BulkReceiveDone => VchiBulkReceived
    case BulkTransmitAborted => VchiBulkTransmitAborted
    case BulkReceiveAborted => VchiBulkReceiveAborted
  }

  predicate SlotsBelow(answers: seq<Answer>, n: nat) {
    forall k :: 0 <= k < |answers| ==> answers[k].slot < n
  }

  predicate HasCallback(t: T.Table, a: Answer)
    requires a.slot < |t.slots|
  {
    t.slots[a.slot].callback != 0 || t.slots[a.slot].vchiCallback != 0
  }

  /** The callback one completion leads to: the service's own, or failing that its VCHI one. */
  function CallFor(t: T.Table, a: Answer): LogEntry
    requires a.slot < |t.slots| && HasCallback(t, a)
  {
    var s := t.slots[a.slot];
    if s.callback != 0 then
      Callback(a.slot, a.reason, if a.hasHeader then [a.bytes] else [], s.libHandle, a.bulk)
    else
      VchiCallback(a.slot, s.userdata, ToVchi(a.reason), a.bulk)
  }

  function AckFor(t: T.Table, a: Answer): LogEntry
    requires a.slot < |t.slots|
  {
    CloseDelivered(a.slot, t.slots[a.slot].handle)
  }

  predicate Acked(t: T.Table, a: Answer) {
    a.reason.ServiceClosed? && t.closeDelivered
  }

  /** What one completion adds to the log: its callback, then the acknowledgement of a close. */
  function Handle(t: T.Table, log: Log, a: Answer): Log
    requires a.slot < |t.slots|
  {
    var called := if HasCallback(t, a) then After(log, CallFor(t, a)) else log;
    if Acked(t, a) then After(called, AckFor(t, a)) else called
  }

  /** A log carried on over completions, each handled completely before the next. */
  function LogOf(t: T.Table, log: Log, answers: seq<Answer>): Log
    requires SlotsBelow(answers, |t.slots|)
  {
    if answers == [] then log
    else Handle(t, LogOf(t, log, answers[..|answers| - 1]), answers[|answers| - 1])
  }

  /** One turn of the thread's outer loop: the outcomes of the mallocs made while the array is being
      filled (those not listed succeed), and what the driver then returns. */
  datatype Round = Round(mallocs: seq<bool>, answers: seq<Answer>)

  function Flatten(rounds: seq<Round>): seq<Answer> {
    if rounds == [] then [] else Flatten(rounds[..|rounds| - 1]) + rounds[|rounds| - 1].answers
  }

  lemma LogGrows(t: T.Table, log: Log, answers: seq<Answer>, i: nat)
    requires i < |answers| && SlotsBelow(answers, |t.slots|)
    ensures LogOf(t, log, answers[..i + 1]) == Handle(t, LogOf(t, log, answers[..i]), answers[i])
  {
    assert answers[..i + 1][..i] == answers[..i];
  }

  lemma {:induction false} LogAppends(t: T.Table, log: Log, a: seq<Answer>, b: seq<Answer>)
    requires SlotsBelow(a, |t.slots|) && SlotsBelow(b, |t.slots|)
    ensures LogOf(t, log, a + b) == LogOf(t, LogOf(t, log, a), b)
  {
    if b == [] {
      assert a + b == a;
    } else {
      assert (a + b)[..|a + b| - 1] == a + b[..|b| - 1];
      LogAppends(t, log, a, b[..|b| - 1]);
    }
  }

  lemma {:induction false} FlattenPrefix(rounds: seq<Round>, b: nat)
    requires b <= |rounds|
    ensures Flatten(rounds[..b]) <= Flatten(rounds)
    decreases |rounds|
  {
    if b < |rounds| {
      var shorter := rounds[..|rounds| - 1];
      FlattenPrefix(shorter, b);
      assert shorter[..b] == rounds[..b];
    } else {
      assert rounds[..b] == rounds;
    }
  }

  /** From `log`, the first b rounds have led to `now`. */
  ghost predicate Served(t: T.Table, log: Log, rounds: seq<Round>, b: nat, now: Log)
    requires b <= |rounds|
  {
    SlotsBelow(Flatten(rounds[..b]), |t.slots|) && now == LogOf(t, log, Flatten(rounds[..b]))
  }

  lemma ServesNext(t: T.Table, log: Log, rounds: seq<Round>, b: nat, now: Log)
    requires b < |rounds| && SlotsBelow(Flatten(rounds), |t.slots|) && Served(t, log, rounds, b, now)
    ensures SlotsBelow(rounds[b].answers, |t.slots|) && Served(t, log, rounds, b + 1, LogOf(t, now, rounds[b].answers))
  {
    FlattenPrefix(rounds, b);
    FlattenPrefix(rounds, b + 1);
    var before, next := Flatten(rounds[..b]), rounds[b].answers;
    assert rounds[..b + 1][..b] == rounds[..b];
    assert Flatten(rounds[..b + 1]) == before + next;
    forall k | 0 <= k < |next| ensures next[k].slot < |t.slots| { assert next[k] == (before + next)[|before| + k]; }
    LogAppends(t, log, before, next);
  }

  // ------------------------------------------- who gets the headers

  /** base.callback is there to be given the header. */
  predicate OwnCallback(t: T.Table, c: Completion) {
    c.slot < |t.slots| && t.slots[c.slot].callback != 0
  }

  /** The headers of completions whose service has a base.callback. */
  ghost function Given(t: T.Table, cs: seq<Completion>): set<MsgBuf> {
    set k | && 0 <= k < |cs| && cs[k].header != null
            && cs[k].slot < |t.slots| && t.slots[cs[k].slot].callback != 0 :: cs[k].header
  }

  /** The headers of the others. */
  ghost function Dropped(t: T.Table, cs: seq<Completion>): set<MsgBuf> {
    set k | && 0 <= k < |cs| && cs[k].header != null
            && !(cs[k].slot < |t.slots| && t.slots[cs[k].slot].callback != 0) :: cs[k].header
  }

  /** Completion c is answer a of the driver, its bytes still in the header. */
  ghost predicate Shows(mem: map<MsgBuf, Content>, c: Completion, a: Answer) {
    && c.reason == a.reason && c.slot == a.slot && c.bulk == a.bulk
    && (c.header != null <==> a.hasHeader)
    && (c.header != null ==> c.header in mem && mem[c.header] == Data(a.bytes))
  }

  ghost predicate ShowsAll(mem: map<MsgBuf, Content>, from: nat, batch: seq<Completion>, answers: seq<Answer>) {
    |batch| == |answers| && forall k :: from <= k < |batch| ==> Shows(mem, batch[k], answers[k])
  }

  /** From p to q the completions cs, which are the driver's answers, have been delivered: the headers of
      those with a base.callback are now the clients', the other headers are lost, all of them with
      the driver's bytes, and no other buffer of a client has changed hands or been written. */
  ghost predicate Handed(p: Pool, q: Pool, t: T.Table, cs: seq<Completion>, answers: seq<Answer>) {
    && ShowsAll(q.mem, 0, cs, answers)
    && ClientSet(q) == ClientSet(p) + Given(t, cs)
    && AbandonedSet(q) == AbandonedSet(p) + Dropped(t, cs)
    && KeepsOutside(p, q)
  }

  lemma GivenAppends(t: T.Table, a: seq<Completion>, b: seq<Completion>)
    ensures Given(t, a + b) == Given(t, a) + Given(t, b)
    ensures Dropped(t, a + b) == Dropped(t, a) + Dropped(t, b)
  {
    var s := a + b;
    assert forall k :: 0 <= k < |a| ==> s[k] == a[k];
    assert forall k :: 0 <= k < |b| ==> s[|a| + k] == b[k];
  }

  lemma HandedKept(p: Pool, q: Pool, q': Pool, t: T.Table, cs: seq<Completion>, answers: seq<Answer>)
    requires Handed(p, q, t, cs, answers) && KeepsOutside(q, q')
    ensures ShowsAll(q'.mem, 0, cs, answers) && KeepsOutside(p, q')
  {
    forall k | 0 <= k < |cs| ensures Shows(q'.mem, cs[k], answers[k]) {
      if cs[k].header != null {
        if OwnCallback(t, cs[k]) { assert cs[k].header in ClientSet(q); } else { assert cs[k].header in AbandonedSet(q); }
      }
    }
  }

  lemma HandedAppends(p: Pool, q: Pool, q': Pool, t: T.Table, cs: seq<Completion>, answers: seq<Answer>,
                      more: seq<Completion>, moreAnswers: seq<Answer>)
    requires Handed(p, q, t, cs, answers) && Handed(q, q', t, more, moreAnswers)
    ensures Handed(p, q', t, cs + more, answers + moreAnswers)
  {
    HandedKept(p, q, q', t, cs, answers);
    GivenAppends(t, cs, more);
  }

  lemma AsideHandsNothing(p: Pool, q: Pool, t: T.Table)
    requires Aside(p, q)
    ensures Handed(p, q, t, [], [])
  {
  }

  /** The thread's delivery of the next completion, with the flag the code tests. */
  lemma DeliverHands(p: Pool, t: T.Table, a: Answer)
    requires Inv(p) && p.phase == Delivering && p.at < |p.batch| && Shows(p.mem, p.batch[p.at], a)
    ensures Handed(p, Step(p, Deliver(OwnCallback(t, p.batch[p.at]))), t, [p.batch[p.at]], [a])
  {
    var c := p.batch[p.at];
    var e := Deliver(OwnCallback(t, c));
    ThreadKeepsOutside(p, e);
    ClientsExactly(p, e);
    AbandonedExactly(p, e);
    assert Given(t, [c]) == Gained(p, e) && Dropped(t, [c]) == Lost(p, e) by { assert [c][0] == c; }
  }

  // ------------------------------------------- completions among API calls

  /** A completion together with the service table at the moment it is handled. */
  datatype Moment = Moment(table: T.Table, answer: Answer)

  predicate Proper(m: Moment) { m.answer.slot < |m.table.slots| }

  predicate AllProper(ms: seq<Moment>) {
    forall k :: 0 <= k < |ms| ==> Proper(ms[k])
  }

  /** What the thread handles and what API calls do, in the order they happen. */
  datatype Happening = Call(e: T.Event) | Done(a: Answer)

  predicate SlotsExist(run: seq<Happening>) {
    forall k :: 0 <= k < |run| && run[k].Done? ==> run[k].a.slot < SLOTS
  }

  /** The table and the log after a run. */
  function Play(t: T.Table, log: Log, run: seq<Happening>): (T.Table, Log)
    requires TT.Inv(t) && SlotsExist(run)
    decreases |run|
  {
    if run == [] then (t, log) else
    match run[0]
    case Call(e) =>
      TT.StepKeepsInv(t, e);
      Play(T.Step(t, e), log, run[1..])
    case Done(a) => Play(t, Handle(t, log, a), run[1..])
  }

  /** The API calls of a run. */
  function CallsOf(run: seq<Happening>): seq<T.Event> {
    if run == [] then [] else (if run[0].Call? then [run[0].e] else []) + CallsOf(run[1..])
  }

  /** The completions of a run, each with the table that the calls before it have left. */
  function MomentsOf(t: T.Table, run: seq<Happening>): (ms: seq<Moment>)
    requires TT.Inv(t) && SlotsExist(run)
    ensures AllProper(ms)
    decreases |run|
  {
    if run == [] then [] else
    match run[0]
    case Call(e) =>
      TT.StepKeepsInv(t, e);
      MomentsOf(T.Step(t, e), run[1..])
    case Done(a) => [Moment(t, a)] + MomentsOf(t, run[1..])
  }

  /** A log carried on over completions, each at its moment. */
  function LogAt(log: Log, ms: seq<Moment>): Log
    requires AllProper(ms)
    decreases |ms|
  {
    if ms == [] then log else LogAt(Handle(ms[0].table, log, ms[0].answer), ms[1..])
  }

  /** In any interleaving of API calls with completions, the table is what the calls make of it and
      the log what the completions do, each by the table of its moment. */
  lemma {:induction false} InterleavedRun(t: T.Table, log: Log, run: seq<Happening>)
    requires TT.Inv(t) && SlotsExist(run)
    ensures Play(t, log, run) == (T.Exec(t, CallsOf(run)), LogAt(log, MomentsOf(t, run)))
    decreases |run|
  {
    if run != [] {
      var rest := run[1..];
      match run[0]
      case Call(e) =>
        TT.StepKeepsInv(t, e);
        InterleavedRun(T.Step(t, e), log, rest);
        assert CallsOf(run)[0] == e && CallsOf(run)[1..] == CallsOf(rest);
      case Done(a) =>
        InterleavedRun(t, Handle(t, log, a), rest);
        var ms := MomentsOf(t, run);
        assert CallsOf(run) == CallsOf(rest) && ms[0] == Moment(t, a) && ms[1..] == MomentsOf(t, rest);
    }
  }

  /** The moments of completions handled without a call in between. */
  function AtOnce(t: T.Table, answers: seq<Answer>): (ms: seq<Moment>)
    requires SlotsBelow(answers, |t.slots|)
    ensures AllProper(ms) && |ms| == |answers|
  {
    seq(|answers|, i requires 0 <= i < |answers| => Moment(t, answers[i]))
  }

  /** The completion thread's own loops are the case of an unchanging table. */
  lemma {:induction false} LogOfAtOnce(t: T.Table, log: Log, answers: seq<Answer>)
    requires SlotsBelow(answers, |t.slots|)
    ensures LogOf(t, log, answers) == LogAt(log, AtOnce(t, answers))
  {
    if answers != [] {
      var n := |answers| - 1;
      LogOfAtOnce(t, log, answers[..n]);
      LogAtLast(log, AtOnce(t, answers));
      assert AtOnce(t, answers)[..n] == AtOnce(t, answers[..n]);
    }
  }

  lemma {:induction false} LogAtLast(log: Log, ms: seq<Moment>)
    requires AllProper(ms) && ms != []
    ensures AllProper(ms[..|ms| - 1])
    ensures LogAt(log, ms) == Handle(ms[|ms| - 1].table, LogAt(log, ms[..|ms| - 1]), ms[|ms| - 1].answer)
    decreases |ms|
  {
    if |ms| > 1 {
      var n := |ms| - 1;
      LogAtLast(Handle(ms[0].table, log, ms[0].answer), ms[1..]);
      assert ms[1..][..n - 1] == ms[..n][1..];
    }
  }

  // ---------------------------------------------------------------- results

  /** The callbacks of a log, in order. */
  function Calls(log: Log): seq<LogEntry> {
    match log
    case Nothing => []
    case After(earlier, e) => Calls(earlier) + if e.CloseDelivered? then [] else [e]
  }

  /** The acknowledgements of a log, in order. */
  function Acks(log: Log): seq<LogEntry> {
    match log
    case Nothing => []
    case After(earlier, e) => Acks(earlier) + if e.CloseDelivered? then [e] else []
  }

  /** The callback one completion is owed: base.callback if its service has one at the time, with the
      header's bytes and the service's handle, or failing that its VCHI callback, with its userdata. */
  function CallOwed(m: Moment): seq<LogEntry>
    requires Proper(m)
  {
    var a, s := m.answer, m.table.slots[m.answer.slot];
    if s.callback != 0 then [Callback(a.slot, a.reason, if a.hasHeader then [a.bytes] else [], s.libHandle, a.bulk)]
    else if s.vchiCallback != 0 then [VchiCallback(a.slot, s.userdata, ToVchi(a.reason), a.bulk)]
    else []
  }

  /** The acknowledgement it is owed: one with the driver's handle, if it says that the service has closed
      and the driver wants to hear of it. */
  function AckOwed(m: Moment): seq<LogEntry>
    requires Proper(m)
  {
    var a, t := m.answer, m.table;
    if a.reason == ServiceClosed && t.closeDelivered then [CloseDelivered(a.slot, t.slots[a.slot].handle)] else []
  }

  function CallsOwed(ms: seq<Moment>): seq<LogEntry>
    requires AllProper(ms)
    decreases |ms|
  {
    if ms == [] then [] else CallOwed(ms[0]) + CallsOwed(ms[1..])
  }

  function AcksOwed(ms: seq<Moment>): seq<LogEntry>
    requires AllProper(ms)
    decreases |ms|
  {
    if ms == [] then [] else AckOwed(ms[0]) + AcksOwed(ms[1..])
  }

  /** What one completion adds does not depend on what came before: at most one callback, base.callback
      first, and after it the acknowledgement, exactly for a close that the driver wants to hear of. */
  lemma HandleAdds(t: T.Table, log: Log, a: Answer)
    requires a.slot < |t.slots|
    ensures var s := t.slots[a.slot];
            var called := if s.callback != 0
                          then After(log, Callback(a.slot, a.reason, if a.hasHeader then [a.bytes] else [], s.libHandle, a.bulk))
                          else if s.vchiCallback != 0
                          then After(log, VchiCallback(a.slot, s.userdata, ToVchi(a.reason), a.bulk))
                          else log;
            Handle(t, log, a) == if a.reason == ServiceClosed && t.closeDelivered
                                 then After(called, CloseDelivered(a.slot, t.slots[a.slot].handle)) else called
  {
  }

  /** The two enumerations side by side: no two reasons are confused. */
  lemma ReasonsCorrespond(reason: Reason)
    ensures ToVchi(reason) == VchiServiceOpened <==> reason == ServiceOpened
    ensures ToVchi(reason) == VchiServiceClosed <==> reason == ServiceClosed
    ensures ToVchi(reason) == VchiMsgAvailable <==> reason == MessageAvailable
    ensures ToVchi(reason) == VchiBulkSent <==> reason == BulkTransmitDone
    ensures ToVchi(reason) == VchiBulkReceived <==> reason == BulkReceiveDone
    ensures ToVchi(reason) == VchiBulkTransmitAborted <==> reason == BulkTransmitAborted
    ensures ToVchi(reason) == VchiBulkReceiveAborted <==> reason == BulkReceiveAborted
  {
  }

  /** What one completion adds to the callbacks and to the acknowledgements. */
  lemma HandleOwes(log: Log, m: Moment)
    requires Proper(m)
    ensures Calls(Handle(m.table, log, m.answer)) == Calls(log) + CallOwed(m)
    ensures Acks(Handle(m.table, log, m.answer)) == Acks(log) + AckOwed(m)
  {
    HandleAdds(m.table, log, m.answer);
  }

  lemma Associate<X>(a: seq<X>, b: seq<X>, c: seq<X>)
    ensures (a + b) + c == a + (b + c)
  {
  }

  /** The callbacks made are those owed, in the order of the completions, after those made before. */
  lemma {:induction false} OneCallEachInOrder(log: Log, ms: seq<Moment>)
    requires AllProper(ms)
    ensures Calls(LogAt(log, ms)) == Calls(log) + CallsOwed(ms)
    decreases |ms|
  {
    if ms != [] {
      var log' := Handle(ms[0].table, log, ms[0].answer);
      HandleOwes(log, ms[0]);
      OneCallEachInOrder(log', ms[1..]);
      Associate(Calls(log), CallOwed(ms[0]), CallsOwed(ms[1..]));
    }
  }

  /** The acknowledgements sent are those owed, in order. */
  lemma {:induction false} OneAckPerClose(log: Log, ms: seq<Moment>)
    requires AllProper(ms)
    ensures Acks(LogAt(log, ms)) == Acks(log) + AcksOwed(ms)
    decreases |ms|
  {
    if ms != [] {
      var log' := Handle(ms[0].table, log, ms[0].answer);
      HandleOwes(log, ms[0]);
      OneAckPerClose(log', ms[1..]);
      Associate(Acks(log), AckOwed(ms[0]), AcksOwed(ms[1..]));
    }
  }

  lemma {:induction false} LogAtAppends(log: Log, before: seq<Moment>, after: seq<Moment>)
    requires AllProper(before) && AllProper(after)
    ensures AllProper(before + after) && LogAt(log, before + after) == LogAt(LogAt(log, before), after)
    decreases |before|
  {
    var ms := before + after;
    if before == [] {
      assert ms == after;
    } else {
      assert ms[0] == before[0] && ms[1..] == before[1..] + after;
      LogAtAppends(Handle(ms[0].table, log, ms[0].answer), before[1..], after);
    }
  }

  /** The acknowledgement of a close comes right after the callback for it, and both come right after
      everything logged for the completions before. */
  lemma CloseIsAckedAfterCall(log: Log, before: seq<Moment>, close: Moment, after: seq<Moment>)
    requires AllProper(before) && AllProper(after) && Proper(close)
    requires close.answer.reason == ServiceClosed && close.table.closeDelivered
    requires close.table.slots[close.answer.slot].callback != 0 || close.table.slots[close.answer.slot].vchiCallback != 0
    ensures AllProper(before + ([close] + after))
    ensures var a, s := close.answer, close.table.slots[close.answer.slot];
            var call := if s.callback != 0
                        then Callback(a.slot, ServiceClosed, if a.hasHeader then [a.bytes] else [], s.libHandle, a.bulk)
                        else VchiCallback(a.slot, s.userdata, VchiServiceClosed, a.bulk);
            LogAt(log, before + ([close] + after))
              == LogAt(After(After(LogAt(log, before), call), CloseDelivered(a.slot, s.handle)), after)
  {
    LogAtAppends(log, before, [close] + after);
    HandleAdds(close.table, LogAt(log, before), close.answer);
    assert ([close] + after)[1..] == after;
  }

  /** However long ago a service was created and whatever calls followed, also one that ended it,
      until its slot is taken for another service a completion for the slot reaches the callback the
      service was created with, under its own userdata or the handle it still has, and the
      acknowledgement of a close goes to the driver's handle it was given. */
  lemma CompletionReachesCreator(before: seq<T.Event>, create: T.Event, between: seq<T.Event>, log: Log, a: Answer)
    requires TT.Reserves(T.Exec(T.START, before), create) && create.driver.Grants?
    requires a.slot == T.Chosen(T.Exec(T.START, before), create.isOpen, create.params, create.vchiCallback)
    requires TT.NotReused(T.Step(T.Exec(T.START, before), create), between, a.slot)
    ensures var t := T.Exec(T.START, before);
            var t2, h := T.Exec(T.Step(t, create), between), TT.ReservedHandle(t, create);
            var alive := TT.NeverEnded(T.Step(t, create), between, h, create.isOpen);
            var called := if create.params.callback != 0
                          then After(log, Callback(a.slot, a.reason, if a.hasHeader then [a.bytes] else [],
                                                   if alive then h else T.NO_HANDLE, a.bulk))
                          else if create.vchiCallback != 0
                          then After(log, VchiCallback(a.slot, create.params.userdata, ToVchi(a.reason), a.bulk))
                          else log;
            && a.slot < |t2.slots|
            && Handle(t2, log, a) == if a.reason == ServiceClosed && t2.closeDelivered
                                     then After(called, CloseDelivered(a.slot, create.driver.handle)) else called
  {
    TT.ServiceKeepsParameters(before, create, between);
    HandleAdds(T.Exec(T.Step(T.Exec(T.START, before), create), between), log, a);
  }
}
