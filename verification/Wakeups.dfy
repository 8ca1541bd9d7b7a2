/** The service thread's park, against every poster: no step of one is taken for granted
    while another runs.  A poster publishes its work first and raises the flag later. */
module Wakeups {
  import opened Calls

  /** Where the service thread stands in its loop. */
  datatype Place =
    | Top                 // wants the lock
    | Working             // sending and reading, lock held
    | AskCtrl | AskTx | AskRx | AskSlot(i: nat)
    | Marking             // about to publish "parked", lock held
    | Unlocking
    | Delivering          // consumer callbacks, no lock
    | Waiting             // on the flag: one tick if busy, else for ever
    | Woken

  datatype World = World(
    at: Place,
    busy: bool,
    parked: bool,
    flag: bool,
    midway: nat,          // posters between publishing and raising the flag
    ctrl: Phase,
    slots: seq<Phase>,
    txQueue: nat,
    rxQueue: nat,
    ring: bool,           // unread bytes
    late: bool)           // some of which came after "parked" was published

  datatype Task =
    | SendSlot(i: nat) | ReplySlot(i: nat) | SendCtrl | ReplyCtrl
    | PopData | QueueData | ReadRing | Finish

  datatype Act =
    | Serve(task: Task)   // the service thread's next step
    | Tick                // its one-tick wait runs out
    | PostSlot(i: nat) | PostCtrl | PostData
    | Raise               // a midway poster gets to its tx_event_flags_set
    | SettleSlot(i: nat) | SettleCtrl | AbandonAll | ResetData
    | RxByte              // the UART interrupt

  predicate Pends(p: Phase) { p == Queued || p == Sent }

  predicate Posted(w: World) {
    Pends(w.ctrl) || w.txQueue > 0 || exists i :: 0 <= i < |w.slots| && Pends(w.slots[i])
  }

  predicate Locked(at: Place) {
    at in {Working, AskCtrl, AskTx, AskRx, Marking, Unlocking} || at.AskSlot?
  }

  function DoTask(w: World, t: Task): World {
    match t
    case SendSlot(i) =>
      if i < |w.slots| && w.slots[i] == Queued then w.(slots := w.slots[i := Sent]) else w
    case ReplySlot(i) =>
      if i < |w.slots| && w.slots[i] == Sent then w.(slots := w.slots[i := Done]) else w
    case SendCtrl => if w.ctrl == Queued then w.(ctrl := Sent) else w
    case ReplyCtrl => if w.ctrl == Sent then w.(ctrl := Done) else w
    case PopData => if w.txQueue > 0 then w.(txQueue := w.txQueue - 1) else w
    case QueueData => w.(rxQueue := w.rxQueue + 1)
    case ReadRing => w.(ring := false, late := false)
    case Finish => w.(at := AskCtrl, busy := false)
  }

  /** erpc_work_pending asks in this order and stops at the first yes. */
  function Ask(w: World, yes: bool, next: Place): World {
    if yes then w.(busy := true, at := Marking) else w.(at := next)
  }

  function ServeStep(w: World, t: Task): World {
    match w.at
    case Top => w.(at := Working)
    case Working => DoTask(w, t)
    case AskCtrl => Ask(w, Pends(w.ctrl), AskTx)
    case AskTx => Ask(w, w.txQueue > 0, AskRx)
    case AskRx => Ask(w, w.rxQueue > 0, AskSlot(0))
    case AskSlot(i) =>
      if i < |w.slots| then Ask(w, Pends(w.slots[i]), AskSlot(i + 1)) else w.(at := Marking)
    case Marking => w.(parked := true, late := false, at := Unlocking)
    case Unlocking => w.(at := Delivering)
    case Delivering => if w.rxQueue > 0 then w.(rxQueue := w.rxQueue - 1) else w.(at := Waiting)
    case Waiting => if w.flag then w.(flag := false, at := Woken) else w
    case Woken => w.(parked := false, at := Top)
  }

  function Step(w: World, a: Act): World {
    match a
    case Serve(t) => ServeStep(w, t)
    case Tick => if w.at == Waiting && w.busy then w.(at := Woken) else w
    case PostSlot(i) =>
      if Locked(w.at) || i >= |w.slots| || w.slots[i] != Free then w
      else w.(slots := w.slots[i := Queued], midway := w.midway + 1)
    case PostCtrl =>
      if Locked(w.at) || w.ctrl != Free then w else w.(ctrl := Queued, midway := w.midway + 1)
    case PostData => w.(txQueue := w.txQueue + 1, midway := w.midway + 1)
    case Raise => if w.midway == 0 then w else w.(flag := true, midway := w.midway - 1)
    case SettleSlot(i) =>
      if Locked(w.at) || i >= |w.slots| then w else w.(slots := w.slots[i := Free])
    case SettleCtrl => if Locked(w.at) then w else w.(ctrl := Free)
    case AbandonAll =>
      if Locked(w.at) then w
      else w.(ctrl := if Taken(w.ctrl) then Abandoned else Free,
              slots := seq(|w.slots|, k requires 0 <= k < |w.slots| =>
                         if Taken(w.slots[k]) then Abandoned else Free),
              txQueue := 0, rxQueue := 0)
    case ResetData => w.(txQueue := 0, rxQueue := 0)
    case RxByte => w.(ring := true, late := w.late || w.parked, flag := w.flag || w.parked)
  }

  predicate Taken(p: Phase) { p != Free }

  function Run(w: World, acts: seq<Act>): World {
    if acts == [] then w else Step(Run(w, acts[..|acts| - 1]), acts[|acts| - 1])
  }

  // ---- what every step keeps ----

  /** Somebody will wake the thread, or is about to. */
  predicate Covered(w: World) {
    w.flag || w.midway > 0
  }

  /** How far the questions have got; what has been denied can only have changed under
      cover. */
  predicate Asked(w: World) {
    match w.at
    case AskTx => !Pends(w.ctrl)
    case AskRx => !Pends(w.ctrl) && (w.txQueue > 0 ==> Covered(w))
    case AskSlot(i) =>
      && !Pends(w.ctrl) && (w.txQueue > 0 ==> Covered(w))
      && forall k :: 0 <= k < i && k < |w.slots| ==> !Pends(w.slots[k])
    case _ => true
  }

  predicate Decided(at: Place) {
    at in {Marking, Unlocking, Delivering, Waiting}
  }

  predicate Inv(w: World) {
    && (w.at in {AskCtrl, AskTx, AskRx} || w.at.AskSlot? ==> !w.busy)
    && Asked(w)
    && (Decided(w.at) && !w.busy && Posted(w) ==> Covered(w))
    && (w.at in {Unlocking, Delivering, Waiting, Woken} <==> w.parked)
    && (w.at in {Unlocking, Delivering, Waiting} && w.late ==> w.flag)
  }

  lemma TaskKeepsInv(w: World, t: Task)
    requires Inv(w) && w.at == Working
    ensures Inv(DoTask(w, t))
  {
  }

  lemma AskKeepsInv(w: World, t: Task)
    requires Inv(w) && (w.at in {AskCtrl, AskTx, AskRx} || w.at.AskSlot?)
    ensures Inv(ServeStep(w, t))
  {
    hide DoTask;
    if w.at.AskSlot? && w.at.i >= |w.slots| {
      assert forall k :: 0 <= k < |w.slots| ==> !Pends(w.slots[k]);
    }
  }

  lemma ParkKeepsInv(w: World, t: Task)
    requires Inv(w) && w.at in {Marking, Unlocking, Delivering, Waiting, Woken}
    ensures Inv(ServeStep(w, t))
  {
  }

  lemma ServeKeepsInv(w: World, t: Task)
    requires Inv(w)
    ensures Inv(ServeStep(w, t))
  {
    match w.at
    case Top =>
    case Working => TaskKeepsInv(w, t);
    case AskCtrl => AskKeepsInv(w, t);
    case AskTx => AskKeepsInv(w, t);
    case AskRx => AskKeepsInv(w, t);
    case AskSlot(_) => AskKeepsInv(w, t);
    case _ => ParkKeepsInv(w, t);
  }

  lemma PostKeepsInv(w: World, a: Act)
    requires Inv(w) && (a.PostSlot? || a == PostCtrl || a == PostData || a == Raise)
    ensures Inv(Step(w, a))
  {
  }

  lemma RetireKeepsInv(w: World, a: Act)
    requires Inv(w) && (a.SettleSlot? || a == SettleCtrl || a.AbandonAll? || a == ResetData)
    ensures Inv(Step(w, a))
  {
  }

  lemma StepKeepsInv(w: World, a: Act)
    requires Inv(w)
    ensures Inv(Step(w, a))
  {
    match a
    case Serve(t) => ServeKeepsInv(w, t);
    case Tick =>
    case RxByte =>
    case PostSlot(_) => PostKeepsInv(w, a);
    case PostCtrl => PostKeepsInv(w, a);
    case PostData => PostKeepsInv(w, a);
    case Raise => PostKeepsInv(w, a);
    case _ => RetireKeepsInv(w, a);
  }

  const BOOT := World(Top, false, false, false, 0, Free, [Free, Free, Free, Free], 0, 0, false, false)

  lemma {:induction false} RunKeepsInv(acts: seq<Act>)
    ensures Inv(Run(BOOT, acts))
    decreases |acts|
  {
    if acts != [] {
      RunKeepsInv(acts[..|acts| - 1]);
      StepKeepsInv(Run(BOOT, acts[..|acts| - 1]), acts[|acts| - 1]);
    }
  }

  predicate AsleepForEver(w: World) {
    w.at == Waiting && !w.busy && !w.flag
  }

  /** No lost wake-up: the thread is never asleep for good over posted work, unless the
      poster has yet to raise the flag. */
  lemma NoLostWakeup(acts: seq<Act>)
    ensures AsleepForEver(Run(BOOT, acts)) && Posted(Run(BOOT, acts)) ==> Run(BOOT, acts).midway > 0
  {
    RunKeepsInv(acts);
  }

  /** Nor over bytes that came after "parked" was published. */
  lemma LateBytesWake(acts: seq<Act>)
    ensures AsleepForEver(Run(BOOT, acts)) ==> !Run(BOOT, acts).late
  {
    RunKeepsInv(acts);
  }

  /** And once it is raised the thread is back at its work, with the work still posted. */
  lemma RaiseWakes(acts: seq<Act>, t: Task)
    requires AsleepForEver(Run(BOOT, acts)) && Posted(Run(BOOT, acts))
    ensures var w := Step(Step(Step(Run(BOOT, acts), Raise), Serve(t)), Serve(t));
      w.at == Top && Posted(w)
  {
    NoLostWakeup(acts);
    RaisedWakes(Run(BOOT, acts), t);
  }

  lemma RaisedWakes(w: World, t: Task)
    requires AsleepForEver(w) && w.midway > 0
    ensures Step(Step(Step(w, Raise), Serve(t)), Serve(t)) ==
      w.(at := Top, parked := false, midway := w.midway - 1)
  {
  }

  // ---- the mark, as the dividing line ----

  /** n further steps of the service thread. */
  function Serves(w: World, n: nat): World {
    if n == 0 then w else ServeStep(Serves(w, n - 1), Finish)
  }

  /** The same with a byte arriving after the first k of them. */
  function ByteAfter(w: World, k: nat, n: nat): World
    requires k <= n
  {
    Serves(Step(Serves(w, k), RxByte), n - k)
  }

  /** On its way from the mark to the wait: one step for each frame to deliver, and the
      marking, the unlocking and the waiting themselves. */
  predicate OnItsWay(at: Place) {
    at in {Marking, Unlocking, Delivering, Waiting}
  }

  function ToWait(w: World): nat
    requires OnItsWay(w.at)
  {
    match w.at
    case Marking => w.rxQueue + 3
    case Unlocking => w.rxQueue + 2
    case Delivering => w.rxQueue + 1
    case _ => 0
  }

  lemma OneOn(w: World)
    requires OnItsWay(w.at) && ToWait(w) > 0
    ensures var v := ServeStep(w, Finish);
      && OnItsWay(v.at) && v.at != Marking && ToWait(v) == ToWait(w) - 1
      && v.ring == w.ring && v.flag == w.flag && v.busy == w.busy
      && (v.parked <==> w.parked || w.at == Marking)
  {
  }

  /** The way changes nothing that decides how the wait will end. */
  lemma {:induction false} Onward(w: World, n: nat)
    requires OnItsWay(w.at) && n <= ToWait(w)
    ensures var v := Serves(w, n);
      && OnItsWay(v.at) && (n > 0 ==> v.at != Marking) && ToWait(v) == ToWait(w) - n
      && v.ring == w.ring && v.flag == w.flag && v.busy == w.busy
      && (v.parked <==> w.parked || (w.at == Marking && n > 0))
  {
    if n > 0 {
      hide ServeStep;
      Onward(w, n - 1);
      OneOn(Serves(w, n - 1));
    }
  }

  /** From any state at the mark, left to itself, the thread goes to sleep for good over an
      unread byte exactly when it found nothing to do, the flag is down, and a byte is there. */
  lemma SleepsOverByteIff(w: World)
    requires w.at == Marking
    ensures var v := Serves(w, ToWait(w));
      AsleepForEver(v) && v.ring <==> !w.busy && !w.flag && w.ring
  {
    hide Serves;
    Onward(w, ToWait(w));
  }

  /** And a byte that arrives at any one point on the way is slept over exactly when that
      point is before the mark. */
  lemma MarkIsTheLine(w: World, k: nat)
    requires Inv(w) && w.at == Marking && !w.busy && !w.flag && k <= ToWait(w)
    ensures var v := ByteAfter(w, k, ToWait(w));
      v.ring && (AsleepForEver(v) <==> k == 0)
  {
    hide Serves, Asked;
    Onward(w, k);
    var u := Step(Serves(w, k), RxByte);
    Onward(u, ToWait(w) - k);
  }

  /** A thread with nothing to do and an unread byte. */
  function Overlooking(at: Place, parked: bool): World {
    BOOT.(at := at, parked := parked, ring := true)
  }

  /** Its next stop, with nothing to answer yes to. */
  function Onwards(at: Place): Place {
    match at
    case Working => AskCtrl
    case AskCtrl => AskTx
    case AskTx => AskRx
    case AskRx => AskSlot(0)
    case AskSlot(i) => if i < SLOTS then AskSlot(i + 1) else Marking
    case Marking => Unlocking
    case Unlocking => Delivering
    case _ => Waiting
  }

  lemma NothingPending(at: Place)
    requires at in {Working, AskCtrl, AskTx, AskRx} || at.AskSlot?
    ensures ServeStep(Overlooking(at, false), Finish) == Overlooking(Onwards(at), false)
  {
  }

  lemma Parks(at: Place)
    requires at in {Marking, Unlocking, Delivering}
    ensures ServeStep(Overlooking(at, at != Marking), Finish) == Overlooking(Onwards(at), true)
  {
  }

  /** One step further, in the run. */
  lemma Goes(acts: seq<Act>, at: Place) returns (more: seq<Act>)
    requires at in {Working, AskCtrl, AskTx, AskRx, Marking, Unlocking, Delivering} || at.AskSlot?
    requires Run(BOOT, acts) == Overlooking(at, at in {Unlocking, Delivering})
    ensures Run(BOOT, more) == Overlooking(Onwards(at), at in {Marking, Unlocking, Delivering})
  {
    hide Overlooking, Onwards, ServeStep;
    more := acts + [Serve(Finish)];
    assert more[..|acts|] == acts;
    if at in {Marking, Unlocking, Delivering} { Parks(at); } else { NothingPending(at); }
  }

  /** Bytes that came before it are another matter: read the ring, see a byte arrive, find
      nothing pending, park.  No flag was raised for it. */
  lemma EarlyBytesCanBeLeft() returns (acts: seq<Act>)
    ensures AsleepForEver(Run(BOOT, acts)) && Run(BOOT, acts).ring && Run(BOOT, acts).midway == 0
  {
    hide Run, Step, Posted;
    acts := [Serve(Finish), RxByte];
    FirstTwo();
    acts := Goes(acts, Working);
    acts := Goes(acts, AskCtrl);
    acts := Goes(acts, AskTx);
    acts := Goes(acts, AskRx);
    for i := 0 to SLOTS
      invariant Run(BOOT, acts) == Overlooking(AskSlot(i), false)
    {
      acts := Goes(acts, AskSlot(i));
    }
    acts := Goes(acts, AskSlot(SLOTS));
    acts := Goes(acts, Marking);
    acts := Goes(acts, Unlocking);
    acts := Goes(acts, Delivering);
  }

  lemma FirstTwo()
    ensures Run(BOOT, [Serve(Finish), RxByte]) == Overlooking(Working, false)
  {
    assert [Serve(Finish), RxByte][..1] == [Serve(Finish)];
    assert [Serve(Finish)][..0] == [];
  }
}
