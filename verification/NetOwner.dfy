/** The thread that owns the network session.  Whatever the module answers and whatever
    other threads do whenever it does not hold the coarse mutex, it detaches only when the
    rule of Silence allows it, and every path gives back the mutex it took. */
module NetOwner {
  import opened RefCount
  import opened Silence
  import opened UartLink

  datatype State = Down | Arming | Up | Stopping | Failed

  const OFF_RETRIES := 3
  const SETTLE_TRIES := 50
  const REFRESH_FAILS := 2
  const LINK_RATE := 6_000_000

  /** n refusals, or n - 1 refusals and an acknowledgement. */
  function OffRequests(n: nat, acked: bool): seq<Mark> {
    if n == 0 then []
    else seq(n - 1, _ => Config(Off, false)) + [Config(Off, acked)]
  }

  // ---- what the owner asks, other than of the module's DATA channel ----

  datatype Question =
    | ConsoleGone | Powered | Claimed | StopAsked | Opens | Referenced | Firmware | Associated
    | Switched | RateDead | DhcpStopped | Ownerless | Bridged | MacKnown | RadioUp | MacTaken

  datatype Asked = Asked(question: Question, yes: bool)

  /** An answer that ends a bring-up. */
  predicate Fatal(a: Asked) {
    match a.question
    case Claimed => false
    case Opens => false
    case Switched => false
    case StopAsked => a.yes
    case RateDead => a.yes
    case _ => !a.yes
  }

  /** How often the mutex was not to be had. */
  function Busy(s: seq<Asked>): nat {
    if s == [] then 0 else Busy(s[..|s| - 1]) + if s[|s| - 1] == Asked(Claimed, false) then 1 else 0
  }

  lemma {:induction false} BusyConcat(a: seq<Asked>, b: seq<Asked>)
    ensures Busy(a + b) == Busy(a) + Busy(b)
    decreases |b|
  {
    if b == [] {
      assert a + b == a;
    } else {
      BusyConcat(a, b[..|b| - 1]);
      assert (a + b)[..|a + b| - 1] == a + b[..|b| - 1];
    }
  }

  predicate AnyFatal(s: seq<Asked>) {
    exists a <- s :: Fatal(a)
  }

  /** The bring-up was refused: by an answer, or by a mutex busy for as long as we wait. */
  predicate Refused(s: seq<Asked>, patience: nat) {
    AnyFatal(s) || Busy(s) >= (if patience == 0 then 1 else patience)
  }

  /** All of these were asked and answered with yes. */
  predicate AllYes(qs: set<Question>, s: seq<Asked>) {
    forall q <- qs :: Asked(q, true) in s
  }

  lemma YesConcat(qs: set<Question>, s: seq<Asked>, rs: set<Question>, t: seq<Asked>)
    requires AllYes(qs, s) && AllYes(rs, t)
    ensures AllYes(qs + rs, s + t)
  {
  }

  const TO_BEGIN := {ConsoleGone, Powered, Claimed}
  const TO_ATTACH := {Referenced, Firmware, Associated, DhcpStopped, Ownerless}
  const TO_BRIDGE := {Bridged, MacKnown, RadioUp}

  /** No waiting for the mutex in it, and all answers welcome if and only if `ok`. */
  predicate Settled(s: seq<Asked>, ok: bool) {
    (ok <==> !AnyFatal(s)) && Busy(s) == 0
  }

  // ---- how a teardown may end ----

  /** Silence was acknowledged, and afterwards both ends were seen quiet. */
  predicate CleanStop(s: seq<Mark>) {
    exists j, k :: 0 <= j < k < |s| && s[j] == Config(Off, true) && IsQuiet(s[k])
  }

  /** Three refusals, or an acknowledgement within three requests and then fifty looks none
      of which was quiet; and then the whole stream was taken away. */
  predicate VainStop(s: seq<Mark>, n: nat) {
    || s == OffRequests(OFF_RETRIES, false) + [Quiesce, Detach]
    || (&& 0 < n <= OFF_RETRIES && |s| == n + SETTLE_TRIES + 2
        && s[..n] == OffRequests(n, true) && s[n + SETTLE_TRIES..] == [Quiesce, Detach]
        && forall k :: n <= k < n + SETTLE_TRIES ==> s[k].Look? && !IsQuiet(s[k]))
  }

  /** n requests for silence and, if the last was acknowledged, looks up to the first quiet
      one or fifty. */
  predicate Tried(s: seq<Mark>, n: nat, ok: bool) {
    && 0 < n <= OFF_RETRIES && n <= |s| <= n + SETTLE_TRIES
    && (forall k :: n <= k < |s| ==> s[k].Look? && (IsQuiet(s[k]) ==> ok && k == |s| - 1))
    && if |s| == n then !ok && n == OFF_RETRIES && s == OffRequests(n, false)
       else s[..n] == OffRequests(n, true)
            && if ok then IsQuiet(s[|s| - 1]) else |s| == n + SETTLE_TRIES
  }

  /** The history goes on, and ends with `last`. */
  predicate EndsWith(was: seq<Mark>, now: seq<Mark>, last: seq<Mark>) {
    |was| + |last| <= |now| && was <= now && now[|now| - |last|..] == last
  }

  function StopLog(gone: bool, claimed: bool): seq<Asked> {
    [Asked(ConsoleGone, gone)] + if gone then [Asked(Claimed, claimed)] else []
  }

  class Owner {
    const link: Uart8720
    var state: State
    var reqStop: bool
    var uartGen: nat               // the generation of our reference; 0 = none
    var failedAt: nat
    var refreshFails: nat
    var coarse: bool               // do we hold the coarse mutex
    var attached: bool             // are we the DATA consumer
    ghost var trace: seq<Mark>
    ghost var log: seq<Asked>

    ghost function Seen(): Monitor
      reads this
    {
      WatchAll(IDLE, trace)
    }

    ghost predicate Valid()
      reads this, link
    {
      && link.Valid() && DetachesSafely(trace) && Seen().attached == attached
      && (uartGen != 0 ==> uartGen in link.held)
      && (attached ==> uartGen != 0 && (uartGen == link.gen || Seen().taken))
      && failedAt <= link.quiesce
      && (attached && state == Failed && link.quiesce != failedAt ==> Seen().taken)
    }

    /** Between two turns of the loop. */
    ghost predicate AtRest()
      reads this
    {
      && !coarse && state != Stopping
      && (state in {Down, Arming} ==> !attached && uartGen == 0)
      && (state == Up ==> attached && Seen().bridged && refreshFails < REFRESH_FAILS)
    }

    constructor (uart: Uart8720)
      requires uart.Valid()
      ensures Valid() && AtRest() && link == uart && trace == [] && log == [] && state == Down
    {
      link, state, reqStop, uartGen, failedAt, refreshFails := uart, Down, false, 0, 0, 0;
      coarse, attached, trace, log := false, false, [], [];
    }

    ghost method Emit(m: Mark)
      requires DetachesSafely(trace) && Permits(Seen(), m)
      modifies `trace
      ensures trace == old(trace) + [m] && DetachesSafely(trace)
      ensures Seen() == Watch(old(Seen()), m)
    {
      SnocIsSafe(trace, m);
      trace := trace + [m];
    }

    method Ask(q: Question) returns (yes: bool)
      modifies `log
      ensures log == old(log) + [Asked(q, yes)]
    {
      yes := *;
      log := log + [Asked(q, yes)];
    }

    /** The next check of a bring-up, whose answer has to be yes. */
    method MustBe(q: Question, ghost s: seq<Asked>) returns (ok: bool, ghost t: seq<Asked>)
      requires Settled(s, true) && q != Claimed && Fatal(Asked(q, false)) && !Fatal(Asked(q, true))
      modifies `log
      ensures log == old(log) + [Asked(q, ok)] && t == s + [Asked(q, ok)] && Settled(t, ok)
    {
      hide Settled;
      ok := Ask(q);
      SettledMore(s, Asked(q, ok));
      t := s + [Asked(q, ok)];
    }

    // ---- the coarse mutex and everybody else ----

    method ClaimMutex() returns (ok: bool)
      requires Valid() && !coarse
      modifies this, link
      ensures Valid() && coarse == ok && Kept() && log == old(log) + [Asked(Claimed, ok)]
    {
      hide Inv, RefCount.Step, DetachesSafely, WatchAll;
      Others();
      ok := Ask(Claimed);
      coarse := ok;
    }

    method Unclaim()
      requires coarse
      modifies `coarse
      ensures !coarse
    {
      coarse := false;
    }

    twostate predicate Kept()
      reads this, link
    {
      && uartGen == old(uartGen) && attached == old(attached) && failedAt == old(failedAt)
      && refreshFails == old(refreshFails)
      && (state == old(state) || (old(state) == Down && state == Arming))
      && (old(Seen()).taken ==> Seen().taken) && (old(Seen()).bridged ==> Seen().bridged)
      && old(trace) <= trace
      && old(link.gen) <= link.gen && old(link.quiesce) <= link.quiesce
    }

    /** Somebody else's section, any number of times.  They may hold references of their own
        but not return ours. */
    method Others()
      requires Valid() && !coarse
      modifies this, link
      ensures Valid() && !coarse && Kept() && log == old(log)
    {
      hide Inv, RefCount.Step, DetachesSafely, WatchAll;
      var n: nat :| 0 <= n;
      for k := 0 to n
        invariant Valid() && !coarse && Kept() && log == old(log)
      {
        OneOther();
      }
    }

    method OneOther()
      requires Valid() && !coarse
      modifies this, link
      ensures Valid() && !coarse && Kept() && log == old(log)
    {
      hide Inv, RefCount.Step, DetachesSafely, WatchAll;
      var pick: int, yes: bool := *, *;
      if pick == 0 {
        OtherOnLink();
      } else if pick == 1 {
        link.TakeAway();
        Emit(Quiesce);
      } else if pick == 2 {
        if state == Up { Emit(Config(Bridge, yes)); }
      } else if pick == 3 {
        reqStop := true;
      } else {
        if state == Down { state := Arming; }
      }
    }

    method OtherOnLink()
      requires Valid()
      modifies link
      ensures Valid() && old(link.gen) <= link.gen && link.quiesce == old(link.quiesce)
    {
      hide Inv, RefCount.Step, DetachesSafely, WatchAll;
      var pick: int, which: Uart, baud: nat, yes: bool, taken: nat := *, *, *, *, *;
      if pick == 0 {
        var _ := link.TakeRef(which, baud, yes);
      } else if pick == 1 {
        OtherGivesBack(taken, yes);
      } else {
        var _ := link.ChangeRate(baud, yes);
      }
    }

    /** A release of theirs: a plain one only of a current reference, which with ours out
        is there if the count says two. */
    method OtherGivesBack(taken: nat, plain: bool)
      requires Valid()
      modifies link
      ensures Valid() && link.gen == old(link.gen) && link.quiesce == old(link.quiesce)
    {
      hide Inv, RefCount.Step, DetachesSafely, WatchAll;
      CountIsHeld(link.View());
      if plain {
        if link.refs >= 2 || (link.refs == 1 && uartGen != link.gen) { link.Release(link.gen); }
      } else {
        if taken != uartGen || (taken == link.gen && link.refs >= 2) { link.ReleaseGen(taken); }
      }
    }

    // ---- talking to the module, coarse mutex held ----

    method DataCfg(mode: Mode) returns (ok: bool)
      requires Valid() && coarse
      modifies `trace
      ensures Valid() && trace == old(trace) + [Config(mode, ok)]
      ensures Seen() == Watch(old(Seen()), Config(mode, ok))
    {
      hide Inv, RefCount.Step, DetachesSafely, WatchAll;
      ok := *;
      Emit(Config(mode, ok));
    }

    /** Ask for silence, three times at most. */
    method TurnOff() returns (ok: bool, tries: nat)
      requires Valid() && coarse
      modifies `trace
      ensures Valid() && (ok ==> Seen().off)
      ensures Seen().taken == old(Seen()).taken
      ensures 0 < tries <= OFF_RETRIES && (!ok ==> tries == OFF_RETRIES)
      ensures trace == old(trace) + OffRequests(tries, ok)
    {
      hide Inv, RefCount.Step, DetachesSafely, WatchAll;
      tries, ok := 0, false;
      while tries < OFF_RETRIES
        invariant Valid() && tries <= OFF_RETRIES && !ok && Seen().taken == old(Seen()).taken
        invariant trace == old(trace) + OffRequests(tries, false)
      {
        ok := DataCfg(Off);
        tries := tries + 1;
        assert trace == old(trace) + OffRequests(tries, ok);
        if ok { return; }
      }
    }

    /** Wait, fifty looks at most, until both ends are quiet. */
    method Settle() returns (ok: bool)
      requires Valid() && coarse && Seen().off
      modifies `trace
      ensures Valid() && Seen().taken == old(Seen()).taken
      ensures |old(trace)| < |trace| <= |old(trace)| + SETTLE_TRIES
      ensures trace[..|old(trace)|] == old(trace)
      ensures forall k :: |old(trace)| <= k < |trace| ==> trace[k].Look?
      ensures ok ==> Seen().quiet && IsQuiet(trace[|trace| - 1])
      ensures ok ==> forall k :: |old(trace)| <= k < |trace| - 1 ==> !IsQuiet(trace[k])
      ensures !ok ==> |trace| == |old(trace)| + SETTLE_TRIES
      ensures !ok ==> forall k :: |old(trace)| <= k < |trace| ==> !IsQuiet(trace[k])
    {
      hide Inv, RefCount.Step, DetachesSafely, WatchAll;
      ok := false;
      for tries := 0 to SETTLE_TRIES
        invariant Valid() && Seen().off && Seen().taken == old(Seen()).taken
        invariant |trace| == |old(trace)| + tries && trace[..|old(trace)|] == old(trace)
        invariant forall k :: |old(trace)| <= k < |trace| ==>
          trace[k].Look? && !IsQuiet(trace[k])
      {
        var seen: bool, queued: nat, inUse: nat := *, *, *;
        Emit(Look(seen, queued, inUse));
        if seen && queued == 0 && inUse == 0 { return true; }
      }
    }

    // ---- teardown ----

    method DropConsumer()
      requires Valid() && (attached ==> Clear(Seen()))
      modifies `attached, `trace
      ensures Valid() && !attached && trace == old(trace) + [Detach]
    {
      hide Inv, RefCount.Step, DetachesSafely, WatchAll;
      attached := false;
      Emit(Detach);
    }

    /** Detach, give the reference back, and be down. */
    method Leave()
      requires Valid() && (attached ==> Clear(Seen()))
      modifies this, link
      ensures Valid() && !attached && uartGen == 0 && state == Down
      ensures link.held == old(link.held) - multiset{old(uartGen)}
      ensures coarse == old(coarse) && link.quiesce == old(link.quiesce) && log == old(log)
      ensures trace == old(trace) + [Detach]
    {
      hide Inv, RefCount.Step, DetachesSafely, WatchAll, Clear, Uart8720.View;
      DropConsumer();
      link.ReleaseGen(uartGen);
      uartGen := 0;
      state := Down;
    }

    /** Silence cannot be proved: take the whole stream away instead. */
    method EnterFailed()
      requires Valid()
      modifies this, link
      ensures Valid() && state == Failed && !attached && uartGen == 0
      ensures coarse == old(coarse) && link.quiesce == old(link.quiesce) + 1 == failedAt
      ensures trace == old(trace) + [Quiesce, Detach] && log == old(log)
    {
      hide Inv, RefCount.Step, DetachesSafely, WatchAll;
      link.TakeAway();
      Emit(Quiesce);
      DropConsumer();
      uartGen := 0;
      failedAt := link.quiesce;
      state := Failed;
    }

    /** With the mutex held: silence first, then the consumer, then the reference.  The
        session is down if and only if the module acknowledged silence and a look after it
        was quiet; the stream is taken away only after three refusals or fifty looks. */
    method StopClaimed() returns (ghost s: seq<Mark>)
      requires Valid() && coarse && attached
      modifies this, link
      ensures Valid() && AtRest() && state in {Down, Failed}
      ensures trace == old(trace) + s && log == old(log)
      ensures state == Down <==> CleanStop(s)
      ensures state == Down ==> link.quiesce == old(link.quiesce) && uartGen == 0
      ensures state == Failed ==> exists n: nat :: VainStop(s, n)
      ensures state == Failed ==> link.quiesce == old(link.quiesce) + 1 == failedAt
    {
      hide Inv, RefCount.Step, DetachesSafely, WatchAll, Watch, OffRequests, IsQuiet;
      hide CleanStop, VainStop;
      var ok, n;
      ok, n, s := ProveSilence();
      if ok { Leave(); } else { EnterFailed(); }
      Unclaim();
      SilenceDecides(s, n, ok);
      s := s + if ok then [Detach] else [Quiesce, Detach];
    }

    /** Ask for silence, and look for it. */
    method ProveSilence() returns (ok: bool, n: nat, ghost s: seq<Mark>)
      requires Valid() && coarse
      modifies `trace
      ensures Valid() && trace == old(trace) + s && (ok ==> Seen().quiet) && Tried(s, n, ok)
    {
      hide Inv, RefCount.Step, DetachesSafely, WatchAll, Watch, OffRequests, IsQuiet;
      ok, n := TurnOff();
      s := OffRequests(n, ok);
      RequestsAre(n, ok);
      if ok {
        ghost var looks;
        ok, looks := LookForQuiet();
        s := s + looks;
      }
    }

    method LookForQuiet() returns (ok: bool, ghost s: seq<Mark>)
      requires Valid() && coarse && Seen().off
      modifies `trace
      ensures Valid() && trace == old(trace) + s && (ok ==> Seen().quiet)
      ensures 0 < |s| <= SETTLE_TRIES && forall m <- s :: m.Look?
      ensures forall k :: 0 <= k < |s| && IsQuiet(s[k]) ==> ok && k == |s| - 1
      ensures if ok then IsQuiet(s[|s| - 1]) else |s| == SETTLE_TRIES
    {
      hide Inv, RefCount.Step, DetachesSafely, WatchAll, IsQuiet;
      ok := Settle();
      s := trace[|old(trace)|..];
    }

    /** nxn_stop.  A console that will not go, or a mutex nobody gives up, ends in failure
        too; in the latter case still attached, until a power cycle.  Otherwise it ends as
        the module's answers have it. */
    method Stop() returns (gone: bool, claimed: bool, ghost s: seq<Mark>)
      requires Valid() && !coarse && attached
      modifies this, link
      ensures Valid() && AtRest() && state in {Down, Failed}
      ensures EndsWith(old(trace), trace, s) && log == old(log) + StopLog(gone, claimed)
      ensures state == Down <==> gone && claimed && CleanStop(s)
      ensures !gone ==> s == [Quiesce, Detach] && !attached
      ensures gone && !claimed ==> s == [] && attached
      ensures gone && claimed && state == Failed ==> exists n: nat :: VainStop(s, n)
      ensures state == Failed ==> failedAt == link.quiesce
    {
      hide Inv, RefCount.Step, DetachesSafely, WatchAll, CleanStop, VainStop;
      state, refreshFails, claimed, s := Stopping, 0, false, [];
      gone := Ask(ConsoleGone);
      Others();
      if !gone {
        ghost var before := trace;
        EnterFailed();
        s := [Quiesce, Detach];
        return;
      }
      claimed := ClaimMutex();
      if !claimed {
        failedAt := link.quiesce;
        state := Failed;
        return;
      }
      s := StopClaimed();
    }

    // ---- bring-up ----

    /** `unref:` and `refuse:`, the ways out while giving up is still free. */
    method GiveUp(dropRef: bool)
      requires Valid() && (attached ==> dropRef && Clear(Seen())) && (uartGen != 0 ==> dropRef)
      modifies this, link
      ensures Valid() && AtRest() && state == Down && log == old(log)
      ensures refreshFails == old(refreshFails) && old(trace) <= trace
      ensures link.held == if dropRef then old(link.held) - multiset{old(uartGen)} else old(link.held)
    {
      hide Inv, RefCount.Step, DetachesSafely, WatchAll;
      if dropRef {
        if attached { DropConsumer(); }
        link.ReleaseGen(uartGen);
        uartGen := 0;
      }
      if coarse { Unclaim(); }
      state := Down;
    }

    method StopRequested() returns (yes: bool)
      modifies `reqStop, `log
      ensures yes == reqStop && (old(reqStop) ==> yes) && log == old(log) + [Asked(StopAsked, yes)]
    {
      var posted: bool := *;
      reqStop := reqStop || posted;
      yes := reqStop;
      log := log + [Asked(StopAsked, yes)];
    }

    /** A request to stop is taken, and ends the bring-up. */
    method MustGoOn(ghost s: seq<Asked>) returns (ok: bool, ghost t: seq<Asked>)
      requires Settled(s, true)
      modifies `reqStop, `log
      ensures log == old(log) + [Asked(StopAsked, !ok)]
      ensures t == s + [Asked(StopAsked, !ok)] && Settled(t, ok)
    {
      hide Settled;
      var stop := StopRequested();
      if stop { reqStop := false; }
      ok := !stop;
      SettledMore(s, Asked(StopAsked, stop));
      t := s + [Asked(StopAsked, stop)];
    }

    /** Wait for the coarse mutex, up to `patience` tries or a request to stop. */
    method ClaimPatiently(patience: nat) returns (ok: bool, ghost s: seq<Asked>)
      requires Valid() && AtRest() && state == Arming
      modifies this, link
      ensures Valid() && state == Arming && !attached && uartGen == 0 && coarse == ok
      ensures refreshFails == old(refreshFails) && old(trace) <= trace
      ensures log == old(log) + s && (ok <==> !Refused(s, patience))
      ensures ok ==> AllYes({Claimed}, s)
    {
      hide Inv, RefCount.Step, DetachesSafely, WatchAll, Refused, Fatal, Busy;
      var waited := 0;
      ok, s := false, [];
      NothingRefused(patience);
      while !ok
        invariant Valid() && coarse == ok && state == Arming && !attached && uartGen == 0
        invariant refreshFails == old(refreshFails) && old(trace) <= trace
        invariant log == old(log) + s && !Refused(s, patience) && Busy(s) == waited
        invariant ok ==> AllYes({Claimed}, s)
        decreases patience - waited, !ok
      {
        var stop;
        ghost var more;
        ok, stop, more := ClaimOnce(s, patience);
        s := s + more;
        if !ok {
          waited := waited + 1;
          if stop || waited >= patience { return; }
        }
      }
    }

    /** One try for the mutex and, if it is not to be had, a look whether to go on trying. */
    method ClaimOnce(ghost s: seq<Asked>, patience: nat)
      returns (ok: bool, stop: bool, ghost more: seq<Asked>)
      requires Valid() && !coarse && state == Arming && !attached && uartGen == 0
      requires !Refused(s, patience)
      modifies this, link
      ensures Valid() && coarse == ok && state == Arming && !attached && uartGen == 0
      ensures refreshFails == old(refreshFails) && old(trace) <= trace && log == old(log) + more
      ensures Busy(s + more) == Busy(s) + if ok then 0 else 1
      ensures ok ==> more == [Asked(Claimed, true)]
      ensures Refused(s + more, patience) <==> !ok && (stop || Busy(s) + 1 >= patience)
    {
      hide Inv, RefCount.Step, DetachesSafely, WatchAll, Refused, Fatal, Busy;
      stop := false;
      ok := ClaimMutex();
      more := [Asked(Claimed, ok)];
      ClaimNoted(s, ok, patience);
      if !ok {
        stop := StopRequested();
        StopNoted(s + more, stop, patience);
        assert s + (more + [Asked(StopAsked, stop)]) == s + more + [Asked(StopAsked, stop)];
        more := more + [Asked(StopAsked, stop)];
      }
    }

    /** Everything that can still be given up for free: reference, checks, rate, consumer.
        It is given up exactly on a fatal answer, and the answer about the reference is what
        the link says. */
    method Prepare() returns (ok: bool, ghost s: seq<Asked>)
      requires Valid() && coarse && state == Arming && !attached && uartGen == 0
      modifies this, link
      ensures Valid() && (!ok ==> AtRest() && state == Down)
      ensures ok ==> coarse && attached && state == Arming && uartGen == link.gen
      ensures refreshFails == old(refreshFails) && old(trace) <= trace
      ensures log == old(log) + s && Settled(s, ok)
      ensures |s| >= 2 && s[0].question == Opens && s[1].question == Referenced
      ensures ok ==> AllYes(TO_ATTACH, s)
      ensures s[1].yes <==> TookRef(old(link.View()), Ref(At, old(link.erpcBaud), s[0].yes))
    {
      hide Inv, RefCount.Step, DetachesSafely, WatchAll, Watch, Clear, Permits, TookRef;
      hide Settled, Fatal;
      ghost var more;
      ok, s := TakeReference();
      if !ok { GiveUp(false); return; }
      ok, more := Check();
      SettledConcat(s, more, ok);
      s := s + more;
      if !ok { GiveUp(true); return; }
      ok, more := BecomeConsumer();
      SettledConcat(s, more, ok);
      s := s + more;
    }

    method TakeReference() returns (ok: bool, ghost s: seq<Asked>)
      requires Valid() && uartGen == 0 && !attached
      modifies `uartGen, `log, link
      ensures Valid() && (if ok then uartGen == link.gen else uartGen == 0)
      ensures log == old(log) + s && Settled(s, ok)
      ensures |s| == 2 && s[0].question == Opens && s[1] == Asked(Referenced, ok)
      ensures ok <==> TookRef(old(link.View()), Ref(At, old(link.erpcBaud), s[0].yes))
      ensures ok ==> uartGen != 0
    {
      hide Inv, RefCount.Step, DetachesSafely, WatchAll, TookRef, Settled;
      var opens := Ask(Opens);
      ok := link.TakeRef(At, link.erpcBaud, opens);
      s := [Asked(Opens, opens), Asked(Referenced, ok)];
      log := log + [Asked(Referenced, ok)];
      SettledStart();
      SettledMore([], Asked(Opens, opens));
      SettledMore([] + [Asked(Opens, opens)], Asked(Referenced, ok));
      assert [] + [Asked(Opens, opens)] + [Asked(Referenced, ok)] == s;
      if ok { uartGen := link.gen; }
    }

    /** Firmware, association, link rate, and whether anybody has asked to stop. */
    method Check() returns (ok: bool, ghost s: seq<Asked>)
      requires Valid() && !attached
      modifies `reqStop, `log, link
      ensures Valid() && link.gen == old(link.gen)
      ensures log == old(log) + s && Settled(s, ok)
      ensures ok ==> Asked(Firmware, true) in s && Asked(Associated, true) in s
    {
      hide Inv, RefCount.Step, DetachesSafely, WatchAll, Settled, Fatal;
      ghost var more;
      ok, s := FirstChecks();
      if !ok { return; }
      ok, more := RaiseRate();
      SettledConcat(s, more, ok);
      s := s + more;
      if !ok { return; }
      ok, s := MustGoOn(s);
    }

    method FirstChecks() returns (ok: bool, ghost s: seq<Asked>)
      modifies `log
      ensures log == old(log) + s && Settled(s, ok)
      ensures ok ==> s == [Asked(Firmware, true), Asked(Associated, true)]
    {
      hide Settled;
      SettledStart();
      ok, s := MustBe(Firmware, []);
      if !ok { return; }
      ok, s := MustBe(Associated, s);
    }

    /** Only a link that dies of the change is a reason to give up; a refusal is not. */
    method RaiseRate() returns (ok: bool, ghost s: seq<Asked>)
      requires Valid() && !attached
      modifies `log, link
      ensures Valid() && link.gen == old(link.gen)
      ensures log == old(log) + s && Settled(s, ok)
      ensures s == [] <==> old(link.erpcBaud) == LINK_RATE
    {
      hide Inv, RefCount.Step, DetachesSafely, WatchAll, Settled;
      ok, s := true, [];
      SettledStart();
      if link.erpcBaud != LINK_RATE {
        var opens: bool := *;
        var switched := Ask(Switched);
        if switched { var _ := link.ChangeRate(LINK_RATE, opens); }
        var dead := Ask(RateDead);
        SettledMore(s, Asked(Switched, switched));
        SettledMore(s + [Asked(Switched, switched)], Asked(RateDead, dead));
        s := s + [Asked(Switched, switched)] + [Asked(RateDead, dead)];
        ok := !dead;
      }
    }

    method MayAttach() returns (ok: bool, ghost s: seq<Asked>)
      modifies `log
      ensures log == old(log) + s && Settled(s, ok)
      ensures ok ==> s == [Asked(DhcpStopped, true), Asked(Ownerless, true)]
    {
      hide Settled;
      SettledStart();
      ok, s := MustBe(DhcpStopped, []);
      if !ok { return; }
      ok, s := MustBe(Ownerless, s);
    }

    method BecomeConsumer() returns (ok: bool, ghost s: seq<Asked>)
      requires Valid() && coarse && state == Arming && !attached && uartGen == link.gen
      modifies this, link
      ensures Valid() && (!ok ==> AtRest() && state == Down)
      ensures ok ==> coarse && attached && state == Arming && uartGen == link.gen
      ensures refreshFails == old(refreshFails) && old(trace) <= trace
      ensures log == old(log) + s && Settled(s, ok)
      ensures ok ==> Asked(DhcpStopped, true) in s && Asked(Ownerless, true) in s
    {
      hide Inv, RefCount.Step, DetachesSafely, WatchAll, Settled, Fatal;
      ok, s := MayAttach();
      if !ok { GiveUp(true); return; }
      attached := true;
      Emit(Attach);
      ok, s := MustGoOn(s);
      if !ok { GiveUp(true); }
    }

    /** Up to the coarse mutex. */
    method GetHold(patience: nat) returns (ok: bool, ghost s: seq<Asked>)
      requires Valid() && AtRest() && state == Arming
      modifies this, link
      ensures Valid() && state == Arming && !attached && uartGen == 0 && coarse == ok
      ensures refreshFails == old(refreshFails) && old(trace) <= trace && log == old(log) + s
      ensures (ok <==> !Refused(s, patience)) && (ok ==> AllYes(TO_BEGIN, s))
    {
      hide Inv, RefCount.Step, DetachesSafely, WatchAll, Refused, Fatal, Settled, AllYes;
      ghost var more;
      ok, s := MayBegin();
      if !ok { SettledRefused(s, patience); return; }
      ok, more := ClaimPatiently(patience);
      NoneFatal(s, more, patience);
      if ok {
        YesConcat({ConsoleGone, Powered}, s, {Claimed}, more);
        assert {ConsoleGone, Powered} + {Claimed} == TO_BEGIN;
      }
      s := s + more;
    }

    /** Up to the bridge request: giving up is free. */
    method Approach(patience: nat) returns (ok: bool, ghost s: seq<Asked>)
      requires Valid() && AtRest() && state == Arming
      modifies this, link
      ensures Valid() && old(trace) <= trace && log == old(log) + s
      ensures ok <==> !Refused(s, patience)
      ensures ok ==> AllYes(TO_BEGIN + TO_ATTACH, s)
      ensures if ok then coarse && attached && state == Arming && uartGen == link.gen
              else AtRest() && state == Down
      ensures refreshFails == 0
    {
      hide Inv, RefCount.Step, DetachesSafely, WatchAll, Refused, Fatal, Settled, AllYes;
      refreshFails := 0;
      ghost var more;
      ok, s := GetHold(patience);
      if !ok { GiveUp(false); return; }
      ok, more := Prepare();
      MoreAnswers(s, more, ok, patience);
      if ok { YesConcat(TO_BEGIN, s, TO_ATTACH, more); }
      s := s + more;
    }

    /** After the bridge request and with the mutex given back: up, or a full teardown. */
    method EndArm(asked: bool, ghost s: seq<Asked>, patience: nat)
      returns (ok: bool, ghost more: seq<Asked>)
      requires Valid() && !coarse && attached && state == Arming && Seen().bridged
      requires refreshFails == 0 && (asked <==> !Refused(s, patience))
      modifies this, link
      ensures Valid() && AtRest() && old(trace) <= trace && log == old(log) + more
      ensures ok <==> !Refused(s + more, patience)
      ensures ok ==> AllYes({MacTaken}, more)
      ensures if ok then asked && state == Up && refreshFails == 0 && uartGen != 0
              else state in {Down, Failed}
    {
      hide Inv, RefCount.Step, DetachesSafely, WatchAll, Refused, Fatal;
      ok, more := asked, [];
      Others();
      if ok {
        ok := Ask(MacTaken);
        MacNoted(s, ok, patience);
        more := [Asked(MacTaken, ok)];
      }
      if !ok {
        assert s + [] == s;
        var gone, claimed;
        ghost var t;
        gone, claimed, t := Stop();
        RefusedStays(s + more, StopLog(gone, claimed), patience);
        assert s + (more + StopLog(gone, claimed)) == s + more + StopLog(gone, claimed);
        more := more + StopLog(gone, claimed);
        return;
      }
      state := Up;
    }

    /** nxn_arm.  The session is up if and only if no answer refused it, and then the module
        acknowledged a bridge request of this bring-up.  Until that request giving up is
        free, and from it on only Stop may end the session. */
    method Arm(patience: nat) returns (ghost s: seq<Asked>)
      requires Valid() && AtRest() && state == Arming
      modifies this, link
      ensures Valid() && AtRest() && state in {Down, Up, Failed}
      ensures old(trace) <= trace && log == old(log) + s
      ensures state == Up <==> !Refused(s, patience)
      ensures state == Up ==> AllYes(TO_BEGIN + TO_ATTACH + TO_BRIDGE + {MacTaken}, s)
      ensures state == Up ==> Config(Bridge, true) in trace[|old(trace)|..]
      ensures state == Up ==> refreshFails == 0 && uartGen != 0
      ensures (forall a <- s :: a.question != Bridged) ==> state == Down
    {
      hide Inv, RefCount.Step, DetachesSafely, WatchAll, Refused, Fatal, Settled, AllYes;
      var ok;
      ghost var more;
      ok, s := Approach(patience);
      if !ok { return; }
      ok, more := AskBridge();
      MoreAnswers(s, more, ok, patience);
      if ok { YesConcat(TO_BEGIN + TO_ATTACH, s, TO_BRIDGE, more); }
      ghost var before, asked := s, trace;
      s := s + more;
      assert s[|before|] == more[0] && more[0] in s;
      Unclaim();
      ok, more := EndArm(ok, s, patience);
      if ok { YesConcat(TO_BEGIN + TO_ATTACH + TO_BRIDGE, s, {MacTaken}, more); }
      s := s + more;
      if ok { assert asked[|asked| - 1] in trace[|old(trace)|..]; }
    }

    method MayBegin() returns (ok: bool, ghost s: seq<Asked>)
      modifies `log
      ensures log == old(log) + s && Settled(s, ok)
      ensures ok ==> AllYes({ConsoleGone, Powered}, s)
    {
      hide Settled;
      SettledStart();
      ok, s := MustBe(ConsoleGone, []);
      if !ok { return; }
      ok, s := MustBe(Powered, s);
    }

    /** The bridge request, and what the module then says of its radio. */
    method AskBridge() returns (ok: bool, ghost s: seq<Asked>)
      requires Valid() && coarse
      modifies `trace, `log
      ensures Valid() && Seen().bridged && |trace| == |old(trace)| + 1 && old(trace) <= trace
      ensures ok ==> trace[|trace| - 1] == Config(Bridge, true)
      ensures log == old(log) + s && Settled(s, ok)
      ensures ok ==> AllYes(TO_BRIDGE, s)
      ensures s != [] && s[0] == Asked(Bridged, trace[|trace| - 1] == Config(Bridge, true))
    {
      hide Inv, RefCount.Step, DetachesSafely, WatchAll, Settled;
      SettledStart();
      ok := DataCfg(Bridge);
      log := log + [Asked(Bridged, ok)];
      SettledMore([], Asked(Bridged, ok));
      s := [] + [Asked(Bridged, ok)];
      if ok { ok, s := HearRadio(s); }
    }

    method HearRadio(ghost s: seq<Asked>) returns (ok: bool, ghost t: seq<Asked>)
      requires Settled(s, true)
      modifies `log
      ensures Settled(t, ok) && s <= t && log == old(log) + t[|s|..]
      ensures ok ==> t == s + [Asked(MacKnown, true), Asked(RadioUp, true)]
    {
      hide Settled;
      ok, t := MustBe(MacKnown, s);
      if !ok { return; }
      ok, t := MustBe(RadioUp, t);
    }

    // ---- staying up ----

    /** nxn_refresh.  A session ends here if and only if the module refuses to go on bridging
        for the second time in a row; what then becomes of it is Stop's to say. */
    method Refresh() returns (ghost s: seq<Asked>)
      requires Valid() && AtRest() && state == Up
      modifies this, link
      ensures Valid() && AtRest() && state in {Down, Up, Failed}
      ensures log == old(log) + s && 0 < |s| && s[0].question == Claimed
      ensures state != Up <==>
        |s| > 1 && s[..2] == [Asked(Claimed, true), Asked(Bridged, false)] && old(refreshFails) == 1
      ensures s == [Asked(Claimed, true), Asked(Bridged, false)] && old(refreshFails) == 0 ==>
        refreshFails == 1
      ensures !s[0].yes ==> |s| == 1 && refreshFails == old(refreshFails)
      ensures s[0].yes ==> |s| > 1 && s[1].question == Bridged
      ensures old(trace) <= trace
    {
      hide Inv, RefCount.Step, DetachesSafely, WatchAll, CleanStop, VainStop;
      var ok := ClaimMutex();
      s := [Asked(Claimed, ok)];
      if !ok { return; }
      ok := Renew();
      s := [Asked(Claimed, true), Asked(Bridged, ok)];
      assert s[..2] == s;
      Unclaim();
      Others();
      if refreshFails >= REFRESH_FAILS {
        refreshFails := 0;
        var gone, claimed;
        ghost var t;
        gone, claimed, t := Stop();
        assert (s + StopLog(gone, claimed))[..2] == s;
        s := s + StopLog(gone, claimed);
      }
    }

    /** With the mutex held: ask to go on bridging, and count the refusals in a row. */
    method Renew() returns (ok: bool)
      requires Valid() && coarse
      modifies `trace, `refreshFails, `log
      ensures Valid() && Seen().bridged && old(trace) <= trace
      ensures log == old(log) + [Asked(Bridged, ok)]
      ensures if ok then refreshFails <= 1 else refreshFails == old(refreshFails) + 1
    {
      hide Inv, RefCount.Step, DetachesSafely, WatchAll;
      ok := DataCfg(Bridge);
      log := log + [Asked(Bridged, ok)];
      if !ok {
        refreshFails := refreshFails + 1;
      } else {
        refreshFails := 0;
        var rejoin: bool := *;
        if rejoin { Rejoin(); }
      }
    }

    /** nxn_auto_reconnect: hold the tap open, try, and go back to the ordinary hold. */
    method Rejoin()
      requires Valid() && coarse
      modifies `trace, `refreshFails
      ensures Valid() && Seen().taken == old(Seen()).taken && Seen().bridged
      ensures old(refreshFails) <= refreshFails <= old(refreshFails) + 1 && old(trace) <= trace
    {
      hide Inv, RefCount.Step, DetachesSafely, WatchAll;
      var ok := DataCfg(Bridge);
      if !ok { return; }
      var aborted: bool := *;
      if aborted { return; }
      ok := DataCfg(Bridge);
      if !ok { refreshFails := refreshFails + 1; }
    }

    /** The link was taken away: no eRPC, no lock. */
    method LinkRevoked()
      requires Valid() && AtRest() && state == Up && uartGen != link.gen
      modifies this, link
      ensures Valid() && AtRest() && state == Down && old(trace) <= trace && log == old(log)
    {
      hide Inv, RefCount.Step, DetachesSafely, WatchAll;
      Others();
      Leave();
    }

    /** The module has been power-cycled since the failure. */
    method Recover()
      requires Valid() && AtRest() && state == Failed && link.quiesce != failedAt
      modifies this, link
      ensures Valid() && AtRest() && state == Down && link.quiesce == old(link.quiesce)
      ensures old(trace) <= trace && log == old(log)
    {
      hide Inv, RefCount.Step, DetachesSafely, WatchAll;
      Leave();
    }

    // ---- the loop ----

    /** One turn of nxn_entry.  Failure is left if and only if the module has been
        power-cycled since; a session asked for is up unless an answer refused it, and one
        asked to stop is down exactly if the console went, the mutex was got and silence was
        proved; one whose link was taken away is down. */
    method Turn(patience: nat) returns (ghost s: seq<Asked>, ghost stop: seq<Mark>)
      requires Valid() && AtRest()
      modifies this, link
      ensures Valid() && AtRest() && old(trace) <= trace && log == old(log) + s
      ensures old(state) == Failed ==>
        state == if old(link.quiesce) != old(failedAt) then Down else Failed
      ensures old(state) == Arming ==> (state == Up <==> !Refused(s, patience))
      ensures old(state) == Up && old(reqStop) ==> EndsWith(old(trace), trace, stop)
      ensures old(state) == Up && old(reqStop) ==>
        (state == Down <==> s == StopLog(true, true) && CleanStop(stop)) && state in {Down, Failed}
      ensures old(state) == Up && !old(reqStop) && old(link.gen) != old(uartGen) ==> state == Down
      ensures old(state) == Up && !old(reqStop) && old(link.gen) == old(uartGen) ==>
        (state != Up <==> |s| > 1 && old(refreshFails) == 1
                          && s[..2] == [Asked(Claimed, true), Asked(Bridged, false)])
      ensures old(state) == Down ==> state == Down
    {
      hide Inv, RefCount.Step, DetachesSafely, WatchAll, Refused, CleanStop, VainStop;
      s, stop := [], [];
      if reqStop && state in {Up, Down, Failed} {
        reqStop := false;
        if state == Up {
          var gone, claimed;
          gone, claimed, stop := Stop();
          s := StopLog(gone, claimed);
          assert s[0].yes == gone && (gone ==> s[1].yes == claimed);
        }
      }
      match state
      case Arming => s := Arm(patience);
      case Up =>
        if link.gen != uartGen { LinkRevoked(); } else { s := Refresh(); }
      case Failed =>
        if link.quiesce != failedAt { Recover(); }
      case _ =>
    }

    /** Every run: any number of turns, with anything from the others in between. */
    method Entry(turns: nat, patience: nat)
      requires Valid() && AtRest()
      modifies this, link
      ensures Valid() && AtRest() && old(trace) <= trace && DetachesSafely(trace)
    {
      hide Inv, RefCount.Step, DetachesSafely, WatchAll;
      for k := 0 to turns
        invariant Valid() && AtRest() && old(trace) <= trace
      {
        Others();
        ghost var _, _ := Turn(patience);
      }
    }
  }

  // ---- the answers add up ----

  lemma NothingRefused(patience: nat)
    ensures !Refused([], patience) && Busy([]) == 0
  {
  }

  lemma ClaimNoted(s: seq<Asked>, ok: bool, patience: nat)
    requires !Refused(s, patience)
    ensures Busy(s + [Asked(Claimed, ok)]) == Busy(s) + if ok then 0 else 1
    ensures Refused(s + [Asked(Claimed, ok)], patience) <==>
      !ok && Busy(s) + 1 >= if patience == 0 then 1 else patience
  {
    assert (s + [Asked(Claimed, ok)])[..|s|] == s;
    assert !Fatal(Asked(Claimed, ok));
  }

  lemma StopNoted(s: seq<Asked>, stop: bool, patience: nat)
    ensures Busy(s + [Asked(StopAsked, stop)]) == Busy(s)
    ensures Refused(s + [Asked(StopAsked, stop)], patience) <==> Refused(s, patience) || stop
  {
    var t := s + [Asked(StopAsked, stop)];
    assert t[..|s|] == s && Asked(StopAsked, stop) in t;
    assert Fatal(Asked(StopAsked, stop)) == stop;
    assert AnyFatal(t) <==> AnyFatal(s) || stop by {
      if a :| a in s && Fatal(a) { assert a in t; }
    }
  }

  lemma FatalConcat(a: seq<Asked>, b: seq<Asked>)
    ensures AnyFatal(a + b) <==> AnyFatal(a) || AnyFatal(b)
  {
    hide Fatal;
    if x :| x in a && Fatal(x) { assert x in a + b; }
    if x :| x in b && Fatal(x) { assert x in a + b; }
  }

  lemma SettledStart()
    ensures Settled([], true)
  {
  }

  lemma SettledMore(s: seq<Asked>, a: Asked)
    requires Settled(s, true) && a.question != Claimed
    ensures Settled(s + [a], !Fatal(a))
  {
    hide Fatal;
    assert (s + [a])[..|s|] == s;
    assert a in s + [a];
  }

  lemma SettledConcat(s: seq<Asked>, t: seq<Asked>, ok: bool)
    requires Settled(s, true) && Settled(t, ok)
    ensures Settled(s + t, ok)
  {
    FatalConcat(s, t);
    BusyConcat(s, t);
  }

  lemma SettledRefused(s: seq<Asked>, patience: nat)
    requires Settled(s, false)
    ensures Refused(s, patience)
  {
  }

  lemma NoneFatal(s: seq<Asked>, t: seq<Asked>, patience: nat)
    requires Settled(s, true)
    ensures Refused(s + t, patience) <==> Refused(t, patience)
  {
    FatalConcat(s, t);
    BusyConcat(s, t);
  }

  lemma MoreAnswers(s: seq<Asked>, t: seq<Asked>, ok: bool, patience: nat)
    requires !Refused(s, patience) && Settled(t, ok)
    ensures Refused(s + t, patience) <==> !ok
  {
    FatalConcat(s, t);
    BusyConcat(s, t);
  }

  lemma MacNoted(s: seq<Asked>, ok: bool, patience: nat)
    requires !Refused(s, patience)
    ensures Refused(s + [Asked(MacTaken, ok)], patience) <==> !ok
  {
    SettledStart();
    SettledMore([], Asked(MacTaken, ok));
    assert [] + [Asked(MacTaken, ok)] == [Asked(MacTaken, ok)];
    MoreAnswers(s, [Asked(MacTaken, ok)], ok, patience);
  }

  lemma RefusedStays(s: seq<Asked>, t: seq<Asked>, patience: nat)
    requires Refused(s, patience)
    ensures Refused(s + t, patience)
  {
    FatalConcat(s, t);
    BusyConcat(s, t);
  }

  // ---- how a teardown ends ----

  lemma RequestsAre(n: nat, ok: bool)
    requires n > 0
    ensures |OffRequests(n, ok)| == n
    ensures forall m <- OffRequests(n, ok) :: !m.Look?
  {
  }

  lemma SilenceDecides(s: seq<Mark>, n: nat, ok: bool)
    requires Tried(s, n, ok)
    ensures ok ==> CleanStop(s + [Detach])
    ensures !ok ==> VainStop(s + [Quiesce, Detach], n) && !CleanStop(s + [Quiesce, Detach])
  {
    if ok {
      var t := s + [Detach];
      assert s[n - 1] == s[..n][n - 1] == Config(Off, true);
      assert t[n - 1] == Config(Off, true) && IsQuiet(t[|s| - 1]);
    } else {
      var t := s + [Quiesce, Detach];
      if |s| > n {
        assert t[..n] == s[..n] && t[n + SETTLE_TRIES..] == [Quiesce, Detach];
        forall k | 0 <= k < |t| ensures !IsQuiet(t[k]) {
          if k < n { assert t[k] == s[..n][k]; } else if k < |s| { assert t[k] == s[k]; }
        }
      }
    }
  }
}
