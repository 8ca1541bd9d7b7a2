/** The band stream's API in place, each function with everybody else's steps wherever it
    does not mask interrupts. */
module BandStream {
  import opened Bytes
  import opened CamBand

  datatype Status = Ok | ErrArg | ErrLock | ErrStart | ErrBusy | ErrStop

  /** A callback the producer made, and for whom. */
  datatype Call = Call(client: nat, cb: Callback)

  /** A call to the camera by whoever holds the API lock, and its answer. */
  datatype Talk = Running(yes: bool) | Start(ok: bool) | Stop(ok: bool)

  /** The history goes on, and ends with `last`. */
  predicate Grew(was: seq<Talk>, now: seq<Talk>, last: seq<Talk>) {
    |was| + |last| <= |now| && was <= now && now[|now| - |last|..] == last
  }

  lemma RunSnoc(b: Bands, es: seq<Event>, e: Event)
    ensures Run(b, es + [e]) == Step(Run(b, es), e)
  {
    assert (es + [e])[..|es|] == es;
  }

  lemma {:induction false} RunConcat(b: Bands, es: seq<Event>, fs: seq<Event>)
    ensures Run(b, es + fs) == Run(Run(b, es), fs)
    decreases |fs|
  {
    if fs == [] {
      assert es + fs == es;
    } else {
      RunConcat(b, es, fs[..|fs| - 1]);
      assert (es + fs)[..|es + fs| - 1] == es + fs[..|fs| - 1];
    }
  }

  // ---- one pass among everybody's steps ----

  predicate ByPass(e: Event, p: nat) {
    (e.Enter? || e.Leave?) && e.pass == p
  }

  /** The steps of pass p, in order. */
  function StepsOf(es: seq<Event>, p: nat): seq<Event> {
    if es == [] then []
    else StepsOf(es[..|es| - 1], p) + if ByPass(es[|es| - 1], p) then [es[|es| - 1]] else []
  }

  lemma {:induction false} StepsOfConcat(es: seq<Event>, fs: seq<Event>, p: nat)
    ensures StepsOf(es + fs, p) == StepsOf(es, p) + StepsOf(fs, p)
    decreases |fs|
  {
    if fs == [] {
      assert es + fs == es;
    } else {
      StepsOfConcat(es, fs[..|fs| - 1], p);
      assert (es + fs)[..|es + fs| - 1] == es + fs[..|fs| - 1];
    }
  }

  lemma {:induction false} NotOf(es: seq<Event>, p: nat)
    requires forall e <- es :: !ByPass(e, p)
    ensures StepsOf(es, p) == []
    decreases |es|
  {
    if es != [] {
      assert forall e <- es[..|es| - 1] :: e in es;
      NotOf(es[..|es| - 1], p);
    }
  }

  /** A whole fan-out: try each client in its fixed order, and leave each before the next.
      Trying a client that is not claimed, and leaving when outside, change nothing. */
  function Tour(p: nat, c: nat): seq<Event> {
    if c == 0 then [] else Tour(p, c - 1) + [Enter(p, c - 1), Leave(p)]
  }

  lemma LeaveOutside(b: Bands, p: nat)
    requires p < |b.at| && b.at[p].Outside?
    ensures Step(b, Leave(p)) == b
  {
  }

  /** Does this step take pass p into a callback? */
  predicate GetsIn(b: Bands, e: Event, p: nat) {
    && e.Enter? && e.pass == p < |b.at| && b.at[p].Outside?
    && e.client < |b.claimed| && e.client < |b.callback| && e.client < |b.active|
    && b.claimed[e.client]
  }

  /** The callbacks pass p owes over a run: one for each client that was claimed when the
      pass tried it, the one published at that moment. */
  function CallsOwed(b: Bands, es: seq<Event>, p: nat): seq<Call> {
    if es == [] then []
    else
      var n := |es| - 1;
      var at := Run(b, es[..n]);
      CallsOwed(b, es[..n], p)
      + if GetsIn(at, es[n], p) then [Call(es[n].client, at.callback[es[n].client])] else []
  }

  lemma {:induction false} CallsOwedConcat(b: Bands, es: seq<Event>, fs: seq<Event>, p: nat)
    ensures CallsOwed(b, es + fs, p) == CallsOwed(b, es, p) + CallsOwed(Run(b, es), fs, p)
    decreases |fs|
  {
    hide Step, GetsIn;
    if fs == [] {
      assert es + fs == es;
    } else {
      var n := |fs| - 1;
      CallsOwedConcat(b, es, fs[..n], p);
      RunConcat(b, es, fs[..n]);
      assert (es + fs)[..|es + fs| - 1] == es + fs[..n];
    }
  }

  lemma {:induction false} NoneOwed(b: Bands, es: seq<Event>, p: nat)
    requires forall e <- es :: !ByPass(e, p)
    ensures CallsOwed(b, es, p) == []
    decreases |es|
  {
    if es != [] {
      assert es[|es| - 1] in es && forall e <- es[..|es| - 1] :: e in es;
      NoneOwed(b, es[..|es| - 1], p);
    }
  }

  /** One turn of the tour: what the others did, the try, what they did then, the leaving. */
  function Turn(others: seq<Event>, p: nat, c: nat, more: seq<Event>): seq<Event> {
    others + [Enter(p, c)] + more + [Leave(p)]
  }

  lemma TurnSteps(others: seq<Event>, p: nat, c: nat, more: seq<Event>)
    requires forall e <- others + more :: !ByPass(e, p)
    ensures StepsOf(Turn(others, p, c, more), p) == [Enter(p, c), Leave(p)]
  {
    NotOf(others, p);
    NotOf(more, p);
    StepsOfConcat(others, [Enter(p, c)], p);
    StepsOfConcat(others + [Enter(p, c)], more, p);
    StepsOfConcat(others + [Enter(p, c)] + more, [Leave(p)], p);
    assert [Enter(p, c)][..0] == [] && [Leave(p)][..0] == [];
    assert StepsOf([Enter(p, c)], p) == [Enter(p, c)] && StepsOf([Leave(p)], p) == [Leave(p)];
  }

  /** Where a turn leads, and the callback it owes. */
  lemma TurnRuns(b: Bands, others: seq<Event>, p: nat, c: nat, more: seq<Event>)
    requires forall e <- others + more :: !ByPass(e, p)
    ensures var at := Run(b, others);
      && Run(b, Turn(others, p, c, more)) == Step(Run(Step(at, Enter(p, c)), more), Leave(p))
      && CallsOwed(b, Turn(others, p, c, more), p) ==
         if GetsIn(at, Enter(p, c), p) then [Call(c, at.callback[c])] else []
  {
    hide Step;
    var tried := others + [Enter(p, c)];
    RunSnoc(b, others, Enter(p, c));
    RunConcat(b, tried, more);
    RunSnoc(b, tried + more, Leave(p));
    NoneOwed(b, others, p);
    NoneOwed(Run(b, tried), more, p);
    CallsOwedConcat(b, tried, more, p);
    assert tried[..|tried| - 1] == others;
    assert (tried + more + [Leave(p)])[..|tried + more|] == tried + more;
  }

  lemma ActiveIsPasses(b: Bands, c: nat)
    requires Inv(b) && c < CLIENTS
    ensures b.active[c] == Passes(b.at, c)
    ensures b.active[c] == 0 && !b.claimed[c] ==> Drained(b, c)
  {
    assert Counts(b, c);
    NobodyIffZero(b.at, c);
  }

  /** What looking and sleeping until it is free comes to: every look but the last found it
      taken, the last only if that made `ticks` of them. */
  ghost predicate Waited(before: seq<bool>, after: seq<bool>, free: bool, ticks: nat) {
    && |before| < |after| <= |before| + ticks && before == after[..|before|]
    && (forall k :: |before| <= k < |after| - 1 ==> after[k])
    && after[|after| - 1] == !free
    && (!free ==> |after| == |before| + ticks)
  }

  class Stream {
    const claimed: array<bool>
    const callback: array<Callback>
    const active: array<nat>
    const at: array<Spot>          // where each producer pass is
    var apiBusy: bool
    var lost: bool
    var arming: bool
    var camera: seq<Talk>          // what the camera was asked, and said
    ghost var looks: seq<bool>     // each look a caller took, and whether it had to wait

    ghost function View(): Bands
      reads this, claimed, callback, active, at
    {
      Bands(claimed[..], callback[..], active[..], at[..])
    }

    ghost predicate Valid()
      reads this, claimed, callback, active, at
    {
      callback != active && Inv(View())
    }

    constructor (passes: nat)
      requires passes < 0x100
      ensures Valid() && at.Length == passes && !apiBusy && camera == []
      ensures forall c :: 0 <= c < CLIENTS ==> Drained(View(), c)
    {
      claimed := new bool[CLIENTS](_ => false);
      callback := new Callback[CLIENTS](_ => 0);
      active := new nat[CLIENTS](_ => 0);
      at := new Spot[passes](_ => Outside);
      apiBusy, lost, arming, camera, looks := false, false, false, [], [];
      new;
      forall c | 0 <= c < CLIENTS ensures Counts(View(), c) { NobodyIffZero(at[..], c); }
    }

    // ---- the masked sections ----

    /** The claim test and the increment are one step. */
    method Enter(p: nat, c: nat) returns (ok: bool)
      requires Valid() && p < at.Length && c < CLIENTS && at[p].Outside?
      modifies active, at
      ensures Valid() && View() == Step(old(View()), CamBand.Enter(p, c))
      ensures ok <==> old(claimed[c])
      ensures at[p] == if ok then Inside(c, callback[c]) else Outside
    {
      hide Passes, Inv, Counts;
      StepKeepsInv(View(), CamBand.Enter(p, c));
      InvShape(View());
      ok := claimed[c];
      if ok {
        active[c] := (active[c] + 1) % 0x100;
        at[p] := Inside(c, callback[c]);
      }
    }

    method Leave(p: nat)
      requires Valid() && p < at.Length && at[p].Inside?
      modifies active, at
      ensures Valid() && View() == Step(old(View()), CamBand.Leave(p))
      ensures at[p].Outside?
    {
      hide Passes, Inv, Counts;
      StepKeepsInv(View(), CamBand.Leave(p));
      InvShape(View());
      var c := at[p].client;
      var n: int := active[c];
      active[c] := (n + -1) % 0x100;
      at[p] := Outside;
    }

    method SetClaim(c: nat, cb: Callback)
      requires Valid() && c < CLIENTS
      modifies claimed, callback
      ensures Valid() && View() == Step(old(View()), Publish(c, cb))
      ensures claimed[c] && callback[c] == cb
    {
      hide Passes, Inv, Counts;
      StepKeepsInv(View(), Publish(c, cb));
      InvShape(View());
      callback[c] := cb;
      claimed[c] := true;
    }

    method ClearClaim(c: nat)
      requires Valid() && c < CLIENTS
      modifies claimed
      ensures Valid() && View() == Step(old(View()), Withdraw(c)) && !claimed[c]
    {
      hide Passes, Inv, Counts;
      StepKeepsInv(View(), Withdraw(c));
      InvShape(View());
      claimed[c] := false;
    }

    // ---- everybody else ----

    /** One section of somebody else: never pass `mine`, and no claim or release, and no word
        to the camera, while the API lock is ours.  The latch is anybody's. */
    method OneOther(locked: bool, mine: nat) returns (ghost e: Option<Event>)
      requires Valid() && (locked ==> apiBusy)
      modifies `apiBusy, `lost, `arming, `camera, claimed, callback, active, at
      ensures Valid() && (locked ==> apiBusy && camera == old(camera)) && old(camera) <= camera
      ensures View() == if e == None then old(View()) else Step(old(View()), e.value)
      ensures e.Some? ==> (locked ==> e.value.Enter? || e.value.Leave?) && !ByPass(e.value, mine)
      ensures mine < at.Length ==> at[mine] == old(at[mine])
    {
      hide Inv, Step;
      e := None;
      var pick: int, p: nat, c: nat, cb: Callback, yes: bool := *, *, *, *, *;
      InvShape(View());
      if pick == 0 {
        if p < at.Length && p != mine && at[p].Outside? && c < CLIENTS {
          OtherPass(View(), mine, CamBand.Enter(p, c));
          e := Some(CamBand.Enter(p, c));
          var _ := Enter(p, c);
        }
      } else if pick == 1 {
        if p < at.Length && p != mine && at[p].Inside? {
          OtherPass(View(), mine, CamBand.Leave(p));
          e := Some(CamBand.Leave(p));
          Leave(p);
        }
      } else if pick == 2 {
        lost := true;            // somebody found the stream down; see StreamLatch
      } else if !locked {
        OneOtherCaller(pick, c, cb, yes);
        e := CallerEvent(pick, c, cb);
      }
    }

    ghost function CallerEvent(pick: int, c: nat, cb: Callback): Option<Event> {
      if c >= CLIENTS then None
      else if pick == 3 then Some(Publish(c, cb))
      else if pick == 4 then Some(Withdraw(c))
      else None
    }

    /** Some other thread in claim or release. */
    method OneOtherCaller(pick: int, c: nat, cb: Callback, yes: bool)
      requires Valid()
      modifies `apiBusy, `lost, `arming, `camera, claimed, callback
      ensures Valid() && at[..] == old(at[..]) && old(camera) <= camera
      ensures View() == match CallerEvent(pick, c, cb)
                        case None => old(View())
                        case Some(e) => Step(old(View()), e)
    {
      hide Inv, Step;
      if c < CLIENTS && pick == 3 {
        SetClaim(c, cb);
      } else if c < CLIENTS && pick == 4 {
        ClearClaim(c);
      } else {
        var more: seq<Talk> := *;
        apiBusy, lost, arming, camera := yes, yes, yes, camera + more;
      }
    }

    method Others(locked: bool, mine: nat) returns (ghost es: seq<Event>)
      requires Valid() && (locked ==> apiBusy)
      modifies `apiBusy, `lost, `arming, `camera, claimed, callback, active, at
      ensures Valid() && (locked ==> apiBusy && camera == old(camera)) && old(camera) <= camera
      ensures View() == Run(old(View()), es)
      ensures forall e <- es :: (locked ==> e.Enter? || e.Leave?) && !ByPass(e, mine)
      ensures mine < at.Length ==> at[mine] == old(at[mine])
    {
      hide Inv, Step, ByPass;
      es := [];
      var n: nat :| 0 <= n;
      for i := 0 to n
        invariant Valid() && (locked ==> apiBusy && camera == old(camera)) && old(camera) <= camera
        invariant View() == Run(old(View()), es)
        invariant forall e <- es :: (locked ==> e.Enter? || e.Leave?) && !ByPass(e, mine)
        invariant mine < at.Length ==> at[mine] == old(at[mine])
      {
        ghost var e := OneOther(locked, mine);
        if e.Some? {
          RunSnoc(old(View()), es, e.value);
          es := es + [e.value];
        }
      }
    }

    // ---- the producer ----

    /** One client's turn: try it, call back if it let us in, leave. */
    method OneClient(p: nat, c: nat) returns (call: Option<Call>, ghost es: seq<Event>)
      requires Valid() && p < at.Length && c < CLIENTS && at[p].Outside?
      modifies `apiBusy, `lost, `arming, `camera, claimed, callback, active, at
      ensures Valid() && at[p].Outside? && View() == Run(old(View()), es)
      ensures StepsOf(es, p) == [CamBand.Enter(p, c), CamBand.Leave(p)]
      ensures CallsOwed(old(View()), es, p) == if call.Some? then [call.value] else []
      ensures call.Some? ==> call.value.client == c
    {
      hide Inv, Step, StepsOf, CallsOwed, Turn, Run;
      ghost var start := View();
      ghost var others := Others(false, p);
      ghost var more: seq<Event> := [];
      ghost var tried := View();
      GetsInIff(tried, p, c);
      InvShape(tried);
      call := None;
      var entered := Enter(p, c);
      ghost var inside := View();
      RunNone(inside);
      if entered {
        call := Some(Call(c, at[p].cb));
        assert call.value.cb == tried.callback[c];
        more := Others(false, p);
        Leave(p);
      } else {
        LeaveOutside(View(), p);
      }
      es := Turn(others, p, c, more);
      TurnSteps(others, p, c, more);
      TurnRuns(start, others, p, c, more);
    }

    /** One band to every claimed client.  Among everybody else's steps the pass takes its
        tour of the clients, each in turn, and is outside again at the end.  The callbacks
        made are exactly those owed: of each client claimed when it was tried, the one
        published then. */
    method Fanout(p: nat) returns (calls: seq<Call>, ghost es: seq<Event>)
      requires Valid() && p < at.Length && at[p].Outside?
      modifies `apiBusy, `lost, `arming, `camera, claimed, callback, active, at
      ensures Valid() && at[p].Outside? && View() == Run(old(View()), es)
      ensures StepsOf(es, p) == if old(lost) then [] else Tour(p, CLIENTS)
      ensures calls == CallsOwed(old(View()), es, p)
      ensures forall j, k :: 0 <= j < k < |calls| ==> calls[j].client < calls[k].client
    {
      hide Inv, Step, Run, StepsOf, CallsOwed;
      calls, es := [], [];
      Untouched(View(), p);
      if lost { return; }
      ghost var start := View();
      for c := 0 to CLIENTS
        invariant Valid() && at[p].Outside? && View() == Run(start, es)
        invariant StepsOf(es, p) == Tour(p, c) && calls == CallsOwed(start, es, p)
        invariant forall k :: 0 <= k < |calls| ==> calls[k].client < c
        invariant forall j, k :: 0 <= j < k < |calls| ==> calls[j].client < calls[k].client
      {
        var call;
        ghost var turn;
        call, turn := OneClient(p, c);
        RunConcat(start, es, turn);
        StepsOfConcat(es, turn, p);
        CallsOwedConcat(start, es, turn, p);
        es := es + turn;
        calls := calls + if call.Some? then [call.value] else [];
      }
    }

    // ---- claim and release ----

    /** The masked look: the lock is taken if it is free. */
    method TryLock() returns (got: bool)
      modifies `apiBusy, `looks
      ensures apiBusy && got == !old(apiBusy) && looks == old(looks) + [old(apiBusy)]
    {
      looks := looks + [apiBusy];
      got := !apiBusy;
      if got { apiBusy := true; }
    }

    method ApiLock() returns (got: bool)
      requires Valid()
      modifies this, claimed, callback, active, at
      ensures Valid() && (got ==> apiBusy) && old(camera) <= camera
      ensures Waited(old(looks), looks, got, LOCK_TICKS)
    {
      hide Inv, Step;
      for tries := 0 to LOCK_TICKS
        invariant Valid() && old(camera) <= camera
        invariant |looks| == |old(looks)| + tries && old(looks) == looks[..|old(looks)|]
        invariant forall k :: |old(looks)| <= k < |looks| ==> looks[k]
      {
        got := TryLock();
        if got { return; }
        ghost var _ := Others(false, at.Length);
      }
      got := false;
    }

    method AskCamera() returns (yes: bool)
      modifies `camera
      ensures camera == old(camera) + [Running(yes)]
    {
      yes := *;
      camera := camera + [Running(yes)];
    }

    /** Claim, starting the stream if the camera says that it is not running.  The latch is
        cleared on the way, and is nobody's to rely on afterwards: see StreamLatch. */
    method Claim(c: nat, cb: Option<Callback>) returns (s: Status, ghost asked: seq<Talk>)
      requires Valid()
      modifies this, claimed, callback, active, at
      ensures if s == ErrArg then looks == old(looks) else Waited(old(looks), looks, s != ErrLock, LOCK_TICKS)
      ensures Valid() && (s == ErrArg <==> c >= CLIENTS || cb == None)
      ensures Grew(old(camera), camera, asked)
      ensures s == Ok <==> asked in {[Running(true)], [Running(false), Start(true)]}
      ensures s == Ok ==> claimed[c] && callback[c] == cb.value
      ensures s == ErrStart <==> asked == [Running(false), Start(false)]
      ensures s == ErrStart ==> !claimed[c]
      ensures s in {Ok, ErrStart} ==> !apiBusy
      ensures s in {ErrArg, ErrLock} ==> asked == []
      ensures s == ErrArg ==> View() == old(View())
    {
      hide Inv, Step;
      asked := [];
      if c >= CLIENTS || cb == None { return ErrArg, asked; }
      var got := ApiLock();
      if !got { return ErrLock, asked; }
      var ok;
      ok, asked := ClaimLocked(c, cb.value);
      s := if ok then Ok else ErrStart;
    }

    method ClaimLocked(c: nat, cb: Callback) returns (ok: bool, ghost asked: seq<Talk>)
      requires Valid() && apiBusy && c < CLIENTS
      modifies `apiBusy, `lost, `arming, `camera, claimed, callback, active, at
      ensures Valid() && !apiBusy && camera == old(camera) + asked
      ensures if ok then asked in {[Running(true)], [Running(false), Start(true)]}
              else asked == [Running(false), Start(false)]
      ensures if ok then claimed[c] && callback[c] == cb else !claimed[c]
    {
      hide Inv, Step;
      lost := false;
      ghost var es := Others(true, at.Length);
      var running := AskCamera();
      es := Others(true, at.Length);
      if !running { arming := true; }
      InvShape(View());
      SetClaim(c, cb);
      ghost var b := View();
      es := Others(true, at.Length);
      ClaimsKept(b, es);
      if running { apiBusy := false; return true, [Running(true)]; }
      ok := *;
      camera, asked, arming := camera + [Start(ok)], [Running(false), Start(ok)], false;
      assert camera == old(camera) + asked;
      if !ok { ClearClaim(c); }
      apiBusy := false;
    }

    method AnyClaimed() returns (any: bool)
      requires Valid()
      ensures any <==> true in claimed[..]
    {
      for c := 0 to CLIENTS
        invariant forall k :: 0 <= k < c ==> !claimed[k]
      {
        if claimed[c] { return true; }
      }
      any := false;
    }

    /** Release.  Told that it is safe, the caller may rely on it: nobody is inside, and
        nobody can get in before the next claim.  Told otherwise, the lock, or after it the
        callback in flight, was seen busy for as long as patience lasts. */
    method Release(c: nat) returns (s: Status, ghost asked: seq<Talk>, ghost mid: seq<bool>)
      requires Valid()
      modifies this, claimed, callback, active, at
      ensures s == ErrArg ==> looks == old(looks)
      ensures s != ErrArg ==> Waited(old(looks), mid, s != ErrLock, LOCK_TICKS)
      ensures s == ErrLock ==> looks == mid
      ensures s !in {ErrArg, ErrLock} ==> Waited(mid, looks, s != ErrBusy, 1 + DRAIN_TICKS)
      ensures Valid() && (s == ErrArg <==> c >= CLIENTS) && s != ErrStart
      ensures Grew(old(camera), camera, asked)
      ensures s in {Ok, ErrStop} ==> Drained(View(), c)
      ensures s == ErrBusy ==> !claimed[c] && Passes(View().at, c) > 0
      ensures s in {Ok, ErrStop, ErrBusy} ==> !apiBusy
      ensures asked != [] <==> s in {Ok, ErrStop} && true !in claimed[..]
      ensures asked in {[], [Running(false)], [Running(true), Stop(true)], [Running(true), Stop(false)]}
      ensures s == ErrStop <==> asked == [Running(true), Stop(false)]
    {
      hide Inv, Step, Passes, Drained, Waited;
      asked, mid := [], looks;
      if c >= CLIENTS { return ErrArg, asked, mid; }
      var got := ApiLock();
      mid := looks;
      if !got { return ErrLock, asked, mid; }
      ClearClaim(c);
      var left := Drain(c);
      if left { apiBusy := false; return ErrBusy, asked, mid; }
      var any := AnyClaimed();
      if any { apiBusy := false; return Ok, asked, mid; }
      s, asked := StopStream(c);
    }

    /** Wait for the callbacks in flight, as long as patience lasts. */
    method Drain(c: nat) returns (left: bool)
      requires Valid() && apiBusy && c < CLIENTS && !claimed[c]
      modifies this, claimed, callback, active, at
      ensures Waited(old(looks), looks, !left, 1 + DRAIN_TICKS)
      ensures Valid() && apiBusy && !claimed[c] && camera == old(camera)
      ensures if left then Passes(View().at, c) > 0 else Drained(View(), c)
    {
      hide Inv, Step, Passes, Drained;
      var tries := DRAIN_TICKS;
      InvShape(View());
      while active[c] != 0 && tries > 0
        invariant Valid() && apiBusy && !claimed[c] && active.Length == CLIENTS
        invariant camera == old(camera)
        invariant 0 <= tries <= DRAIN_TICKS && |looks| == |old(looks)| + (DRAIN_TICKS - tries)
        invariant old(looks) == looks[..|old(looks)|]
        invariant forall k :: |old(looks)| <= k < |looks| ==> looks[k]
        decreases tries
      {
        looks := looks + [active[c] != 0];
        ghost var b := View();
        ghost var es := Others(true, at.Length);
        NobodyEntersUnclaimed(b, es, c);
        InvShape(View());
        tries := tries - 1;
      }
      ActiveIsPasses(View(), c);
      left := active[c] != 0;
      looks := looks + [left];
      if !left {
        ghost var b := View();
        ghost var es := Others(true, at.Length);
        StaysDrained(b, es, c);
        NobodyEntersUnclaimed(b, es, c);
      }
    }

    /** The last one out clears the latch, and asks the camera to stop if it says that it is
        running. */
    method StopStream(c: nat) returns (s: Status, ghost asked: seq<Talk>)
      requires Valid() && apiBusy && Drained(View(), c)
      modifies `apiBusy, `lost, `arming, `camera, claimed, callback, active, at
      ensures Valid() && Drained(View(), c) && claimed[..] == old(claimed[..])
      ensures camera == old(camera) + asked && !apiBusy
      ensures asked in {[Running(false)], [Running(true), Stop(true)], [Running(true), Stop(false)]}
      ensures s == if asked == [Running(true), Stop(false)] then ErrStop else Ok
    {
      hide Inv, Step, Drained;
      lost := false;
      ghost var b := View();
      ghost var es := Others(true, at.Length);
      StaysDrained(b, es, c);
      ClaimsKept(b, es);
      var running := AskCamera();
      if !running { apiBusy := false; return Ok, [Running(false)]; }
      var stopped: bool := *;
      camera, asked := camera + [Stop(stopped)], [Running(true), Stop(stopped)];
      assert camera == old(camera) + asked;
      apiBusy := false;
      s := if stopped then Ok else ErrStop;
    }
  }

  lemma GetsInIff(b: Bands, p: nat, c: nat)
    requires Inv(b) && p < |b.at| && b.at[p].Outside? && c < CLIENTS
    ensures GetsIn(b, Enter(p, c), p) <==> b.claimed[c]
  {
  }

  lemma RunNone(b: Bands)
    ensures Run(b, []) == b
  {
  }

  lemma Untouched(b: Bands, p: nat)
    ensures Run(b, []) == b && StepsOf([], p) == [] && CallsOwed(b, [], p) == []
  {
  }

  lemma InvShape(b: Bands)
    requires Inv(b)
    ensures |b.claimed| == |b.callback| == |b.active| == CLIENTS
    ensures forall p :: 0 <= p < |b.at| && b.at[p].Inside? ==> b.at[p].client < CLIENTS
  {
  }

  lemma OtherPass(b: Bands, mine: nat, e: Event)
    requires (e.Enter? || e.Leave?) && e.pass != mine
    ensures mine < |b.at| ==> Step(b, e).at[mine] == b.at[mine]
  {
  }

  /** Producer steps touch no claim. */
  lemma {:induction false} ClaimsKept(b: Bands, es: seq<Event>)
    requires forall e <- es :: e.Enter? || e.Leave?
    ensures Run(b, es).claimed == b.claimed && Run(b, es).callback == b.callback
    decreases |es|
  {
    if es != [] {
      assert forall e <- es[..|es| - 1] :: e in es;
      ClaimsKept(b, es[..|es| - 1]);
    }
  }
}
