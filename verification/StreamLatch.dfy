/** The "stream lost" latch, read and written without a lock while a claim re-arms it: each
    load and store of the test is a step of its own. */
module StreamLatch {
  /** How far a thread inside cam_band_stream_lost has got. */
  datatype Spot =
    | Away
    | SawFresh            // the latch was clear
    | Scanning(i: nat)    // and nobody was arming; looking for a claim
    | SawClaim
    | Doomed              // and no stream: about to set the latch

  datatype Latch = Latch(lost: bool, arming: bool, claimed: seq<bool>, streaming: bool,
                         readers: seq<Spot>)

  datatype Event =
    | Look(r: nat)        // reader r's next load or store
    | Clear | Arm | Publish(c: nat) | Started | Disarm   // the claim's
    | Dies                // the camera tears the stream down

  function LookStep(w: Latch, s: Spot): Spot {
    match s
    case Away => if w.lost then Away else SawFresh
    case SawFresh => if w.arming then Away else Scanning(0)
    case Scanning(i) =>
      if i >= |w.claimed| then Away else if w.claimed[i] then SawClaim else Scanning(i + 1)
    case SawClaim => if w.streaming then Away else Doomed
    case Doomed => Away
  }

  function Step(w: Latch, e: Event): Latch {
    match e
    case Look(r) =>
      if r >= |w.readers| then w
      else w.(lost := w.lost || w.readers[r] == Doomed,
              readers := w.readers[r := LookStep(w, w.readers[r])])
    case Clear => w.(lost := false)
    case Arm => w.(arming := true)
    case Publish(c) => if c >= |w.claimed| then w else w.(claimed := w.claimed[c := true])
    case Started => w.(streaming := true)
    case Disarm => w.(arming := false)
    case Dies => w.(streaming := false)
  }

  function Run(w: Latch, es: seq<Event>): Latch
    decreases |es|
  {
    if es == [] then w else Run(Step(w, es[0]), es[1..])
  }

  lemma RunCons(w: Latch, e: Event, es: seq<Event>)
    ensures Run(w, [e] + es) == Run(Step(w, e), es)
  {
    assert ([e] + es)[1..] == es;
  }

  // ---- while a claim of client c starts the stream ----

  /** What may happen between the arming and the disarming. */
  predicate Arming(e: Event, c: nat) {
    e.Look? || e == Publish(c) || e == Started
  }

  /** Past the test of the arming flag, and bound to find a claim. */
  predicate Past(w: Latch, s: Spot, c: nat) {
    match s
    case Doomed => true
    case SawClaim => true
    case Scanning(i) => i <= c < |w.claimed| || ClaimFrom(w, i)
    case _ => false
  }

  predicate ClaimFrom(w: Latch, i: nat) {
    exists k :: i <= k < |w.claimed| && w.claimed[k]
  }

  predicate AnyPast(w: Latch, c: nat) {
    exists r :: 0 <= r < |w.readers| && Past(w, w.readers[r], c)
  }

  lemma StepStaysClear(w: Latch, e: Event, c: nat)
    requires w.arming && !w.lost && !AnyPast(w, c) && Arming(e, c)
    ensures var v := Step(w, e); v.arming && !v.lost && !AnyPast(v, c)
  {
    var v := Step(w, e);
    forall r | 0 <= r < |v.readers| ensures !Past(v, v.readers[r], c) {
      assert !Past(w, w.readers[r], c);
    }
  }

  predicate AllArming(es: seq<Event>, c: nat) {
    forall e <- es :: Arming(e, c)
  }

  lemma {:induction false} StaysClear(w: Latch, es: seq<Event>, c: nat)
    requires w.arming && !w.lost && !AnyPast(w, c) && AllArming(es, c)
    ensures !Run(w, es).lost
    decreases |es|
  {
    if es != [] {
      StepStaysClear(w, es[0], c);
      StaysClear(Step(w, es[0]), es[1..], c);
    }
  }

  function Rank(w: Latch, s: Spot): nat {
    match s
    case Doomed => 1
    case SawClaim => 2
    case Scanning(i) => if i < |w.claimed| then 2 + |w.claimed| - i else 2
    case _ => 0
  }

  predicate Found(w: Latch, s: Spot) {
    s == Doomed || s == SawClaim || (s.Scanning? && ClaimFrom(w, s.i))
  }

  /** Left to go on alone, such a reader sets the latch. */
  lemma {:induction false} GoesOn(w: Latch, r: nat, c: nat) returns (es: seq<Event>)
    requires r < |w.readers| && !w.streaming
    requires Found(w, w.readers[r])
    ensures AllArming(es, c) && Run(w, es).lost
    decreases Rank(w, w.readers[r])
  {
    var v := Step(w, Look(r));
    var rest := [];
    if w.readers[r] != Doomed { rest := GoesOn(v, r, c); }
    es := [Look(r)] + rest;
    RunCons(w, Look(r), rest);
  }

  ghost predicate CanBeLost(w: Latch, c: nat) {
    exists es :: AllArming(es, c) && Run(w, es).lost
  }

  /** The arming flag keeps a claim from being taken for a dead stream if and only if no
      reader had passed its test when the flag went up. */
  lemma FalseAlarmIff(w: Latch, c: nat)
    requires w.arming && !w.lost && !w.streaming
    ensures CanBeLost(w, c) <==> AnyPast(w, c)
  {
    if AnyPast(w, c) {
      var r: nat :| r < |w.readers| && Past(w, w.readers[r], c);
      if w.readers[r].Scanning? && !ClaimFrom(w, w.readers[r].i) {
        var v := Step(w, Publish(c));
        assert v.claimed[c];
        var es := GoesOn(v, r, c);
        RunCons(w, Publish(c), es);
        assert AllArming([Publish(c)] + es, c);
      } else {
        var es := GoesOn(w, r, c);
      }
    } else {
      forall es | AllArming(es, c) ensures !Run(w, es).lost { StaysClear(w, es, c); }
    }
  }

  // ---- while the stream runs ----

  predicate Runs(es: seq<Event>) {
    forall e <- es :: e != Dies
  }

  predicate AnyDoomed(w: Latch) {
    exists r :: 0 <= r < |w.readers| && w.readers[r] == Doomed
  }

  lemma {:induction false} KeepsRunning(w: Latch, es: seq<Event>)
    requires w.streaming && !w.lost && !AnyDoomed(w) && Runs(es)
    ensures !Run(w, es).lost
    decreases |es|
  {
    if es != [] {
      assert es[0] in es && forall e <- es[1..] :: e in es;
      var v := Step(w, es[0]);
      forall r | 0 <= r < |v.readers| ensures v.readers[r] != Doomed {
        assert w.readers[r] != Doomed;
      }
      KeepsRunning(v, es[1..]);
    }
  }

  ghost predicate CanBeLostRunning(w: Latch) {
    exists es :: Runs(es) && Run(w, es).lost
  }

  /** A clear latch over a running stream is set, the stream not dying, if and only if a
      reader had already seen it down and was on its way to say so. */
  lemma LateAlarmIff(w: Latch)
    requires w.streaming && !w.lost
    ensures CanBeLostRunning(w) <==> AnyDoomed(w)
  {
    if AnyDoomed(w) {
      var r: nat :| r < |w.readers| && w.readers[r] == Doomed;
      RunCons(w, Look(r), []);
      assert Runs([Look(r)] + []);
    } else {
      forall es | Runs(es) ensures !Run(w, es).lost { KeepsRunning(w, es); }
    }
  }

  lemma OneLook(w: Latch, s: Spot, es: seq<Event>)
    requires w.readers == [s]
    ensures var v := w.(lost := w.lost || s == Doomed, readers := [LookStep(w, s)]);
      Run(w, [Look(0)] + es) == Run(v, es)
  {
    RunCons(w, Look(0), es);
    assert w.readers[0 := LookStep(w, s)] == [LookStep(w, s)];
  }

  /** One reader and the first claim after boot: the claim succeeds, the stream runs, and
      the latch says that it is lost. */
  lemma FalseAlarm()
    ensures var boot := Latch(false, false, [false, false], false, [Away]);
      var asked, claim := [Look(0), Look(0)], [Clear, Arm, Publish(0)];
      var rest := [Look(0), Look(0), Started, Look(0), Disarm];
      Run(boot, asked + (claim + rest)) == Latch(true, false, [true, false], true, [Away])
  {
    hide Run;
    var boot := Latch(false, false, [false, false], false, [Away]);
    var claim, rest := [Clear, Arm, Publish(0)], [Look(0), Look(0), Started, Look(0), Disarm];
    OneLook(boot, Away, [Look(0)] + (claim + rest));
    OneLook(boot.(readers := [SawFresh]), SawFresh, claim + rest);
    assert [Look(0)] + ([Look(0)] + (claim + rest)) == [Look(0), Look(0)] + (claim + rest);
    ClaimBegins(boot.(readers := [Scanning(0)]), rest);
    AlarmEnds(Latch(false, true, [true, false], false, [Scanning(0)]));
  }

  lemma ClaimBegins(w: Latch, es: seq<Event>)
    requires w.claimed == [false, false]
    ensures Run(w, [Clear, Arm, Publish(0)] + es)
         == Run(w.(lost := false, arming := true, claimed := [true, false]), es)
  {
    var armed := w.(lost := false, arming := true);
    RunCons(w, Clear, [Arm] + ([Publish(0)] + es));
    RunCons(w.(lost := false), Arm, [Publish(0)] + es);
    RunCons(armed, Publish(0), es);
    assert armed.claimed[0 := true] == [true, false];
    assert [Clear] + ([Arm] + ([Publish(0)] + es)) == [Clear, Arm, Publish(0)] + es;
  }

  lemma AlarmEnds(w: Latch)
    requires w == Latch(false, true, [true, false], false, [Scanning(0)])
    ensures Run(w, [Look(0), Look(0), Started, Look(0), Disarm])
         == Latch(true, false, [true, false], true, [Away])
  {
    var running := w.(streaming := true, readers := [Doomed]);
    var lost := running.(lost := true, readers := [Away]);
    OneLook(w, Scanning(0), [Look(0), Started, Look(0), Disarm]);
    OneLook(w.(readers := [SawClaim]), SawClaim, [Started, Look(0), Disarm]);
    RunCons(w.(readers := [Doomed]), Started, [Look(0), Disarm]);
    OneLook(running, Doomed, [Disarm]);
    RunCons(lost, Disarm, []);
    assert [Disarm] + [] == [Disarm] && [Look(0)] + [Disarm] == [Look(0), Disarm];
    assert [Started] + [Look(0), Disarm] == [Started, Look(0), Disarm];
    assert [Look(0)] + [Started, Look(0), Disarm] == [Look(0), Started, Look(0), Disarm];
    assert [Look(0)] + [Look(0), Started, Look(0), Disarm]
        == [Look(0), Look(0), Started, Look(0), Disarm];
  }
}
