/** The DATA buffer pools as places: every slot is free, held by one holder, or queued
    once.  The receive and transmit pools follow the same protocol. */
module Pools {
  datatype Place = Free | Held | Queued

  /** `born[i]` is how many resets there had been when slot i was last claimed. */
  datatype Pool = Pool(place: seq<Place>, queue: seq<nat>, born: seq<nat>, resets: nat)

  datatype Event =
    | Claim(slot: nat)      // whichever slot the free list yields
    | Release(slot: nat)    // a holder gives its slot back
    | Publish(slot: nat)    // a holder's frame is complete
    | Take                  // the oldest queued frame goes to the consumer
    | Pop                   // the oldest queued frame has been written out
    | Reset

  const EPOCHS := 256

  /** All that the 8-bit epoch can tell about a holder. */
  predicate LooksCurrent(p: Pool, i: nat)
    requires i < |p.born|
  {
    p.born[i] % EPOCHS == p.resets % EPOCHS
  }

  predicate At(place: seq<Place>, i: nat, where: Place) {
    i < |place| && place[i] == where
  }

  predicate Is(p: Pool, i: nat, where: Place) {
    At(p.place, i, where)
  }

  function Reclaimed(place: seq<Place>): (r: seq<Place>)
    ensures |r| == |place|
  {
    seq(|place|, i requires 0 <= i < |place| => if place[i] == Queued then Free else place[i])
  }

  function Step(p: Pool, e: Event): (r: Pool)
    requires |p.born| == |p.place|
    ensures |r.place| == |p.place| && |r.born| == |p.born|
  {
    match e
    case Claim(i) =>
      if !Is(p, i, Free) then p
      else p.(place := p.place[i := Held], born := p.born[i := p.resets])
    case Release(i) =>
      if !Is(p, i, Held) then p else p.(place := p.place[i := Free])
    case Publish(i) =>
      if !Is(p, i, Held) then p
      else if LooksCurrent(p, i) then
        p.(place := p.place[i := Queued], queue := p.queue + [i])
      else p.(place := p.place[i := Free])
    case Take =>
      if p.queue == [] || !Is(p, p.queue[0], Queued) then p
      else p.(place := p.place[p.queue[0] := Held], queue := p.queue[1..])
    case Pop =>
      if p.queue == [] || !Is(p, p.queue[0], Queued) then p
      else p.(place := p.place[p.queue[0] := Free], queue := p.queue[1..])
    case Reset =>
      p.(place := Reclaimed(p.place), queue := [], resets := p.resets + 1)
  }

  function Run(p: Pool, es: seq<Event>): (r: Pool)
    requires |p.born| == |p.place|
    ensures |r.place| == |p.place| && |r.born| == |p.born|
  {
    if es == [] then p else Step(Run(p, es[..|es| - 1]), es[|es| - 1])
  }

  lemma RunSnoc(p: Pool, es: seq<Event>, e: Event)
    requires |p.born| == |p.place|
    ensures Run(p, es + [e]) == Step(Run(p, es), e)
  {
    assert (es + [e])[..|es|] == es;
  }

  // ---- one place each ----

  predicate Inv(p: Pool) {
    && |p.born| == |p.place|
    && (forall k :: 0 <= k < |p.queue| ==> Is(p, p.queue[k], Queued))
    && (forall j, k :: 0 <= j < k < |p.queue| ==> p.queue[j] != p.queue[k])
    && (forall i :: 0 <= i < |p.place| && p.place[i] == Queued ==> i in p.queue)
    && (forall i :: 0 <= i < |p.place| && p.place[i] == Queued ==> LooksCurrent(p, i))
    && (forall i :: 0 <= i < |p.born| ==> p.born[i] <= p.resets)
  }

  lemma StepKeepsInv(p: Pool, e: Event)
    requires Inv(p)
    ensures Inv(Step(p, e))
  {
    var r := Step(p, e);
    match e
    case Publish(i) =>
      if Is(p, i, Held) && LooksCurrent(p, i) {
        assert forall k :: 0 <= k < |p.queue| ==> p.queue[k] != i;
        forall j | 0 <= j < |r.place| && r.place[j] == Queued ensures j in r.queue {
          if j == i { assert r.queue[|p.queue|] == i; } else { assert j in p.queue; }
        }
      }
    case Take => DequeueKeepsInv(p, r);
    case Pop => DequeueKeepsInv(p, r);
    case _ =>
  }

  lemma DequeueQueue(p: Pool, r: Pool)
    requires Inv(p) && p.queue != [] && r.queue == p.queue[1..] && |r.place| == |p.place|
    requires forall j :: 0 <= j < |p.place| && j != p.queue[0] ==> r.place[j] == p.place[j]
    requires Is(p, p.queue[0], Queued) && !Is(r, p.queue[0], Queued)
    ensures forall k :: 0 <= k < |r.queue| ==> Is(r, r.queue[k], Queued)
    ensures forall j, k :: 0 <= j < k < |r.queue| ==> r.queue[j] != r.queue[k]
    ensures forall i :: 0 <= i < |r.place| && r.place[i] == Queued ==> i in r.queue
  {
    hide LooksCurrent;
    var i := p.queue[0];
    forall k | 0 <= k < |r.queue| ensures Is(r, r.queue[k], Queued) {
      assert Is(p, p.queue[k + 1], Queued) && p.queue[k + 1] != i;
    }
    forall j | 0 <= j < |r.place| && r.place[j] == Queued ensures j in r.queue {
      assert j in p.queue && j != i;
    }
  }

  lemma DequeueKeepsInv(p: Pool, r: Pool)
    requires Inv(p) && (r == Step(p, Take) || r == Step(p, Pop))
    ensures Inv(r)
  {
    if p.queue != [] {
      assert Is(p, p.queue[0], Queued);
      DequeueQueue(p, r);
      forall j | 0 <= j < |r.place| && r.place[j] == Queued ensures LooksCurrent(r, j) {
        assert LooksCurrent(p, j);
      }
    }
  }

  lemma {:induction false} RunKeepsInv(p: Pool, es: seq<Event>)
    requires Inv(p)
    ensures Inv(Run(p, es))
    decreases |es|
  {
    if es != [] {
      RunKeepsInv(p, es[..|es| - 1]);
      StepKeepsInv(Run(p, es[..|es| - 1]), es[|es| - 1]);
    }
  }

  function Count(place: seq<Place>, where: Place): nat {
    if place == [] then 0
    else Count(place[..|place| - 1], where) + if place[|place| - 1] == where then 1 else 0
  }

  lemma {:induction false} CountMove(place: seq<Place>, i: nat, to: Place, where: Place)
    requires i < |place|
    ensures Count(place[i := to], where)
         == Count(place, where) + (if to == where then 1 else 0)
                                - (if place[i] == where then 1 else 0)
    decreases |place|
  {
    var n := |place| - 1;
    if i == n {
      assert place[i := to][..n] == place[..n];
    } else {
      CountMove(place[..n], i, to, where);
      assert place[i := to][..n] == place[..n][i := to];
    }
  }

  /** Free, held and queued slots add up to the pool. */
  lemma {:induction false} CountsAddUp(place: seq<Place>)
    ensures Count(place, Free) + Count(place, Held) + Count(place, Queued) == |place|
  {
    if place != [] { CountsAddUp(place[..|place| - 1]); }
  }

  lemma {:induction false} CountPositive(place: seq<Place>, i: nat)
    requires i < |place|
    ensures Count(place, place[i]) > 0
    decreases |place|
  {
    if i < |place| - 1 { CountPositive(place[..|place| - 1], i); }
  }

  lemma {:induction false} CountReclaimed(place: seq<Place>)
    ensures Count(Reclaimed(place), Queued) == 0
    ensures Count(Reclaimed(place), Held) == Count(place, Held)
    decreases |place|
  {
    if place != [] {
      var n := |place| - 1;
      CountReclaimed(place[..n]);
      assert Reclaimed(place)[..n] == Reclaimed(place[..n]);
    }
  }

  // ---- what a reset can and cannot do to a holder ----

  /** The holder of slot i has not itself finished with it. */
  predicate LeavesAlone(e: Event, i: nat) {
    e != Release(i) && e != Publish(i)
  }

  lemma StepKeepsHeld(p: Pool, e: Event, i: nat)
    requires Inv(p) && Is(p, i, Held) && LeavesAlone(e, i)
    ensures Is(Step(p, e), i, Held) && Step(p, e).born[i] == p.born[i]
  {
    if p.queue != [] { assert Is(p, p.queue[0], Queued); }
  }

  /** However many resets, claims and releases of others land meanwhile, a held slot is
      nobody else's until its holder gives it up. */
  lemma {:induction false} HeldIsKept(p: Pool, es: seq<Event>, i: nat)
    requires Inv(p) && Is(p, i, Held) && forall e <- es :: LeavesAlone(e, i)
    ensures |Run(p, es).place| == |Run(p, es).born| && Is(Run(p, es), i, Held)
    ensures Run(p, es).born[i] == p.born[i] && i !in Run(p, es).queue
    decreases |es|
  {
    RunKeepsInv(p, es);
    if es != [] {
      var before := Run(p, es[..|es| - 1]);
      HeldIsKept(p, es[..|es| - 1], i);
      RunKeepsInv(p, es[..|es| - 1]);
      StepKeepsHeld(before, es[|es| - 1], i);
    }
    OnlyQueuedInQueue(Run(p, es), i);
  }

  lemma OnlyQueuedInQueue(p: Pool, i: nat)
    requires Inv(p) && !Is(p, i, Queued)
    ensures i !in p.queue
  {
    forall k | 0 <= k < |p.queue| ensures p.queue[k] != i { assert Is(p, p.queue[k], Queued); }
  }

  function Resets(es: seq<Event>): nat {
    if es == [] then 0 else Resets(es[..|es| - 1]) + if es[|es| - 1] == Reset then 1 else 0
  }

  lemma {:induction false} ResetsCounted(p: Pool, es: seq<Event>)
    requires |p.born| == |p.place|
    ensures Run(p, es).resets == p.resets + Resets(es)
    decreases |es|
  {
    if es != [] { ResetsCounted(p, es[..|es| - 1]); }
  }

  /** A frame started at a claim and completed after `es` is queued if and only if the
      number of resets in between is a multiple of 256; with fewer than that, if and only
      if there was none.  Otherwise its slot goes back to the free list. */
  lemma QueuedIffNoReset(p: Pool, es: seq<Event>, i: nat)
    requires Inv(p) && Is(p, i, Free) && forall e <- es :: LeavesAlone(e, i)
    ensures var held := Run(Step(p, Claim(i)), es); var r := Step(held, Publish(i));
      && (Resets(es) % EPOCHS == 0 ==> r.queue == held.queue + [i] && Is(r, i, Queued))
      && (Resets(es) % EPOCHS != 0 ==> r.queue == held.queue && Is(r, i, Free))
      && (Resets(es) < EPOCHS ==> (i in r.queue <==> Resets(es) == 0))
  {
    var start := Step(p, Claim(i));
    StepKeepsInv(p, Claim(i));
    HeldIsKept(start, es, i);
    ResetsCounted(start, es);
    SameEpoch(start.resets, Resets(es));
    assert Step(Run(start, es), Publish(i)).queue == Run(start, es).queue + [i]
        || Step(Run(start, es), Publish(i)).queue == Run(start, es).queue;
  }

  lemma SameEpoch(a: nat, n: nat)
    ensures a % EPOCHS == (a + n) % EPOCHS <==> n % EPOCHS == 0
  {
  }

  /** And 256 are enough: a frame claimed before them is queued after them. */
  lemma FullTurnOfResets(p: Pool, i: nat)
    requires Inv(p) && Is(p, i, Free)
    ensures var es := seq(EPOCHS, _ => Reset);
      Resets(es) == EPOCHS && i in Step(Run(Step(p, Claim(i)), es), Publish(i)).queue
  {
    hide Step, Run, Is;
    var es := seq(EPOCHS, _ => Reset);
    CountResets(EPOCHS);
    QueuedIffNoReset(p, es, i);
    var held := Run(Step(p, Claim(i)), es);
    assert (held.queue + [i])[|held.queue|] == i;
  }

  lemma {:induction false} CountResets(n: nat)
    ensures Resets(seq(n, _ => Reset)) == n
  {
    if n > 0 {
      var es := seq(n, _ => Reset);
      CountResets(n - 1);
      assert es[..n - 1] == seq(n - 1, _ => Reset);
    }
  }

  /** Fewer than 256 resets fall inside the hold that ends here. */
  predicate HoldShort(p: Pool, e: Event) {
    e.Publish? && e.slot < |p.born| ==> p.resets - p.born[e.slot] < EPOCHS
  }

  predicate HoldsShort(p: Pool, es: seq<Event>)
    requires |p.born| == |p.place|
  {
    forall k :: 0 <= k < |es| ==> HoldShort(Run(p, es[..k]), es[k])
  }

  /** Everything queued was claimed since the last reset. */
  predicate AllCurrent(p: Pool) {
    forall k :: 0 <= k < |p.queue| ==>
      p.queue[k] < |p.born| && p.born[p.queue[k]] == p.resets
  }

  lemma StepKeepsCurrent(p: Pool, e: Event)
    requires Inv(p) && AllCurrent(p) && HoldShort(p, e)
    ensures AllCurrent(Step(p, e))
  {
    if e.Publish? && Is(p, e.slot, Held) {
      SameEpoch(p.born[e.slot], p.resets - p.born[e.slot]);
    } else if e.Claim? && Is(p, e.slot, Free) {
      OnlyQueuedInQueue(p, e.slot);
    }
  }

  /** What waits to be delivered or sent was claimed since the last reset, in every run
      whose holds each span fewer than 256 resets. */
  lemma {:induction false} QueuedSinceReset(p: Pool, es: seq<Event>)
    requires Inv(p) && AllCurrent(p) && HoldsShort(p, es)
    ensures AllCurrent(Run(p, es))
    decreases |es|
  {
    if es == [] {
    } else {
      hide Step, Run, Inv, HoldShort, AllCurrent;
      var n := |es| - 1;
      forall k | 0 <= k < n ensures HoldShort(Run(p, es[..n][..k]), es[..n][k]) {
        assert es[..n][..k] == es[..k];
      }
      QueuedSinceReset(p, es[..n]);
      RunKeepsInv(p, es[..n]);
      RunSnoc(p, es[..n], es[n]);
      assert es[..n] + [es[n]] == es;
      assert es[..|es| - 1] == es[..n];
      StepKeepsCurrent(Run(p, es[..n]), es[n]);
    }
  }

  /** Step k of the run is a claim that is granted slot i. */
  predicate GrantedAt(p: Pool, es: seq<Event>, k: nat, i: nat)
    requires |p.born| == |p.place|
  {
    k < |es| && es[k] == Claim(i) && Is(Run(p, es[..k]), i, Free)
  }

  lemma {:induction false} BornAtClaim(p: Pool, es: seq<Event>, i: nat) returns (k: nat)
    requires |p.born| == |p.place| && i < |p.born| && Run(p, es).born[i] != p.born[i]
    ensures GrantedAt(p, es, k, i) && Run(p, es[..k]).resets == Run(p, es).born[i]
    decreases |es|
  {
    k := 0;
    if es != [] {
      var n := |es| - 1;
      if Run(p, es[..n]).born[i] == Run(p, es).born[i] {
        k := BornAtClaim(p, es[..n], i);
        assert es[..n][..k] == es[..k];
      } else {
        k := n;
      }
    }
  }

  /** No frame claimed before a reset is delivered, sent or newly queued after it: whatever
      is in the queue later was granted by a claim since, the one it is stamped with. */
  lemma NothingCrossesReset(p: Pool, es: seq<Event>, fs: seq<Event>, i: nat) returns (k: nat)
    requires Inv(p) && AllCurrent(p) && HoldsShort(p, es + [Reset] + fs)
    requires i in Run(p, es + [Reset] + fs).queue
    ensures |Run(p, es + [Reset]).born| == |Run(p, es + [Reset]).place|
    ensures GrantedAt(Run(p, es + [Reset]), fs, k, i)
    ensures Run(Run(p, es + [Reset]), fs[..k]).resets == Run(p, es + [Reset] + fs).resets
  {
    hide HoldsShort, Step;
    var after := Run(p, es + [Reset]);
    QueuedSinceReset(p, es + [Reset] + fs);
    RunConcat(p, es + [Reset], fs);
    AfterReset(p, es);
    ResetsCounted(after, fs);
    assert after.born[i] < after.resets;
    k := BornAtClaim(after, fs, i);
  }

  lemma AfterReset(p: Pool, es: seq<Event>)
    requires Inv(p)
    ensures |Run(p, es + [Reset]).born| == |p.born|
    ensures forall i :: 0 <= i < |p.born| ==>
      Run(p, es + [Reset]).born[i] < Run(p, es + [Reset]).resets
  {
    RunKeepsInv(p, es);
    RunSnoc(p, es, Reset);
  }

  lemma {:induction false} RunConcat(p: Pool, es: seq<Event>, fs: seq<Event>)
    requires |p.born| == |p.place|
    ensures Run(p, es + fs) == Run(Run(p, es), fs)
    decreases |fs|
  {
    hide Step;
    if fs == [] {
      assert es + fs == es;
    } else {
      RunConcat(p, es, fs[..|fs| - 1]);
      assert (es + fs)[..|es + fs| - 1] == es + fs[..|fs| - 1];
    }
  }
}
