/** What every section of a pool brings about, and what it adds up to: slots are neither lost
    nor made, and frames leave in the order they were queued. */
module PoolProgress {
  import opened Pools

  predicate AlikeBut(a: seq<Place>, b: seq<Place>, i: nat) {
    |a| == |b| && forall k :: 0 <= k < |a| && k != i ==> a[k] == b[k]
  }

  /** A claim of a free slot and a release of a held one move that slot and nothing else. */
  lemma ClaimAndRelease(p: Pool, i: nat)
    requires Inv(p) && i < |p.place|
    ensures var r := Step(p, Claim(i));
      && r.queue == p.queue && r.resets == p.resets && AlikeBut(p.place, r.place, i)
      && r.place[i] == (if p.place[i] == Free then Held else p.place[i])
      && (p.place[i] == Free ==> r.born[i] == p.resets)
    ensures var r := Step(p, Release(i));
      && r.queue == p.queue && r.resets == p.resets && AlikeBut(p.place, r.place, i)
      && r.place[i] == (if p.place[i] == Held then Free else p.place[i])
  {
  }

  /** A published frame goes to the end of the queue, or its slot is free. */
  lemma PublishLands(p: Pool, i: nat)
    requires Inv(p) && Is(p, i, Held)
    ensures var r := Step(p, Publish(i));
      && AlikeBut(p.place, r.place, i) && r.resets == p.resets
      && if (p.resets - p.born[i]) % 256 == 0
         then r.place[i] == Queued && r.queue == p.queue + [i]
         else r.place[i] == Free && r.queue == p.queue
  {
    SameEpoch(p.born[i], p.resets - p.born[i]);
  }

  /** The oldest frame goes to the consumer on a take, and its slot is free after a pop. */
  lemma DequeueLands(p: Pool)
    requires Inv(p)
    ensures p.queue == [] ==> Step(p, Take) == p && Step(p, Pop) == p
    ensures p.queue != [] ==> var i, r := p.queue[0], Step(p, Take);
      i < |p.place| && r.place == p.place[i := Held] && r.queue == p.queue[1..]
    ensures p.queue != [] ==> var i, r := p.queue[0], Step(p, Pop);
      i < |p.place| && r.place == p.place[i := Free] && r.queue == p.queue[1..]
  {
    if p.queue != [] { assert Is(p, p.queue[0], Queued); }
  }

  /** A reset frees what is queued, leaves what is held, and counts itself. */
  lemma ResetLands(p: Pool)
    requires Inv(p)
    ensures var r := Step(p, Reset);
      && r.queue == [] && r.resets == p.resets + 1 && |r.place| == |p.place|
      && forall i :: 0 <= i < |p.place| ==>
           r.place[i] == if p.place[i] == Held then Held else Free
  {
  }

  // ---- nothing is lost ----

  /** By how much the section changes the number of slots in somebody's hands. */
  function Handed(p: Pool, e: Event): int {
    match e
    case Claim(i) => if Is(p, i, Free) then 1 else 0
    case Take => if p.queue != [] then 1 else 0
    case Release(i) => if Is(p, i, Held) then -1 else 0
    case Publish(i) => if Is(p, i, Held) then -1 else 0
    case _ => 0
  }

  /** And the number of slots waiting in the queue. */
  function Joined(p: Pool, e: Event): int {
    match e
    case Publish(i) =>
      if Is(p, i, Held) && i < |p.born| && (p.resets - p.born[i]) % 256 == 0 then 1 else 0
    case Take => if p.queue != [] then -1 else 0
    case Pop => if p.queue != [] then -1 else 0
    case Reset => -|p.queue|
    case _ => 0
  }

  function HandedOver(p: Pool, es: seq<Event>): int
    requires |p.born| == |p.place|
  {
    if es == [] then 0
    else HandedOver(p, es[..|es| - 1]) + Handed(Run(p, es[..|es| - 1]), es[|es| - 1])
  }

  function JoinedOver(p: Pool, es: seq<Event>): int
    requires |p.born| == |p.place|
  {
    if es == [] then 0
    else JoinedOver(p, es[..|es| - 1]) + Joined(Run(p, es[..|es| - 1]), es[|es| - 1])
  }

  lemma PublishBalance(p: Pool, i: nat)
    requires Inv(p)
    ensures Count(Step(p, Publish(i)).place, Held) == Count(p.place, Held) + Handed(p, Publish(i))
    ensures |Step(p, Publish(i)).queue| == |p.queue| + Joined(p, Publish(i))
  {
    if Is(p, i, Held) {
      SameEpoch(p.born[i], p.resets - p.born[i]);
      CountMove(p.place, i, Free, Held);
      CountMove(p.place, i, Queued, Held);
    }
  }

  lemma StepBalance(p: Pool, e: Event)
    requires Inv(p)
    ensures Count(Step(p, e).place, Held) == Count(p.place, Held) + Handed(p, e)
    ensures |Step(p, e).queue| == |p.queue| + Joined(p, e)
  {
    match e
    case Claim(i) => if Is(p, i, Free) { CountMove(p.place, i, Held, Held); }
    case Release(i) => if Is(p, i, Held) { CountMove(p.place, i, Free, Held); }
    case Publish(i) => PublishBalance(p, i);
    case Take =>
      if p.queue != [] {
        assert Is(p, p.queue[0], Queued);
        CountMove(p.place, p.queue[0], Held, Held);
      }
    case Pop =>
      if p.queue != [] {
        assert Is(p, p.queue[0], Queued);
        CountMove(p.place, p.queue[0], Free, Held);
      }
    case Reset => CountReclaimed(p.place);
  }

  /** Over every run the slots in somebody's hands are those that were, and the granted
      claims and takes, less the releases and publications; what waits is accounted for
      likewise, and every other slot is free. */
  lemma {:induction false} NothingIsLost(p: Pool, es: seq<Event>)
    requires Inv(p) && Count(p.place, Queued) == |p.queue|
    ensures var r := Run(p, es);
      && Count(r.place, Held) == Count(p.place, Held) + HandedOver(p, es)
      && Count(r.place, Queued) == |r.queue| == |p.queue| + JoinedOver(p, es)
      && Count(r.place, Free) == |p.place| - Count(r.place, Held) - |r.queue|
    decreases |es|
  {
    if es != [] {
      hide Step, Inv, Handed, Joined, Count;
      var head := es[..|es| - 1];
      NothingIsLost(p, head);
      RunKeepsInv(p, head);
      StepBalance(Run(p, head), es[|es| - 1]);
      QueueCounted(Run(p, head), es[|es| - 1]);
    }
    CountsAddUp(Run(p, es).place);
  }

  lemma QueueCounted(p: Pool, e: Event)
    requires Inv(p) && Count(p.place, Queued) == |p.queue|
    ensures Count(Step(p, e).place, Queued) == |Step(p, e).queue|
  {
    match e
    case Claim(i) => if Is(p, i, Free) { CountMove(p.place, i, Held, Queued); }
    case Release(i) => if Is(p, i, Held) { CountMove(p.place, i, Free, Queued); }
    case Publish(i) =>
      if Is(p, i, Held) {
        CountMove(p.place, i, Free, Queued);
        CountMove(p.place, i, Queued, Queued);
      }
    case Take =>
      if p.queue != [] {
        assert Is(p, p.queue[0], Queued);
        CountMove(p.place, p.queue[0], Held, Queued);
      }
    case Pop =>
      if p.queue != [] {
        assert Is(p, p.queue[0], Queued);
        CountMove(p.place, p.queue[0], Free, Queued);
      }
    case Reset => CountReclaimed(p.place);
  }

  // ---- first in, first out ----

  predicate Dequeues(e: Event) {
    e == Take || e == Pop
  }

  function Departures(es: seq<Event>): nat {
    if es == [] then 0
    else Departures(es[..|es| - 1]) + if Dequeues(es[|es| - 1]) then 1 else 0
  }

  lemma StepShifts(p: Pool, e: Event, n: nat)
    requires Inv(p) && n < |p.queue| && e != Reset && (Dequeues(e) ==> n > 0)
    ensures var m := if Dequeues(e) then n - 1 else n;
      m < |Step(p, e).queue| && Step(p, e).queue[m] == p.queue[n]
  {
    DequeueLands(p);
  }

  /** A frame with n ahead of it is at the head when n have left, whatever else joined or
      was claimed meanwhile, and unless the link was reset the next pop frees its slot. */
  lemma {:induction false} LeavesInTurn(p: Pool, es: seq<Event>, n: nat)
    requires Inv(p) && n < |p.queue| && Reset !in es && Departures(es) <= n
    ensures var r := Run(p, es); var m := n - Departures(es);
      && m < |r.queue| && r.queue[m] == p.queue[n]
      && (m == 0 ==> Is(Step(r, Pop), p.queue[n], Free))
    decreases |es|
  {
    hide Step, Inv, LooksCurrent;
    RunKeepsInv(p, es);
    DequeueLands(Run(p, es));
    if es != [] {
      var head, e := es[..|es| - 1], es[|es| - 1];
      assert e in es && (Reset in head ==> Reset in es);
      LeavesInTurn(p, head, n);
      RunKeepsInv(p, head);
      StepShifts(Run(p, head), e, n - Departures(head));
    }
  }

  /** Claimed, published and popped, a slot is back where it was. */
  lemma RoundTrip(p: Pool, i: nat)
    requires Inv(p) && Is(p, i, Free) && p.queue == []
    ensures var r := Step(Step(Step(p, Claim(i)), Publish(i)), Pop);
      r.place == p.place && r.queue == []
  {
    var held := Step(p, Claim(i));
    StepKeepsInv(p, Claim(i));
    ClaimAndRelease(p, i);
    PublishLands(held, i);
    StepKeepsInv(held, Publish(i));
    DequeueLands(Step(held, Publish(i)));
  }
}
