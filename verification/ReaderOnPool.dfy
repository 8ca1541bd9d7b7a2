/** The frame reader as an owner of DATA buffers: its calls to the pool, interleaved in any
    order with what the dispatcher, the consumer and link resets do there. */
module ReaderOnPool {
  import opened Bytes
  import opened FrameReader
  import Pools

  /** One section of the pool: the reader's, naming the slot the free list yields to a
      claim and whether link_data accepts what is committed, or anybody else's. */
  datatype Item = Ours(use: PoolUse, slot: nat, good: bool) | Theirs(event: Pools.Event)

  /** `mine` is the buffer the reader's destination pointer names. */
  datatype World = World(pool: Pools.Pool, mine: Option<nat>)

  function Act(w: World, it: Item): (r: World)
    requires |w.pool.born| == |w.pool.place|
    ensures |r.pool.born| == |r.pool.place|
  {
    match it
    case Theirs(e) => w.(pool := Pools.Step(w.pool, e))
    case Ours(use, slot, good) =>
      match use
      case Claim(granted) =>
        if granted then World(Pools.Step(w.pool, Pools.Claim(slot)), Some(slot)) else w
      case Fill => w
      case Commit => GiveUp(w, good)
      case Abort => GiveUp(w, false)
  }

  function GiveUp(w: World, publish: bool): (r: World)
    requires |w.pool.born| == |w.pool.place|
    ensures |r.pool.born| == |r.pool.place|
  {
    match w.mine
    case None => w
    case Some(i) =>
      World(Pools.Step(w.pool, if publish then Pools.Publish(i) else Pools.Release(i)), None)
  }

  function Play(w: World, its: seq<Item>): (r: World)
    requires |w.pool.born| == |w.pool.place|
    ensures |r.pool.born| == |r.pool.place|
  {
    if its == [] then w else Act(Play(w, its[..|its| - 1]), its[|its| - 1])
  }

  function UsesOf(its: seq<Item>): seq<PoolUse> {
    if its == [] then []
    else UsesOf(its[..|its| - 1]) + match its[|its| - 1] case Ours(u, _, _) => [u] case _ => []
  }

  /** A claim is granted a free slot, and nobody gives up a slot that is not theirs. */
  predicate Fair(w: World, it: Item) {
    match it
    case Ours(Claim(true), slot, _) => Pools.Is(w.pool, slot, Pools.Free)
    case Ours(_, _, _) => true
    case Theirs(e) => w.mine.Some? ==> Pools.LeavesAlone(e, w.mine.value)
  }

  predicate AllFair(w: World, its: seq<Item>)
    requires |w.pool.born| == |w.pool.place|
  {
    its != [] ==>
      AllFair(w, its[..|its| - 1]) && Fair(Play(w, its[..|its| - 1]), its[|its| - 1])
  }

  /** The reader's slot is held, and its own calls say it has one. */
  predicate InStep(w: World, h: Holding) {
    && Pools.Inv(w.pool)
    && h != Broken && (w.mine.Some? <==> h == OneBuffer)
    && (w.mine.Some? ==> Pools.Is(w.pool, w.mine.value, Pools.Held))
  }

  function Next(h: Holding, it: Item): Holding {
    match it
    case Ours(u, _, _) => After(h, u)
    case Theirs(_) => h
  }

  lemma ActKeepsStep(w: World, h: Holding, it: Item)
    requires InStep(w, h) && Fair(w, it) && Next(h, it) != Broken
    ensures InStep(Act(w, it), Next(h, it))
  {
    hide Pools.Inv;
    match it
    case Theirs(e) =>
      Pools.StepKeepsInv(w.pool, e);
      if w.mine.Some? { Pools.StepKeepsHeld(w.pool, e, w.mine.value); }
    case Ours(Claim(true), slot, _) => Pools.StepKeepsInv(w.pool, Pools.Claim(slot));
    case Ours(Commit, _, good) =>
      Pools.StepKeepsInv(w.pool, if good then Pools.Publish(w.mine.value)
                                 else Pools.Release(w.mine.value));
    case Ours(Abort, _, _) => Pools.StepKeepsInv(w.pool, Pools.Release(w.mine.value));
    case _ =>
  }

  lemma StandingNext(its: seq<Item>, it: Item)
    ensures Standing(UsesOf(its + [it])) == Next(Standing(UsesOf(its)), it)
  {
    assert (its + [it])[..|its|] == its;
    match it
    case Ours(u, _, _) => StandingSnoc(UsesOf(its), u);
    case Theirs(_) => assert UsesOf(its) + [] == UsesOf(its);
  }

  /** Whatever else happens in the pool, the reader has a held slot exactly while its own
      calls say so. */
  lemma {:induction false} SlotIsHeld(w: World, its: seq<Item>)
    requires InStep(w, Nothing) && AllFair(w, its) && Standing(UsesOf(its)) != Broken
    ensures InStep(Play(w, its), Standing(UsesOf(its)))
    decreases |its|
  {
    if its != [] {
      var n := |its| - 1;
      assert its == its[..n] + [its[n]];
      StandingNext(its[..n], its[n]);
      SlotIsHeld(w, its[..n]);
      ActKeepsStep(Play(w, its[..n]), Standing(UsesOf(its[..n])), its[n]);
    }
  }

  /** The slot was held; a fill leaves it so, and what a commit or an abort gives up is
      queued if link_data takes the frame and no reset came since the claim, and free
      otherwise.  Either way the reader is then done with it. */
  predicate Proper(before: World, it: Item, after: World)
    requires |before.pool.born| == |before.pool.place|
  {
    && it.Ours? && before.mine.Some?
    && Pools.Is(before.pool, before.mine.value, Pools.Held)
    && if it.use == Fill then after == before else
         var i := before.mine.value;
         var queued := it.use == Commit && it.good && Pools.LooksCurrent(before.pool, i);
         && after.mine == None
         && Pools.Is(after.pool, i, if queued then Pools.Queued else Pools.Free)
         && after.pool.queue == before.pool.queue + if queued then [i] else []
  }

  lemma ActIsProper(w: World, it: Item)
    requires InStep(w, OneBuffer) && it.Ours? && !it.use.Claim?
    ensures Proper(w, it, Act(w, it))
  {
    hide Pools.Inv, Pools.LooksCurrent;
    assert w.pool.queue + [] == w.pool.queue;
  }

  lemma PlaySnoc(w: World, its: seq<Item>, it: Item)
    requires |w.pool.born| == |w.pool.place|
    ensures Play(w, its + [it]) == Act(Play(w, its), it)
  {
    assert (its + [it])[..|its|] == its;
  }

  lemma LastUseIsProper(w: World, its: seq<Item>, it: Item)
    requires InStep(w, Nothing) && AllFair(w, its) && it.Ours? && !it.use.Claim?
    requires Standing(UsesOf(its)) != Broken && Standing(UsesOf(its + [it])) != Broken
    ensures Proper(Play(w, its), it, Play(w, its + [it]))
  {
    assert |w.pool.born| == |w.pool.place|;
    hide Proper, AllFair, UsesOf, Standing, InStep, Play, Act;
    SlotIsHeld(w, its);
    StandingNext(its, it);
    PlaySnoc(w, its, it);
    ActIsProper(Play(w, its), it);
  }

  /** Every fill, commit and abort of the run is of a slot the reader holds at that moment. */
  lemma EveryUseIsOfAHeldSlot(w: World, its: seq<Item>, k: nat)
    requires InStep(w, Nothing) && AllFair(w, its) && Standing(UsesOf(its)) != Broken
    requires k < |its| && its[k].Ours? && !its[k].use.Claim?
    ensures Proper(Play(w, its[..k]), its[k], Play(w, its[..k + 1]))
  {
    assert |w.pool.born| == |w.pool.place|;
    hide *;
    PrefixIsSound(w, its, k);
    PrefixIsSound(w, its, k + 1);
    assert its[..k + 1] == its[..k] + [its[k]];
    LastUseIsProper(w, its[..k], its[k]);
  }

  lemma {:induction false} PrefixIsSound(w: World, its: seq<Item>, k: nat)
    requires |w.pool.born| == |w.pool.place|
    requires k <= |its| && AllFair(w, its) && Standing(UsesOf(its)) != Broken
    ensures AllFair(w, its[..k]) && Standing(UsesOf(its[..k])) != Broken
    decreases |its|
  {
    var n := |its| - 1;
    if k == |its| {
      assert its[..k] == its;
    } else {
      assert its == its[..n] + [its[n]] && its[..n][..k] == its[..k];
      StandingNext(its[..n], its[n]);
      PrefixIsSound(w, its[..n], k);
    }
  }

  // ---- exactly once ----

  function Granted(us: seq<PoolUse>): nat {
    if us == [] then 0
    else Granted(us[..|us| - 1]) + if us[|us| - 1] == Claim(true) then 1 else 0
  }

  function Ended(us: seq<PoolUse>): nat {
    if us == [] then 0
    else Ended(us[..|us| - 1]) + if us[|us| - 1] in {Commit, Abort} then 1 else 0
  }

  /** Every buffer the reader ever claimed was committed or aborted exactly once, but for
      the one it may hold now. */
  lemma {:induction false} EachClaimEndsOnce(us: seq<PoolUse>)
    requires Standing(us) != Broken
    ensures Granted(us) == Ended(us) + if Standing(us) == OneBuffer then 1 else 0
    decreases |us|
  {
    if us != [] { EachClaimEndsOnce(us[..|us| - 1]); }
  }

  /** What the reader proves of itself is all that is asked of it here. */
  lemma ReaderHoldsWhatItSays(r: Reader, w: World, its: seq<Item>)
    requires r.Valid() && UsesOf(its) == r.uses
    requires InStep(w, Nothing) && AllFair(w, its)
    ensures InStep(Play(w, its), HoldingOf(r.at))
    ensures Granted(r.uses) == Ended(r.uses) + if r.at.claimed then 1 else 0
  {
    SlotIsHeld(w, its);
    EachClaimEndsOnce(r.uses);
  }
}
