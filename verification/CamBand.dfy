/** The camera's band fan-out against claim and release: the producer's test-and-enter and
    its leaving are sections of their own, and anything may happen between them. */
module CamBand {
  const CLIENTS := 2
  const DRAIN_TICKS := 200
  const LOCK_TICKS := 2000

  type Callback = nat
  type Thread = nat

  /** A producer pass is outside, or inside the callback of one client. */
  datatype Spot = Outside | Inside(client: nat, cb: Callback)

  datatype Bands = Bands(
    claimed: seq<bool>,
    callback: seq<Callback>,
    active: seq<nat>,          // the 8-bit counters
    at: seq<Spot>)

  datatype Event =
    | Enter(pass: nat, client: nat)
    | Leave(pass: nat)
    | Publish(client: nat, cb: Callback)
    | Withdraw(client: nat)

  predicate In(s: Spot, c: nat) {
    s.Inside? && s.client == c
  }

  /** Passes inside client c's callback. */
  function Passes(at: seq<Spot>, c: nat): (n: nat)
    ensures n <= |at|
  {
    if at == [] then 0
    else Passes(at[..|at| - 1], c) + if In(at[|at| - 1], c) then 1 else 0
  }

  function Bump(active: seq<nat>, c: nat, delta: int): (r: seq<nat>)
    requires c < |active|
    ensures |r| == |active|
  {
    active[c := (active[c] + delta) % 0x100]
  }

  function Step(b: Bands, e: Event): (r: Bands)
    ensures |r.claimed| == |b.claimed| && |r.callback| == |b.callback|
    ensures |r.active| == |b.active| && |r.at| == |b.at|
  {
    match e
    case Enter(p, c) =>
      if p >= |b.at| || b.at[p].Inside? || c >= |b.claimed| || c >= |b.callback|
        || c >= |b.active| || !b.claimed[c]
      then b
      else b.(active := Bump(b.active, c, 1), at := b.at[p := Inside(c, b.callback[c])])
    case Leave(p) =>
      if p >= |b.at| || b.at[p].Outside? || b.at[p].client >= |b.active| then b
      else b.(active := Bump(b.active, b.at[p].client, -1), at := b.at[p := Outside])
    case Publish(c, cb) =>
      if c >= |b.claimed| || c >= |b.callback| then b
      else b.(claimed := b.claimed[c := true], callback := b.callback[c := cb])
    case Withdraw(c) =>
      if c >= |b.claimed| then b else b.(claimed := b.claimed[c := false])
  }

  function Run(b: Bands, es: seq<Event>): (r: Bands)
    ensures |r.claimed| == |b.claimed| && |r.callback| == |b.callback|
    ensures |r.active| == |b.active| && |r.at| == |b.at|
  {
    if es == [] then b else Step(Run(b, es[..|es| - 1]), es[|es| - 1])
  }

  predicate Counts(b: Bands, c: nat)
    requires c < |b.active|
  {
    b.active[c] == Passes(b.at, c)
  }

  /** Each counter is the number of passes inside; fewer passes than the counter can hold. */
  predicate Inv(b: Bands) {
    && |b.claimed| == |b.callback| == |b.active| == CLIENTS && |b.at| < 0x100
    && (forall c :: 0 <= c < CLIENTS ==> Counts(b, c))
    && (forall p :: 0 <= p < |b.at| && b.at[p].Inside? ==> b.at[p].client < CLIENTS)
  }

  lemma {:induction false} PassMoves(at: seq<Spot>, p: nat, to: Spot, c: nat)
    requires p < |at|
    ensures Passes(at[p := to], c) ==
      Passes(at, c) + (if In(to, c) then 1 else 0) - (if In(at[p], c) then 1 else 0)
    decreases |at|
  {
    var n := |at| - 1;
    if p == n {
      assert at[p := to][..n] == at[..n];
    } else {
      PassMoves(at[..n], p, to, c);
      assert at[p := to][..n] == at[..n][p := to];
    }
  }

  lemma StepKeepsInv(b: Bands, e: Event)
    requires Inv(b)
    ensures Inv(Step(b, e))
  {
    var r := Step(b, e);
    forall c | 0 <= c < CLIENTS ensures Counts(r, c) {
      assert Counts(b, c);
      if e.Enter? && e.pass < |b.at| { PassMoves(b.at, e.pass, r.at[e.pass], c); }
      if e.Leave? && e.pass < |b.at| { PassMoves(b.at, e.pass, r.at[e.pass], c); }
    }
  }

  lemma {:induction false} RunKeepsInv(b: Bands, es: seq<Event>)
    requires Inv(b)
    ensures Inv(Run(b, es))
    decreases |es|
  {
    if es != [] {
      RunKeepsInv(b, es[..|es| - 1]);
      StepKeepsInv(Run(b, es[..|es| - 1]), es[|es| - 1]);
    }
  }

  predicate Publishes(e: Event, c: nat) {
    e.Publish? && e.client == c
  }

  /** Client c is done with: nobody inside, and no claim to let anybody in. */
  predicate Drained(b: Bands, c: nat) {
    c < |b.claimed| && !b.claimed[c] && forall p :: 0 <= p < |b.at| ==> !In(b.at[p], c)
  }

  lemma {:induction false} NobodyIffZero(at: seq<Spot>, c: nat)
    ensures Passes(at, c) == 0 <==> forall p :: 0 <= p < |at| ==> !In(at[p], c)
    decreases |at|
  {
    if at != [] {
      var n := |at| - 1;
      NobodyIffZero(at[..n], c);
      forall p | 0 <= p < n ensures In(at[..n][p], c) == In(at[p], c) {}
    }
  }

  lemma StepKeepsDrained(b: Bands, e: Event, c: nat)
    requires Inv(b) && Drained(b, c) && !Publishes(e, c)
    ensures Drained(Step(b, e), c)
  {
  }

  /** Once drained, no placement of the producer's steps lets a pass in before the next
      claim of the same client. */
  lemma {:induction false} StaysDrained(b: Bands, es: seq<Event>, c: nat)
    requires Inv(b) && Drained(b, c) && forall e <- es :: !Publishes(e, c)
    ensures Drained(Run(b, es), c)
    decreases |es|
  {
    if es != [] {
      hide Step, Drained, Inv;
      var n := |es| - 1;
      StaysDrained(b, es[..n], c);
      RunKeepsInv(b, es[..n]);
      StepKeepsDrained(Run(b, es[..n]), es[n], c);
    }
  }

  lemma StepLetsNobodyIn(b: Bands, e: Event, c: nat)
    requires Inv(b) && c < CLIENTS && !b.claimed[c] && !Publishes(e, c)
    ensures !Step(b, e).claimed[c] && Passes(Step(b, e).at, c) <= Passes(b.at, c)
  {
    if (e.Enter? || e.Leave?) && e.pass < |b.at| {
      PassMoves(b.at, e.pass, Step(b, e).at[e.pass], c);
    }
  }

  /** Without a claim the number inside can only fall. */
  lemma {:induction false} NobodyEntersUnclaimed(b: Bands, es: seq<Event>, c: nat)
    requires Inv(b) && c < CLIENTS && !b.claimed[c] && forall e <- es :: !Publishes(e, c)
    ensures c < |Run(b, es).claimed| && !Run(b, es).claimed[c]
    ensures Passes(Run(b, es).at, c) <= Passes(b.at, c)
    decreases |es|
  {
    if es != [] {
      var n := |es| - 1;
      NobodyEntersUnclaimed(b, es[..n], c);
      RunKeepsInv(b, es[..n]);
      StepLetsNobodyIn(Run(b, es[..n]), es[n], c);
    }
  }
}
