/** The UART's reference count and generations.  `held` remembers, for each reference not
    yet returned, the generation it was taken at: what the count is supposed to mean. */
module RefCount {
  import opened Bytes

  datatype Uart = At | Log

  const ERPC_BAUD_DEFAULT := 2_000_000

  datatype Link = Link(
    refs: nat,
    gen: nat,
    quiesce: nat,
    open: bool,
    which: Uart,
    baud: nat,
    erpcBaud: nat,
    held: multiset<nat>)

  datatype Event =
    | Ref(which: Uart, baud: nat, opens: bool)   // `opens`: does the peripheral come ready
    | Unref(taken: nat)                          // the plain release of a reference
    | UnrefGen(taken: nat)                       // the release that names its generation
    | Rebaud(baud: nat, opens: bool)
    | ForceQuiesce

  function Dropped(l: Link): Link {
    if l.refs == 0 then l
    else l.(refs := l.refs - 1, open := l.open && l.refs > 1)
  }

  function Step(l: Link, e: Event): Link {
    match e
    case Ref(which, baud, opens) =>
      if l.refs != 0 then
        if which != l.which || baud != l.baud then l
        else l.(refs := l.refs + 1, held := l.held + multiset{l.gen})
      else if !opens then l
      else
        l.(refs := 1, gen := l.gen + 1, open := true, which := which, baud := baud,
           held := l.held + multiset{l.gen + 1})
    case Unref(taken) => Dropped(l).(held := l.held - multiset{taken})
    case UnrefGen(taken) =>
      (if taken == l.gen then Dropped(l) else l).(held := l.held - multiset{taken})
    case Rebaud(baud, opens) =>
      if l.refs == 0 then l
      else if opens then l.(baud := baud, erpcBaud := baud, open := true)
      else l.(open := false)
    case ForceQuiesce =>
      l.(refs := 0, gen := l.gen + 1, quiesce := l.quiesce + 1, open := false,
         erpcBaud := ERPC_BAUD_DEFAULT)
  }

  /** The count is the number of current references not returned. */
  predicate Inv(l: Link) {
    && l.refs == l.held[l.gen]
    && (forall g <- l.held :: 0 < g <= l.gen)
    && (l.open ==> l.refs > 0)
  }

  /** A plain release is in order for a reference that exists and is of the current
      generation, unless nothing is open at all.  The release by generation always is. */
  predicate Honest(l: Link, e: Event) {
    e.Unref? ==> e.taken in l.held && (e.taken == l.gen || l.refs == 0)
  }

  lemma CountIsHeld(l: Link)
    requires Inv(l)
    ensures l.refs == l.held[l.gen]
    ensures l.refs > 0 ==> Honest(l, Unref(l.gen))
  {
  }

  lemma RefKeepsInv(l: Link, e: Event)
    requires Inv(l) && l.gen > 0 && e.Ref?
    ensures Inv(Step(l, e))
  {
    var r := Step(l, e);
    if l.refs == 0 && e.opens {
      assert l.held[l.gen + 1] == 0;
      forall g <- r.held ensures 0 < g <= r.gen { assert g == l.gen + 1 || g in l.held; }
    } else {
      forall g <- r.held ensures 0 < g <= r.gen { assert g == l.gen || g in l.held; }
    }
  }

  lemma ReturnKeepsInv(l: Link, e: Event)
    requires Inv(l) && l.gen > 0 && Honest(l, e) && (e.Unref? || e.UnrefGen?)
    ensures Inv(Step(l, e))
  {
    var r := Step(l, e);
    forall g <- r.held ensures 0 < g <= r.gen { assert g in l.held; }
    if e.taken != l.gen { assert r.held[l.gen] == l.held[l.gen]; }
  }

  lemma QuiesceKeepsInv(l: Link)
    requires Inv(l) && l.gen > 0
    ensures Inv(Step(l, ForceQuiesce))
  {
    assert l.gen + 1 !in l.held;
  }

  lemma StepKeepsInv(l: Link, e: Event)
    requires Inv(l) && Honest(l, e) && l.gen > 0
    ensures Inv(Step(l, e)) && Step(l, e).gen > 0
  {
    match e
    case Ref(_, _, _) => RefKeepsInv(l, e);
    case Unref(_) => ReturnKeepsInv(l, e);
    case UnrefGen(_) => ReturnKeepsInv(l, e);
    case Rebaud(_, _) =>
    case ForceQuiesce => QuiesceKeepsInv(l);
  }

  /** Exactly when a plain release of a reference taken at `taken` leaves the count right. */
  lemma PlainReleaseIff(l: Link, taken: nat)
    requires Inv(l) && l.gen > 0 && taken in l.held
    ensures Inv(Step(l, Unref(taken))) <==> taken == l.gen || l.refs == 0
  {
    var r := Step(l, Unref(taken));
    if taken != l.gen && l.refs != 0 { assert r.held[l.gen] == l.held[l.gen]; }
  }

  /** A run with a wrong one: opened, taken away, opened by somebody else, and closed under
      that one by the first user's late plain release. */
  lemma LatePlainReleaseCloses(baud: nat)
    ensures var start := Link(0, 1, 0, false, At, 0, ERPC_BAUD_DEFAULT, multiset{});
      var first := Step(start, Ref(At, baud, true));
      var second := Step(Step(first, ForceQuiesce), Ref(At, baud, true));
      var late := Step(second, Unref(first.gen));
      && Inv(second) && second.open && second.gen in second.held && first.gen in second.held
      && !late.open && second.gen in late.held
  {
    var start := Link(0, 1, 0, false, At, 0, ERPC_BAUD_DEFAULT, multiset{});
    var first := Step(start, Ref(At, baud, true));
    StepKeepsInv(start, Ref(At, baud, true));
    StepKeepsInv(first, ForceQuiesce);
    StepKeepsInv(Step(first, ForceQuiesce), Ref(At, baud, true));
    assert first.held == multiset{2};
    assert Step(Step(first, ForceQuiesce), Ref(At, baud, true)).held == multiset{2, 4};
  }

  /** A release under a stale or zeroed generation touches nothing but its own record: no
      user of the UART at the current generation can lose it. */
  lemma StaleReleaseChangesNothing(l: Link, taken: nat)
    requires Inv(l) && l.gen > 0 && (taken == 0 || taken < l.gen)
    ensures Step(l, UnrefGen(taken)).(held := l.held) == l
    ensures Step(l, UnrefGen(taken)).held[l.gen] == l.held[l.gen]
  {
  }

  /** A current reference keeps the generation where it is against everything but a
      force-quiesce. */
  lemma GenMovesOnlyByQuiesce(l: Link, e: Event)
    requires Inv(l) && l.gen in l.held
    ensures Step(l, e).gen != l.gen <==> e == ForceQuiesce
    ensures Step(l, e).quiesce != l.quiesce <==> e == ForceQuiesce
  {
  }

  predicate TookRef(l: Link, e: Event)
    requires e.Ref?
  {
    Step(l, e).held != l.held
  }

  /** A reference joins the open configuration, or opens the UART if nothing is open. */
  lemma TookRefIff(l: Link, e: Event)
    requires e.Ref?
    ensures TookRef(l, e) <==>
      if l.refs != 0 then e.which == l.which && e.baud == l.baud else e.opens
    ensures !TookRef(l, e) ==> Step(l, e) == l
  {
    var r := Step(l, e);
    assert r == l || r.held[r.gen] == l.held[r.gen] + 1;
  }

  // ---- the coarse mutex's discipline ----

  type Thread = nat

  /** `plain`: the reference the section now holding the coarse mutex took and must return. */
  datatype Host = Host(link: Link, coarse: bool, plain: Option<nat>)

  datatype Act =
    | Claim
    | Unclaim
    | PlainRef(which: Uart, baud: nat, opens: bool)
    | PlainUnref
    | ResidentRef(which: Uart, baud: nat, opens: bool)
    | ResidentUnref(taken: nat)
    | ChangeRate(baud: nat, opens: bool)
    | TakeAway                                   // force-quiesce, even from outside

  /** Residents, who hold references other than the section's own. */
  function Residents(h: Host): multiset<nat> {
    if h.plain.Some? then h.link.held - multiset{h.plain.value} else h.link.held
  }

  function Move(h: Host, a: Act): Host {
    match a
    case Claim => if h.coarse then h else h.(coarse := true)
    case Unclaim => if h.plain.Some? then h else h.(coarse := false)
    case PlainRef(which, baud, opens) =>
      var e := Ref(which, baud, opens);
      if !h.coarse || h.plain.Some? || !TookRef(h.link, e) then h
      else h.(link := Step(h.link, e), plain := Some(Step(h.link, e).gen))
    case PlainUnref =>
      if h.plain == None then h else h.(link := Step(h.link, Unref(h.plain.value)), plain := None)
    case ResidentRef(which, baud, opens) =>
      if !h.coarse || h.plain.Some? then h else h.(link := Step(h.link, Ref(which, baud, opens)))
    case ResidentUnref(taken) =>
      if taken in Residents(h) || taken !in h.link.held
      then h.(link := Step(h.link, UnrefGen(taken))) else h
    case ChangeRate(baud, opens) =>
      if !h.coarse then h else h.(link := Step(h.link, Rebaud(baud, opens)))
    case TakeAway => h.(link := Step(h.link, ForceQuiesce))
  }

  function Moves(h: Host, acts: seq<Act>): Host {
    if acts == [] then h else Move(Moves(h, acts[..|acts| - 1]), acts[|acts| - 1])
  }

  predicate HostInv(h: Host) {
    && Inv(h.link) && h.link.gen > 0
    && (h.plain.Some? ==> h.coarse && Honest(h.link, Unref(h.plain.value)))
  }

  lemma MoveKeepsInv(h: Host, a: Act)
    requires HostInv(h)
    ensures HostInv(Move(h, a))
  {
    hide Inv;
    match a
    case PlainRef(which, baud, opens) =>
      StepKeepsInv(h.link, Ref(which, baud, opens));
      if TookRef(h.link, Ref(which, baud, opens)) {
        NewRefIsCurrent(h.link, Ref(which, baud, opens));
      }
    case PlainUnref => if h.plain.Some? { StepKeepsInv(h.link, Unref(h.plain.value)); }
    case ResidentRef(which, baud, opens) => StepKeepsInv(h.link, Ref(which, baud, opens));
    case ResidentUnref(taken) => ResidentKeepsPlain(h, taken);
    case ChangeRate(baud, opens) => StepKeepsInv(h.link, Rebaud(baud, opens));
    case TakeAway => StepKeepsInv(h.link, ForceQuiesce);
    case _ =>
  }

  lemma NewRefIsCurrent(l: Link, e: Event)
    requires e.Ref? && TookRef(l, e)
    ensures Step(l, e).gen in Step(l, e).held
  {
  }

  lemma ResidentKeepsPlain(h: Host, taken: nat)
    requires HostInv(h)
    ensures HostInv(Move(h, ResidentUnref(taken)))
  {
    if taken in Residents(h) || taken !in h.link.held {
      StepKeepsInv(h.link, UnrefGen(taken));
      if h.plain.Some? {
        assert Step(h.link, UnrefGen(taken)).held[h.plain.value] > 0;
      }
    }
  }

  /** Over every run of claims, releases, rate changes and force-quiesces, plain releases
      inside the section that took the reference keep the count exact. */
  lemma {:induction false} MovesKeepInv(h: Host, acts: seq<Act>)
    requires HostInv(h)
    ensures HostInv(Moves(h, acts))
    decreases |acts|
  {
    if acts != [] {
      MovesKeepInv(h, acts[..|acts| - 1]);
      MoveKeepsInv(Moves(h, acts[..|acts| - 1]), acts[|acts| - 1]);
    }
  }

  /** A release closes the UART exactly when it leaves no current reference behind. */
  lemma ClosesOnlyWhenUnused(h: Host, a: Act)
    requires HostInv(h) && h.link.open && (a == PlainUnref || a.ResidentUnref?)
    ensures !Move(h, a).link.open <==> Move(h, a).link.held[h.link.gen] == 0
  {
    MoveKeepsInv(h, a);
  }

  /** What anybody but the one returning a reference can see. */
  predicate SameToOthers(a: Link, b: Link) {
    a.(held := multiset{}) == b.(held := multiset{}) && a.held[a.gen] == b.held[b.gen]
  }

  /** A generation once passed is passed for good: in no later state of any run does a release
      under it change anything for anybody else. */
  lemma {:induction false} PassedForGood(h: Host, acts: seq<Act>, taken: nat)
    requires HostInv(h) && taken < h.link.gen
    ensures taken < Moves(h, acts).link.gen
    ensures SameToOthers(Moves(h, acts).link, Move(Moves(h, acts), ResidentUnref(taken)).link)
    decreases |acts|
  {
    MovesKeepInv(h, acts);
    if acts != [] {
      PassedForGood(h, acts[..|acts| - 1], taken);
      GenNeverFalls(Moves(h, acts[..|acts| - 1]), acts[|acts| - 1]);
    }
    StaleReleaseChangesNothing(Moves(h, acts).link, taken);
  }

  lemma GenNeverFalls(h: Host, a: Act)
    ensures h.link.gen <= Move(h, a).link.gen
  {
  }
}
