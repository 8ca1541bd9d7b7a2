/** The shared UART in place: every entry point one section under the eRPC lock, and one
    step of RefCount. */
module UartLink {
  import opened RefCount

  class Uart8720 {
    var refs: nat
    var gen: nat
    var quiesce: nat
    var open: bool
    var which: Uart
    var baud: nat
    var erpcBaud: nat
    ghost var held: multiset<nat>

    ghost function View(): Link
      reads this
    {
      Link(refs, gen, quiesce, open, which, baud, erpcBaud, held)
    }

    ghost predicate Valid()
      reads this
    {
      gen > 0 && Inv(View())
    }

    constructor ()
      ensures Valid() && refs == 0 && gen == 1 && quiesce == 0 && held == multiset{}
    {
      refs, gen, quiesce, open, which, baud, erpcBaud := 0, 1, 0, false, At, 0, ERPC_BAUD_DEFAULT;
      held := multiset{};
    }

    /** Join the open configuration, or open it. */
    method TakeRef(port: Uart, rate: nat, opens: bool) returns (ok: bool)
      requires Valid()
      modifies this
      ensures Valid() && View() == Step(old(View()), Ref(port, rate, opens))
      ensures ok <==> TookRef(old(View()), Ref(port, rate, opens))
      ensures ok <==> if old(refs) != 0 then port == old(which) && rate == old(baud) else opens
      ensures ok ==> refs == old(refs) + 1 && which == port && baud == rate
      ensures ok && old(refs) == 0 ==> open && gen == old(gen) + 1
      ensures ok ==> gen in held && held == old(held) + multiset{gen}
      ensures !ok ==> View() == old(View())
      ensures quiesce == old(quiesce) && gen >= old(gen) && (old(gen) in old(held) ==> gen == old(gen))
    {
      hide Inv, TookRef;
      StepKeepsInv(View(), Ref(port, rate, opens));
      CountIsHeld(View());
      TookRefIff(View(), Ref(port, rate, opens));
      if refs != 0 {
        ok := port == which && rate == baud;
        if ok {
          refs := refs + 1;
          held := held + multiset{gen};
        }
        return;
      }
      if !opens { return false; }
      which, baud, refs, gen, open, ok := port, rate, 1, gen + 1, true, true;
      held := held + multiset{gen};
    }

    /** One reference fewer, and the last one closes the UART. */
    method DropOne()
      modifies `refs, `open
      ensures View() == Dropped(old(View())) && held == old(held) && gen == old(gen)
    {
      if refs != 0 {
        refs := refs - 1;
        if refs == 0 { open := false; }
      }
    }

    /** The plain release, for the section that took the reference. */
    method Release(ghost taken: nat)
      requires Valid() && Honest(View(), Unref(taken))
      modifies this
      ensures Valid() && View() == Step(old(View()), Unref(taken))
      ensures gen == old(gen) && quiesce == old(quiesce) && held == old(held) - multiset{taken}
      ensures refs == (if old(refs) == 0 then 0 else old(refs) - 1)
      ensures open == (old(open) && refs > 0)
    {
      hide Inv, Honest;
      StepKeepsInv(View(), Unref(taken));
      DropOne();
      held := held - multiset{taken};
    }

    /** The release a resident uses: nothing happens unless its generation is current. */
    method ReleaseGen(taken: nat)
      requires Valid()
      modifies this
      ensures Valid() && View() == Step(old(View()), UnrefGen(taken))
      ensures gen == old(gen) && quiesce == old(quiesce) && held == old(held) - multiset{taken}
      ensures taken != old(gen) ==> refs == old(refs) && open == old(open)
      ensures taken == old(gen) ==> refs == if old(refs) == 0 then 0 else old(refs) - 1
      ensures taken == old(gen) ==> open == (old(open) && refs > 0)
    {
      hide Inv, Honest;
      StepKeepsInv(View(), UnrefGen(taken));
      if taken == gen { DropOne(); }
      held := held - multiset{taken};
    }

    method ChangeRate(rate: nat, opens: bool) returns (ok: bool)
      requires Valid()
      modifies this
      ensures Valid() && View() == Step(old(View()), Rebaud(rate, opens))
      ensures ok <==> refs != 0 && opens
      ensures ok ==> open && baud == erpcBaud == rate
      ensures !ok ==> baud == old(baud) && erpcBaud == old(erpcBaud) && (refs != 0 ==> !open)
      ensures gen == old(gen) && quiesce == old(quiesce) && refs == old(refs) && held == old(held)
    {
      ok := false;
      if refs != 0 {
        open := opens;
        if opens { baud, erpcBaud, ok := rate, rate, true; }
      }
    }

    method TakeAway()
      requires Valid()
      modifies this
      ensures Valid() && View() == Step(old(View()), ForceQuiesce)
      ensures gen == old(gen) + 1 && quiesce == old(quiesce) + 1 && held == old(held)
      ensures refs == 0 && !open && erpcBaud == ERPC_BAUD_DEFAULT
    {
      StepKeepsInv(View(), ForceQuiesce);
      refs, gen, quiesce, open, erpcBaud := 0, gen + 1, quiesce + 1, false, ERPC_BAUD_DEFAULT;
    }
  }
}
