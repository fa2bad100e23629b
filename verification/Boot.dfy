/** The configuration that `init` sets up, and when the VMM survives. */
module Boot {
  import opened Options
  import opened Protocol
  import opened Flight
  import opened Invariants
  import opened Runs
  import opened Capacity
  import opened Masking

  /** The state after the four registrations of `init`. */
  function Booted(): State {
    Exec(Init(), BOOT_ACTIONS)
  }

  lemma RegisterLocal(s: State, irq: nat, ack: AckFn)
    requires s.status.Running? && irq < NUM_VCPU_LOCAL_VIRQS && !s.tables.locals[irq].Valid()
    ensures Step(s, Register(irq, ack))
         == s.(tables := s.tables.(locals := s.tables.locals[irq := Handle(irq, ack)]))
  {
  }

  lemma BootedTables()
    ensures Booted() == Init().(tables := Tables(
              Init().tables.locals[27 := Handle(27, VppiAck)][0 := Handle(0, SgiAck)][1 := Handle(1, SgiAck)],
              Init().tables.spis[0 := Handle(SERIAL_IRQ, SerialAck)]))
  {
    var s0 := Init();
    RegisterLocal(s0, 27, VppiAck);
    var s1 := Step(s0, BOOT_ACTIONS[0]);
    RegisterLocal(s1, 0, SgiAck);
    var s2 := Step(s1, BOOT_ACTIONS[1]);
    RegisterLocal(s2, 1, SgiAck);
    var s3 := Step(s2, BOOT_ACTIONS[2]);
    assert FirstFree(s3.tables.spis, 0) == Some(0);
    var s4 := Step(s3, BOOT_ACTIONS[3]);
    RunCons(s3, BOOT_ACTIONS[3..]);
    RunCons(s2, BOOT_ACTIONS[2..]);
    RunCons(s1, BOOT_ACTIONS[1..]);
    RunCons(s0, BOOT_ACTIONS);
  }

  /** A registration of one of the four interrupts that `init` registers, with a callback. */
  predicate BootHandle(h: Handle) {
    h.virq in {0, 1, 27, SERIAL_IRQ} && PpiWired(h) && SerialWired(h) && HasCallback(h)
  }

  lemma BootedHandles()
    ensures AllHandles(Booted().tables, BootHandle) && Registered(Booted().tables, SERIAL_IRQ)
    ensures AllHandles(Booted().tables, SourceWired)
  {
    BootedTables();
    var t := Booted().tables;
    assert Deref(t, Spi(0)) == Handle(SERIAL_IRQ, SerialAck);
  }

  lemma BootedInv()
    ensures Booted().status.Running? && Inv(Booted()) && Exact(Booted())
    ensures Booted().kernel == Init().kernel && Booted().pending == {} && !Booted().on && Booted().queue == []
    ensures forall irq :: irq in Booted().enabled <==> 0 <= irq < 16
  {
    BootedTables();
    InitInv();
    BagEmpty(NoHandles(NUM_LIST_REGS));
  }

  // ---------------------------------------------------------------- why the VMM stops

  /** The action injects a shared interrupt that has no registration. */
  ghost predicate InjectsUnregistered(s: State, a: Action) {
    match a
    case Pend(irq) => irq >= NUM_VCPU_LOCAL_VIRQS && !Registered(s.tables, irq)
    case Serial => !Registered(s.tables, SERIAL_IRQ)
    case _ => false
  }

  lemma FindFails(t: Tables, irq: nat)
    requires TablesOk(t)
    ensures Find(t, irq).None? <==> irq >= NUM_VCPU_LOCAL_VIRQS && !Registered(t, irq)
  {
    FindRegistered(t, irq);
  }

  lemma InjectStatus(s: State, irq: nat)
    requires Inv(s) && s.status.Running?
    ensures var st := Inject(s, irq).0.status;
      && !st.AssertFailed? && !st.Unanswered? && !st.Unimplemented?
      && (st.NullHandle? <==> irq >= NUM_VCPU_LOCAL_VIRQS && !Registered(s.tables, irq))
  {
    InjectCases(s, irq);
    FindFails(s.tables, irq);
  }

  lemma MessageStatus(s: State, irq: nat)
    requires Inv(s) && s.status.Running?
    ensures var st := Inject(TakeMessage(s, irq), irq).0.status;
      && !st.AssertFailed? && !st.Unanswered? && !st.Unimplemented?
      && (st.NullHandle? <==> irq >= NUM_VCPU_LOCAL_VIRQS && !Registered(s.tables, irq))
  {
    QuietKeepsInv(s, TakeMessage(s, irq));
    InjectStatus(TakeMessage(s, irq), irq);
  }

  lemma EnableStatus(s: State, irq: nat)
    requires s.status.Running? && AllHandles(s.tables, HasCallback)
    ensures EnableIrq(s, irq).status.Running?
  {
  }

  /** What stops the VMM while every registration has a callback. No assertion on handles, list
      registers and callbacks ever fails; the last assertion of maintenance fails exactly when
      interrupts wait in the queue or `err` started non-zero; a NULL handle is followed exactly
      when the action injects a shared interrupt that is not registered. */
  lemma StepStatus(s: State, a: Action)
    requires Inv(s) && s.status.Running? && Possible(s, a) && AllHandles(s.tables, HasCallback)
    ensures !Step(s, a).status.AssertFailed?
    ensures Step(s, a).status.Unanswered? <==> a.Maintenance? && (|InFlight(s)| > NUM_LIST_REGS || a.garbage != 0)
    ensures Step(s, a).status.Unimplemented? <==> a.WriteSgiPending?
    ensures Step(s, a).status.NullHandle? <==> InjectsUnregistered(s, a)
  {
    QueueLength(s);
    hide Inject, Maintain, EnableIrq;
    match a
    case Pend(irq) => InjectStatus(s, irq);
    case Sgi(intid) => InjectStatus(s, intid);
    case Vppi(irq) => MessageStatus(s, irq);
    case Serial => MessageStatus(s, SERIAL_IRQ);
    case Maintenance(idx, garbage) => MaintainCases(s, idx, garbage); assert HasCallback(s.lrs[idx]);
    case Enable(irq) => EnableStatus(s, irq);
    case _ =>
  }

  // ---------------------------------------------------------------- maintenance replies

  /** Maintenance replies to the fault exactly when nothing waits in the queue (at most four
      copies in flight) and the uninitialised `err` happens to be zero: a successful refill
      counts as a failure, and the VMM hangs. */
  lemma RepliesWithoutRefill(s: State, idx: nat, garbage: int)
    requires Inv(s) && s.status.Running? && idx in s.kernel.eoi
    ensures idx < NUM_LIST_REGS && s.lrs[idx].Valid()
    ensures MaintenanceReplies(s, idx, garbage) <==> |InFlight(s)| <= NUM_LIST_REGS && garbage == 0
    ensures Step(s, Maintenance(idx, garbage)).status.Running?
       <==> MaintenanceReplies(s, idx, garbage) && HasCallback(s.lrs[idx])
  {
    hide Inv, Core, InFlight, Known, Maintain, MaintenanceReplies;
    QueueLength(s);
    RefillFails(s, idx, garbage);
    MaintainCases(s, idx, garbage);
  }

  lemma RefillFails(s: State, idx: nat, garbage: int)
    requires Inv(s) && idx in s.kernel.eoi
    ensures idx < NUM_LIST_REGS
    ensures MaintenanceReplies(s, idx, garbage) <==> s.queue == [] && garbage == 0
  {
    RetireKeepsCore(s, Retire(s, idx), idx);
    RetireFields(s, idx);
    if s.queue != [] {
      LoadKeepsCore(Retire(s, idx), idx);
    }
  }

  // ---------------------------------------------------------------- runs of the booted system

  /** What the guest and the environment may do: anything but clear pending flags or register
      further interrupts. */
  predicate Tame(a: Action) {
    && !a.Unpend?
    && (a.Register? ==> BootHandle(Handle(a.irq, a.ack)))
  }

  ghost predicate Good(s: State) {
    && Inv(s) && Exact(s) && AllHandles(s.tables, BootHandle) && Registered(s.tables, SERIAL_IRQ)
  }

  /** The three things that stop a booted VMM: non-zero garbage in `err`, a write to an unimplemented
      register, and pending a shared interrupt that `init` did not register. */
  predicate Fatal(a: Action) {
    || (a.Maintenance? && a.garbage != 0)
    || a.WriteSgiPending?
    || (a.Pend? && a.irq >= NUM_VCPU_LOCAL_VIRQS && a.irq != SERIAL_IRQ)
  }

  lemma FewRegistered(t: Tables)
    requires AllHandles(t, BootHandle)
    ensures |RegisteredIrqs(t)| <= 4
  {
    var four := {0, 1, 27, SERIAL_IRQ};
    forall irq | irq in RegisteredIrqs(t) ensures irq in four {
      RegisteredIsMember(t, irq);
      var r :| Deref(t, r).Valid() && Deref(t, r).virq == irq;
      assert BootHandle(Deref(t, r));
    }
    SubsetSize(RegisteredIrqs(t), four);
  }

  lemma SubsetSize(a: set<int>, b: set<int>)
    requires a <= b
    ensures |a| <= |b|
  {
    assert b == a + (b - a);
  }

  lemma StepKeepsRegistered(s: State, a: Action, irq: int)
    requires Inv(s) && s.status.Running? && Possible(s, a) && Registered(s.tables, irq)
    ensures Step(s, a).status.Intact() ==> Registered(Step(s, a).tables, irq)
  {
    hide Step, Inv, Possible;
    if Step(s, a).status.Intact() {
      var r :| Deref(s.tables, r).Valid() && Deref(s.tables, r).virq == irq;
      StepKeepsSlots(s, a, r);
      assert Deref(Step(s, a).tables, r).virq == irq;
    }
  }

  lemma OnlySerialShared(t: Tables, irq: int)
    requires AllHandles(t, BootHandle) && Registered(t, SERIAL_IRQ) && irq >= NUM_VCPU_LOCAL_VIRQS
    ensures Registered(t, irq) <==> irq == SERIAL_IRQ
  {
    if Registered(t, irq) {
      var r :| Deref(t, r).Valid() && Deref(t, r).virq == irq;
      assert BootHandle(Deref(t, r));
    }
  }

  lemma FewInFlight(s: State)
    requires Inv(s) && Exact(s) && AllHandles(s.tables, BootHandle)
    ensures |InFlight(s)| <= NUM_LIST_REGS && s.queue == []
  {
    FewRegistered(s.tables);
    FlightFits(s, 0);
    QueueLength(s);
  }

  lemma NullHandleStep(s: State, a: Action)
    requires Good(s) && s.status.Running? && Possible(s, a) && InjectsUnregistered(s, a)
    ensures a.Pend? && Step(s, a) == s.(status := NullHandle)
  {
    FindFails(s.tables, a.irq);
    InjectCases(s, a.irq);
  }

  lemma GoodStatus(s: State, a: Action)
    requires Good(s) && s.status.Running? && Possible(s, a)
    ensures Step(s, a).status.Running? <==> !Fatal(a)
    ensures Step(s, a).status.Intact() || Step(s, a).status.NullHandle?
    ensures Step(s, a).status.NullHandle? ==> InjectsUnregistered(s, a)
  {
    hide Step, Inv, Exact, Registered, InFlight;
    assert AllHandles(s.tables, HasCallback);
    StepStatus(s, a);
    FewRegistered(s.tables);
    FewInFlight(s);
    if Step(s, a).status.Overflow? {
      StepOverflows(s, a);
      assert false;
    }
    if a.Pend? && a.irq >= NUM_VCPU_LOCAL_VIRQS {
      OnlySerialShared(s.tables, a.irq);
    }
  }

  lemma StepKeepsGood(s: State, a: Action)
    requires Good(s) && s.status.Running? && Possible(s, a) && Tame(a)
    ensures Good(Step(s, a)) && (Step(s, a).status.Running? <==> !Fatal(a))
  {
    hide Step, Inv, Exact, Registered, InFlight;
    GoodStatus(s, a);
    if Step(s, a).status.NullHandle? {
      NullHandleStep(s, a);
      StatusIrrelevant(s, Step(s, a));
    } else {
      StepKeepsInv(s, a);
      StepKeepsExact(s, a);
      StepKeepsHandles(s, a, BootHandle);
      StepKeepsRegistered(s, a, SERIAL_IRQ);
    }
  }

  lemma StatusIrrelevant(s: State, s': State)
    requires Good(s) && s' == s.(status := s'.status)
    ensures Good(s')
  {
    QuietKeepsInv(s, s');
    assert Exact(s');
  }

  ghost predicate NoneFatal(acts: seq<Action>) {
    forall i :: 0 <= i < |acts| ==> !Fatal(acts[i])
  }

  lemma {:induction false} RunKeepsGood(s: State, acts: seq<Action>)
    requires Good(s) && s.status.Running? && PossibleRun(s, acts) && forall i :: 0 <= i < |acts| ==> Tame(acts[i])
    ensures Good(Exec(s, acts)) && (Exec(s, acts).status.Running? <==> NoneFatal(acts))
    decreases |acts|
  {
    hide Step, Possible, Good, Fatal, Tame;
    if acts != [] {
      StepKeepsGood(s, acts[0]);
      if Step(s, acts[0]).status.Running? {
        RunKeepsGood(Step(s, acts[0]), acts[1..]);
        assert NoneFatal(acts) <==> NoneFatal(acts[1..]) by {
          assert forall i :: 0 < i < |acts| ==> acts[i] == acts[1..][i - 1];
        }
      } else {
        StoppedStays(Step(s, acts[0]), acts[1..]);
      }
    }
  }

  /** With the four interrupts that `init` registers and a guest that does not clear pending flags,
      the overflow queue is empty between events in every run, so maintenance never takes its
      refill branch. The VMM is running after a run if and only if no maintenance found garbage
      in `err` and the guest wrote no unimplemented register and pended no unregistered shared
      interrupt. */
  lemma BootedNeverQueues(acts: seq<Action>)
    requires PossibleRun(Booted(), acts) && forall i :: 0 <= i < |acts| ==> Tame(acts[i])
    ensures var s := Exec(Booted(), acts);
      && s.queue == [] && |InFlight(s)| <= NUM_LIST_REGS
      && (s.status.Running? <==> NoneFatal(acts))
  {
    hide Booted, PossibleRun, Exec, Inv, Exact, InFlight, AllHandles, Registered;
    BootedInv();
    BootedHandles();
    RunKeepsGood(Booted(), acts);
    FewInFlight(Exec(Booted(), acts));
  }

  // ---------------------------------------------------------------- a late switch-on

  /** The exclusion in the theorem about the serial interrupt is needed: the guest enables the
      interrupt while the distributor is off, the interrupt fires and is dropped, and switching
      the distributor on leaves it deliverable, masked and with nothing to acknowledge it. */
  lemma LateSwitchOnStrands()
    ensures var acts := [Enable(SERIAL_IRQ), Raise(SERIAL_IRQ), Serial, SetCtlr(true)];
      var s := Exec(Booted(), acts);
      && PossibleRun(Booted(), acts) && s.status.Running?
      && Stranded(s) && s.on && SERIAL_IRQ in s.enabled && !SerialLive(s)
  {
    var acts := [Enable(SERIAL_IRQ), Raise(SERIAL_IRQ), Serial, SetCtlr(true)];
    var s0 := Booted();
    BootedEnable();
    var s1 := s0.(enabled := s0.enabled + {SERIAL_IRQ as int});
    var s2 := RaiseSource(s1, SERIAL_IRQ);
    assert Deref(s2.tables, Find(s2.tables, SERIAL_IRQ).value) == Deref(s0.tables, Spi(0));
    var s3 := TakeMessage(s2, SERIAL_IRQ);
    assert Step(s2, Serial) == s3;
    RunCons(s3, acts[3..]);
    RunCons(s2, acts[2..]);
    RunCons(s1, acts[1..]);
    RunCons(s0, acts);
    SameFlight(s0, Step(s3, acts[3]));
  }

  lemma BootedEnable()
    ensures var s := Booted();
      && Step(s, Enable(SERIAL_IRQ)) == s.(enabled := s.enabled + {SERIAL_IRQ as int})
      && s.status.Running? && !s.on && s.kernel == Init().kernel
      && Find(s.tables, SERIAL_IRQ) == Some(Spi(0)) && Deref(s.tables, Spi(0)) == Handle(SERIAL_IRQ, SerialAck)
      && InFlight(s) == multiset{}
  {
    BootedTables();
    BagEmpty(NoHandles(NUM_LIST_REGS));
  }
}
