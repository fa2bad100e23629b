/** Whole runs of the driver: what holds of every run of the protocol holds of the driver. */
module System {
  import opened Words
  import opened Protocol
  import opened Runs
  import opened RegisterWrites
  import opened Vgic
  import opened Boot
  import opened Masking
  import opened Invariants
  import opened Saturation

  /** Interrupt numbers stay inside the bitmaps. */
  predicate InRange(a: Action) {
    match a
    case Register(irq, _) => irq < NUM_IRQS
    case Vppi(irq) => irq < NUM_IRQS
    case Enable(irq) => irq < NUM_IRQS
    case Disable(irq) => irq < NUM_IRQS
    case Pend(irq) => irq < NUM_IRQS
    case Unpend(irq) => irq < NUM_IRQS
    case Sgi(intid) => intid < NUM_SGI_VIRQS
    case _ => true
  }

  /** The kernel's part of a run: masking a source, completing a list register. */
  method PerformKernel(d: Driver, a: Action)
    requires d.Valid() && (a.Raise? || a.Complete?)
    modifies d`kernel
    ensures d.Valid() && d.Abs() == Act(old(d.Abs()), a)
  {
    match a {
      case Raise(irq) =>
        d.kernel := d.kernel.(masked := d.kernel.masked + {irq}, signalled := d.kernel.signalled + {irq});
      case Complete(idx) =>
        if idx < NUM_LIST_REGS {
          d.kernel := d.kernel.(lrs := d.kernel.lrs[idx := VIRQ_INVALID], eoi := d.kernel.eoi + {idx});
        }
    }
  }

  lemma CtlrIsStep(s: State, on: bool)
    ensures Exec(s, CtlrActions(if on then {0} else {})) == Step(s, SetCtlr(on))
  {
    ExecOne(s, SetCtlr(on));
  }

  /** One event, handled by the driver's own code. */
  method Perform(d: Driver, a: Action)
    requires d.Valid() && InRange(a)
    modifies d.Repr()
    ensures d.Valid() && d.Abs() == Step(old(d.Abs()), a)
  {
    if !d.IsRunning() {
      return;
    }
    match a {
      case Register(irq, ack) => var _ := d.VirqAdd(Handle(irq, ack));
      case Raise(_) => PerformKernel(d, a);
      case Complete(_) => PerformKernel(d, a);
      case Vppi(irq) => d.HandleVppiEvent(irq);
      case Serial => d.HandleSerialNotification();
      case Maintenance(idx, garbage) => var _ := d.HandleMaintenance(idx, garbage);
      case SetCtlr(on) =>
        CtlrIsStep(d.Abs(), on);
        d.WriteCtlr(if on then {0} else {});
      case Sgi(intid) => var _ := d.DistSetPendingIrq(intid);
      case WriteSgiPending => d.Halt(Unimplemented);
      case Enable(irq) => d.ApplyBit(ISENABLER, irq);
      case Disable(irq) => d.ApplyBit(ICENABLER, irq);
      case Pend(irq) => d.ApplyBit(ISPENDR, irq);
      case Unpend(irq) => d.ApplyBit(ICPENDR, irq);
    }
  }

  /** Any run of the driver is that run of the protocol. */
  method PerformAll(d: Driver, acts: seq<Action>)
    requires d.Valid() && forall i :: 0 <= i < |acts| ==> InRange(acts[i])
    modifies d.Repr()
    ensures d.Valid() && d.Abs() == Exec(old(d.Abs()), acts)
  {
    hide Step, Driver.Valid, Driver.Abs, InRange;
    for i := 0 to |acts|
      invariant d.Valid() && Exec(d.Abs(), acts[i..]) == Exec(old(d.Abs()), acts)
    {
      assert acts[i..][1..] == acts[i + 1..];
      Perform(d, acts[i]);
    }
  }

  // ---------------------------------------------------------------- the booted system

  lemma {:induction false} PossibleInRange(s: State, acts: seq<Action>)
    requires PossibleRun(s, acts) && forall i :: 0 <= i < |acts| ==> Tame(acts[i])
    ensures forall i :: 0 <= i < |acts| ==> InRange(acts[i])
    decreases |acts|
  {
    hide Step;
    if acts != [] {
      assert Tame(acts[0]);
      PossibleInRange(Step(s, acts[0]), acts[1..]);
      forall i | 0 <= i < |acts| ensures InRange(acts[i]) {
        assert i > 0 ==> acts[i] == acts[1..][i - 1];
      }
    }
  }

  /** `init` followed by any run of a guest that does not clear pending flags: the overflow ring is
      empty after every such run, and the driver is running if and only if no action was fatal. */
  method BootAndRun(acts: seq<Action>) returns (d: Driver)
    requires PossibleRun(Booted(), acts) && forall i :: 0 <= i < |acts| ==> Tame(acts[i])
    ensures d.Valid() && d.Abs() == Exec(Booted(), acts)
    ensures d.ring.head == d.ring.tail
    ensures d.status.Running? <==> NoneFatal(acts)
  {
    hide Exec, PossibleRun, Init, Tame, NoneFatal, TablesOk, InBitmaps, RefsInRange;
    PossibleInRange(Booted(), acts);
    BootedNeverQueues(acts);
    d := new Driver();
    PerformAll(d, BOOT_ACTIONS);
    PerformAll(d, acts);
  }

  lemma FreshBank(d: Driver)
    requires d.Valid() && d.Abs() == Init()
    ensures d.status.Running? && d.enable.Valid() && d.enable.Bank(1) == {}
  {
    d.BanksAreFlags();
    assert d.enable.Bank(1) == BitsOf(Init().enabled, 1);
    assert forall b: nat :: b < 32 ==> !IsFlag(Init().enabled, 1, b);
  }

  lemma EnableStaysRunning(irqs: seq<nat>)
    ensures Exec(Init(), BitActions(ISENABLER, irqs)).status.Running?
  {
    InitInv();
    assert AllHandles(Init().tables, HasCallback);
    EnableAllKeeps(Init(), irqs);
  }

  /** Writes to bank 1 of ISENABLER do not read back: a fresh driver stores the word written, and the
      register reads as zero. */
  method EnableDoesNotReadBack(data: Word) returns (stored: Word, read: Word)
    ensures stored == data && read == {}
  {
    hide Init, Exec, BitActions, Irqs, DeliveredBits;
    var d := new Driver();
    FreshBank(d);
    d.WriteWord(ISENABLER, 1, data);
    EnableStaysRunning(Irqs(32, data));
    stored, read := d.enable.Bank(1), d.enable.ReadRegister(1);
  }
}
