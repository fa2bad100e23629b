/** The overflow bound is exact: 68 registered interrupts are enough to exceed it. */
module Saturation {
  import opened Protocol
  import opened Flight
  import opened Invariants
  import opened Runs
  import opened Capacity
  import opened Masking
  import opened Boot

  lemma {:induction false} EnableAllKeeps(s: State, irqs: seq<nat>)
    requires Inv(s) && s.status.Running? && AllHandles(s.tables, HasCallback)
    ensures var s' := Exec(s, BitActions(ISENABLER, irqs));
      && s'.status.Running? && Inv(s') && InFlight(s') == InFlight(s)
      && s'.tables == s.tables && s'.on == s.on && s'.pending == s.pending
      && s.enabled <= s'.enabled && forall i :: 0 <= i < |irqs| ==> irqs[i] in s'.enabled
    decreases |irqs|
  {
    if irqs != [] {
      hide Step, Inv, InFlight, AllHandles;
      var acts := BitActions(ISENABLER, irqs);
      var m := EnableStep(s, irqs[0]);
      RunCons(s, acts);
      assert acts[1..] == BitActions(ISENABLER, irqs[1..]);
      EnableAllKeeps(m, irqs[1..]);
      forall i | 0 <= i < |irqs| ensures irqs[i] in Exec(s, acts).enabled {
        assert i > 0 ==> irqs[i] == irqs[1..][i - 1];
      }
    }
  }

  lemma EnableStep(s: State, irq: nat) returns (s': State)
    requires Inv(s) && s.status.Running? && AllHandles(s.tables, HasCallback)
    ensures s' == Step(s, Enable(irq)) && s'.status.Running? && Inv(s') && InFlight(s') == InFlight(s)
    ensures s'.tables == s.tables && s'.on == s.on && s'.pending == s.pending
    ensures s'.enabled == s.enabled + {irq as int}
  {
    s' := EnableIrq(s, irq);
    EnableIsQuiet(s, irq);
    EnableStatus(s, irq);
    EnableOnlyUnmasks(s, irq);
  }

  /** Switch the distributor on, then enable and pend every interrupt. */
  function PendEverything(irqs: seq<nat>): seq<Action> {
    [SetCtlr(true)] + (BitActions(ISENABLER, irqs) + BitActions(ISPENDR, irqs))
  }

  ghost predicate Distinct(irqs: seq<nat>) {
    forall i, j :: 0 <= i < j < |irqs| ==> irqs[i] != irqs[j]
  }

  /** The overflow bound is exact: once 68 distinct interrupts are registered, a guest with nothing
      in flight can overflow the queue by switching the distributor on, enabling and pending them. */
  lemma SixtyEightOverflow(s: State, irqs: seq<nat>)
    requires Inv(s) && s.status.Running? && AllHandles(s.tables, HasCallback) && InFlight(s) == multiset{}
    requires |irqs| == 68 && Distinct(irqs)
    requires forall i :: 0 <= i < 68 ==> irqs[i] < NUM_IRQS && Registered(s.tables, irqs[i])
    ensures PossibleRun(s, PendEverything(irqs)) && Exec(s, PendEverything(irqs)).status.Overflow?
  {
    hide Step, Inv, InFlight, AllHandles, Registered, Exec, PossibleRun, BitActions;
    var on := SwitchedOn(s);
    EnabledOverflow(on, irqs);
    RunOne(s, SetCtlr(true));
    ExecAppend(s, [SetCtlr(true)], BitActions(ISENABLER, irqs) + BitActions(ISPENDR, irqs));
    PossibleAppend(s, [SetCtlr(true)], BitActions(ISENABLER, irqs) + BitActions(ISPENDR, irqs));
  }

  lemma EnablesPossible(s: State, irqs: seq<nat>)
    requires forall i :: 0 <= i < |irqs| ==> irqs[i] < NUM_IRQS
    ensures PossibleRun(s, BitActions(ISENABLER, irqs))
  {
    GuestWritesPossible(s, BitActions(ISENABLER, irqs));
  }

  lemma EnabledOverflow(s: State, irqs: seq<nat>)
    requires Inv(s) && s.status.Running? && AllHandles(s.tables, HasCallback) && InFlight(s) == multiset{}
    requires s.on && s.pending == {} && |irqs| == 68 && Distinct(irqs)
    requires forall i :: 0 <= i < 68 ==> irqs[i] < NUM_IRQS && Registered(s.tables, irqs[i])
    ensures var acts := BitActions(ISENABLER, irqs) + BitActions(ISPENDR, irqs);
      PossibleRun(s, acts) && Exec(s, acts).status.Overflow?
  {
    hide Step, Inv, InFlight, AllHandles, Registered, Admissible, Exec, PossibleRun, BitActions;
    EnableAllKeeps(s, irqs);
    EnablesPossible(s, irqs);
    var m := Exec(s, BitActions(ISENABLER, irqs));
    forall i | 0 <= i < 68 ensures Admissible(m, irqs[i]) {
      AdmissibleNow(m, irqs[i]);
    }
    BurstOverflows(m, irqs);
    ExecAppend(s, BitActions(ISENABLER, irqs), BitActions(ISPENDR, irqs));
    PossibleAppend(s, BitActions(ISENABLER, irqs), BitActions(ISPENDR, irqs));
  }

  lemma SwitchedOn(s: State) returns (s': State)
    requires Inv(s) && s.status.Running? && InFlight(s) == multiset{}
    ensures s' == Step(s, SetCtlr(true)) && s'.status.Running? && Inv(s') && InFlight(s') == multiset{}
    ensures s'.tables == s.tables && s'.on && s'.pending == {}
  {
    s' := s.(on := true);
    QuietKeepsInv(s, s');
    assert forall irq :: irq in s.pending ==> irq in InFlight(s);
  }

  lemma AdmissibleNow(s: State, irq: nat)
    requires Inv(s) && Registered(s.tables, irq) && s.on && irq in s.enabled && irq !in s.pending
    ensures Admissible(s, irq)
  {
    FindRegistered(s.tables, irq);
  }

  // ---------------------------------------------------------------- from reset

  /** The shared interrupts 32, 33, ... */
  function Shared(n: nat): seq<nat> {
    seq(n, i => NUM_VCPU_LOCAL_VIRQS + i)
  }

  function RegisterShared(n: nat): seq<Action> {
    seq(n, i requires 0 <= i < n => Register(NUM_VCPU_LOCAL_VIRQS + i, SgiAck))
  }

  /** The state with the first `n` slots of the SPI list in use. */
  function WithShared(n: nat): (s: State)
    requires n <= NUM_SLOTS_SPI_VIRQ
  {
    Init().(tables := Init().tables.(spis :=
      seq(NUM_SLOTS_SPI_VIRQ, i => if i < n then Handle(NUM_VCPU_LOCAL_VIRQS + i, SgiAck) else NO_HANDLE)))
  }

  lemma RegisterNext(n: nat)
    requires n < NUM_SLOTS_SPI_VIRQ
    ensures Step(WithShared(n), Register(NUM_VCPU_LOCAL_VIRQS + n, SgiAck)) == WithShared(n + 1)
  {
    var t, h := WithShared(n).tables, Handle(NUM_VCPU_LOCAL_VIRQS + n, SgiAck);
    assert t.spis[n] == NO_HANDLE && FirstFree(t.spis, 0).value == n;
    assert t.spis[n := h] == WithShared(n + 1).tables.spis;
  }

  /** Registering `n` shared interrupts from reset fills the first `n` slots. */
  lemma {:induction false} RegistersShared(n: nat)
    requires n <= NUM_SLOTS_SPI_VIRQ
    ensures PossibleRun(Init(), RegisterShared(n)) && Exec(Init(), RegisterShared(n)) == WithShared(n)
  {
    if n == 0 {
      assert WithShared(0).tables.spis == Init().tables.spis;
    } else {
      hide Step, Exec, PossibleRun, WithShared, Init;
      var a := Register(NUM_VCPU_LOCAL_VIRQS + n - 1, SgiAck);
      RegistersShared(n - 1);
      RegisterNext(n - 1);
      assert RegisterShared(n) == RegisterShared(n - 1) + [a];
      RunOne(WithShared(n - 1), a);
      ExecAppend(Init(), RegisterShared(n - 1), [a]);
      PossibleAppend(Init(), RegisterShared(n - 1), [a]);
    }
  }

  lemma SharedRegistered(n: nat, i: nat)
    requires i < n <= NUM_SLOTS_SPI_VIRQ
    ensures Registered(WithShared(n).tables, NUM_VCPU_LOCAL_VIRQS + i)
  {
    assert Deref(WithShared(n).tables, Spi(i)) == Handle(NUM_VCPU_LOCAL_VIRQS + i, SgiAck);
  }

  lemma SharedIdle(n: nat)
    requires n <= NUM_SLOTS_SPI_VIRQ
    ensures var s := WithShared(n);
      Inv(s) && s.status.Running? && AllHandles(s.tables, HasCallback) && InFlight(s) == multiset{}
  {
    BagEmpty(NoHandles(NUM_LIST_REGS));
  }

  /** A run from reset that overflows the queue: 68 registrations, then the guest's writes. */
  lemma OverflowFromReset()
    ensures var acts := RegisterShared(68) + PendEverything(Shared(68));
      PossibleRun(Init(), acts) && NoUnpend(acts) && Exec(Init(), acts).status.Overflow?
  {
    hide Step, Exec, PossibleRun, WithShared, Init, Inv, InFlight, AllHandles, Registered;
    RegistersShared(68);
    SharedIdle(68);
    forall i | 0 <= i < 68 ensures Registered(WithShared(68).tables, Shared(68)[i]) {
      SharedRegistered(68, i);
    }
    SixtyEightOverflow(WithShared(68), Shared(68));
    ExecAppend(Init(), RegisterShared(68), PendEverything(Shared(68)));
    PossibleAppend(Init(), RegisterShared(68), PendEverything(Shared(68)));
  }
}
