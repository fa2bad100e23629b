/** How many interrupts the four list registers and the 63 usable ring slots can hold. */
module Capacity {
  import opened Protocol
  import opened Flight
  import opened Invariants
  import opened Runs

  const CAPACITY := NUM_LIST_REGS + QUEUE_CAPACITY

  /** The distinct interrupt numbers that are registered. */
  function RegisteredIrqs(t: Tables): set<int> {
    (set i | 0 <= i < NUM_VCPU_LOCAL_VIRQS && t.locals[i].Valid() :: t.locals[i].virq) +
    (set i | 0 <= i < NUM_SLOTS_SPI_VIRQ && t.spis[i].Valid() :: t.spis[i].virq)
  }

  lemma RegisteredIsMember(t: Tables, irq: int)
    ensures Registered(t, irq) <==> irq in RegisteredIrqs(t)
  {
    if Registered(t, irq) {
      var r :| Deref(t, r).Valid() && Deref(t, r).virq == irq;
    }
    if i :| 0 <= i < NUM_VCPU_LOCAL_VIRQS && t.locals[i].Valid() && t.locals[i].virq == irq {
      assert Deref(t, Local(i)).virq == irq;
    } else if i :| 0 <= i < NUM_SLOTS_SPI_VIRQ && t.spis[i].Valid() && t.spis[i].virq == irq {
      assert Deref(t, Spi(i)).virq == irq;
    }
  }

  lemma FlightIsRegistered(s: State, irq: int)
    requires Inv(s) && irq in InFlight(s)
    ensures irq in RegisteredIrqs(s.tables)
  {
    BagMember(s.lrs, irq);
    if irq in Bag(s.lrs) {
      var i :| 0 <= i < |s.lrs| && s.lrs[i].Valid() && s.lrs[i].virq == irq;
      var r :| Deref(s.tables, r) == s.lrs[i];
    } else {
      assert irq in QueueIrqs(s.tables, s.queue);
      var i :| 0 <= i < |s.queue| && QueueIrqs(s.tables, s.queue)[i] == irq;
      assert Deref(s.tables, s.queue[i]).virq == irq;
    }
    assert Registered(s.tables, irq);
    RegisteredIsMember(s.tables, irq);
  }

  /** Pigeonhole: a bag without repetitions is no larger than a set that covers it. */
  lemma {:induction false} BagFits(m: multiset<int>, xs: set<int>)
    requires forall x :: x in m ==> x in xs && m[x] == 1
    ensures |m| <= |xs|
    decreases xs
  {
    if x :| x in m {
      var m' := m - multiset{x};
      BagFits(m', xs - {x});
    } else {
      assert forall x :: m[x] == 0;
      assert m == multiset{};
    }
  }

  /** Without duplicates, what is in flight fits in the set of registered interrupts,
      and an interrupt that is not pending takes a place of its own. */
  lemma FlightFits(s: State, irq: int)
    requires Inv(s) && Exact(s)
    ensures |InFlight(s)| <= |RegisteredIrqs(s.tables)|
    ensures Registered(s.tables, irq) && irq !in s.pending ==> |InFlight(s)| < |RegisteredIrqs(s.tables)|
  {
    var xs := RegisteredIrqs(s.tables);
    forall x | x in InFlight(s) ensures x in xs {
      FlightIsRegistered(s, x);
    }
    BagFits(InFlight(s), xs);
    if Registered(s.tables, irq) && irq !in s.pending {
      RegisteredIsMember(s.tables, irq);
      BagFits(InFlight(s), xs - {irq});
    }
  }

  /** The queue holds what the list registers cannot. */
  lemma QueueLength(s: State)
    requires Inv(s)
    ensures |s.queue| == if |InFlight(s)| <= NUM_LIST_REGS then 0 else |InFlight(s)| - NUM_LIST_REGS
  {
    InFlightSize(s);
    BagSize(s.lrs);
  }

  /** An injection that is not already pending overflows exactly when 67 copies are in flight. */
  lemma OverflowsWhenFull(s: State, irq: nat)
    requires Inv(s) && s.status.Running? && Admissible(s, irq)
    ensures Inject(s, irq).0.status == if |InFlight(s)| == CAPACITY then Overflow else Running
    ensures |InFlight(s)| <= CAPACITY
  {
    InjectCases(s, irq);
    QueueLength(s);
  }

  /** Where an overflow can come from: an admissible injection. */
  lemma OverflowIsInjection(s: State, irq: nat)
    requires Inv(s) && s.status.Running? && Inject(s, irq).0.status.Overflow?
    ensures Admissible(s, irq) && Registered(s.tables, irq) && irq !in s.pending
  {
    InjectCases(s, irq);
    assert Deref(s.tables, Find(s.tables, irq).value).Valid();
    FindNamesIrq(s.tables, irq);
  }

  lemma InjectOverflows(s: State, irq: nat)
    requires Inv(s) && Exact(s) && s.status.Running? && Inject(s, irq).0.status.Overflow?
    ensures |RegisteredIrqs(s.tables)| > CAPACITY
    ensures Inject(s, irq).0.tables == s.tables
  {
    OverflowIsInjection(s, irq);
    OverflowsWhenFull(s, irq);
    FlightFits(s, irq);
  }

  lemma StepOverflows(s: State, a: Action)
    requires Inv(s) && Exact(s) && s.status.Running? && Possible(s, a) && Step(s, a).status.Overflow?
    ensures |RegisteredIrqs(s.tables)| > CAPACITY && Step(s, a).tables == s.tables
  {
    match a
    case Pend(irq) => InjectOverflows(s, irq);
    case Sgi(intid) => InjectOverflows(s, intid);
    case Vppi(irq) => MessageOverflows(s, irq);
    case Serial => MessageOverflows(s, SERIAL_IRQ);
    case Maintenance(idx, garbage) => MaintainCases(s, idx, garbage); assert false;
    case _ => assert false;
  }

  lemma MessageOverflows(s: State, irq: nat)
    requires Inv(s) && Exact(s) && s.status.Running?
    requires Inject(TakeMessage(s, irq), irq).0.status.Overflow?
    ensures |RegisteredIrqs(s.tables)| > CAPACITY
    ensures Inject(TakeMessage(s, irq), irq).0.tables == s.tables
  {
    var k := TakeMessage(s, irq);
    QuietKeepsInv(s, k);
    InjectOverflows(k, irq);
  }

  /** Overflow bound: in every run without ICPENDR writes `vgic_irq_enqueue` can fail only once
      68 distinct interrupts are registered, one more than the registers and the ring hold. */
  lemma {:induction false} OverflowNeeds68(s: State, acts: seq<Action>)
    requires Inv(s) && Exact(s) && s.status.Running? && PossibleRun(s, acts) && NoUnpend(acts)
    ensures Exec(s, acts).status.Overflow? ==> |RegisteredIrqs(Exec(s, acts).tables)| >= 68
    decreases |acts|
  {
    if acts != [] {
      StepKeepsInv(s, acts[0]);
      StepKeepsExact(s, acts[0]);
      var s' := Step(s, acts[0]);
      if s'.status.Running? {
        OverflowNeeds68(s', acts[1..]);
      } else {
        StoppedStays(s', acts[1..]);
        if s'.status.Overflow? {
          StepOverflows(s, acts[0]);
        }
      }
    }
  }

  // ---------------------------------------------------------------- the bound is tight

  predicate GuestWrite(a: Action) {
    (a.Enable? || a.Disable? || a.Pend? || a.Unpend?) && a.irq < NUM_IRQS
  }

  /** The guest can write the bitmap registers in every state. */
  lemma {:induction false} GuestWritesPossible(s: State, acts: seq<Action>)
    requires forall i :: 0 <= i < |acts| ==> GuestWrite(acts[i])
    ensures PossibleRun(s, acts)
    decreases |acts|
  {
    if acts != [] {
      assert GuestWrite(acts[0]);
      GuestWritesPossible(Step(s, acts[0]), acts[1..]);
    }
  }

  lemma AdmitOne(s: State, irq: nat)
    requires Inv(s) && s.status.Running? && Admissible(s, irq) && |InFlight(s)| < CAPACITY
    ensures var s' := Inject(s, irq).0;
      && s'.status.Running? && Inv(s') && |InFlight(s')| == |InFlight(s)| + 1
      && s'.pending == s.pending + {irq as int}
      && s'.tables == s.tables && s'.on == s.on && s'.enabled == s.enabled && s'.kernel.eoi == s.kernel.eoi
  {
    OverflowsWhenFull(s, irq);
    InjectCases(s, irq);
  }

  /** Interrupts that the guest could pend now, one after the other. */
  ghost predicate Pendable(s: State, irqs: seq<nat>) {
    && (forall i :: 0 <= i < |irqs| ==> irqs[i] < NUM_IRQS && Admissible(s, irqs[i]))
    && forall i, j :: 0 <= i < j < |irqs| ==> irqs[i] != irqs[j]
  }

  lemma PendOne(s: State, irq: nat, acts: seq<Action>)
    requires irq < NUM_IRQS && acts != [] && acts[0] == Pend(irq) && s.status.Running?
    ensures Exec(s, acts) == Exec(Inject(s, irq).0, acts[1..])
  {
    RunCons(s, acts);
  }

  lemma PendableTail(s: State, irqs: seq<nat>)
    requires Inv(s) && s.status.Running? && irqs != [] && Pendable(s, irqs) && |InFlight(s)| < CAPACITY
    ensures Pendable(Inject(s, irqs[0]).0, irqs[1..])
  {
    AdmitOne(s, irqs[0]);
  }

  /** The bound is tight: from any state, an ISPENDR burst of distinct deliverable interrupts
      stops the VMM exactly when it does not fit beside what is already in flight. */
  lemma {:induction false} BurstOverflows(s: State, irqs: seq<nat>)
    requires Inv(s) && s.status.Running? && Pendable(s, irqs)
    ensures PossibleRun(s, BitActions(ISPENDR, irqs))
    ensures Exec(s, BitActions(ISPENDR, irqs)).status
         == if |InFlight(s)| + |irqs| <= CAPACITY || irqs == [] then Running else Overflow
    decreases |irqs|
  {
    GuestWritesPossible(s, BitActions(ISPENDR, irqs));
    if irqs != [] {
      var acts := BitActions(ISPENDR, irqs);
      var s' := Inject(s, irqs[0]).0;
      PendOne(s, irqs[0], acts);
      assert acts[1..] == BitActions(ISPENDR, irqs[1..]);
      OverflowsWhenFull(s, irqs[0]);
      if |InFlight(s)| < CAPACITY {
        AdmitOne(s, irqs[0]);
        PendableTail(s, irqs);
        BurstOverflows(s', irqs[1..]);
      } else {
        StoppedStays(s', acts[1..]);
      }
    }
  }

  /** `n` rounds of setting and clearing one pending flag. */
  function Toggle(irq: nat, n: nat): seq<Action> {
    seq(2 * n, i => if i % 2 == 0 then Pend(irq) else Unpend(irq))
  }

  function Unpended(s: State, irq: int): State {
    s.(pending := s.pending - {irq})
  }

  lemma UnpendAgain(s: State, irq: nat) returns (s': State)
    requires Inv(s) && s.status.Running? && Admissible(s, irq) && |InFlight(s)| < CAPACITY
    ensures Inject(s, irq).0.status.Running? && s' == Unpended(Inject(s, irq).0, irq)
    ensures s'.status.Running? && Inv(s') && Admissible(s', irq) && |InFlight(s')| == |InFlight(s)| + 1
    ensures s'.tables == s.tables && s'.kernel.eoi == s.kernel.eoi
  {
    AdmitOne(s, irq);
    s' := Unpended(Inject(s, irq).0, irq);
    QuietKeepsInv(Inject(s, irq).0, s');
  }

  lemma ToggleOne(s: State, s': State, irq: nat, n: nat)
    requires irq < NUM_IRQS && n > 0 && s.status.Running? && Inject(s, irq).0.status.Running?
    requires s' == Unpended(Inject(s, irq).0, irq)
    ensures Exec(s, Toggle(irq, n)) == Exec(s', Toggle(irq, n - 1))
  {
    var acts := Toggle(irq, n);
    PendOne(s, irq, acts);
    assert acts[1..][0] == Unpend(irq) && acts[1..][1..] == Toggle(irq, n - 1);
    RunCons(Inject(s, irq).0, acts[1..]);
  }

  lemma ToggleStops(s: State, irq: nat, n: nat)
    requires irq < NUM_IRQS && n > 0 && s.status.Running? && !Inject(s, irq).0.status.Running?
    ensures Exec(s, Toggle(irq, n)) == Inject(s, irq).0
  {
    var acts := Toggle(irq, n);
    PendOne(s, irq, acts);
    StoppedStays(Inject(s, irq).0, acts[1..]);
  }

  /** With ICPENDR writes the bound fails: a single deliverable interrupt, pended and unpended
      until the copies no longer fit, overflows the queue. */
  lemma {:induction false} ToggleOverflows(s: State, irq: nat, n: nat)
    requires Inv(s) && s.status.Running? && irq < NUM_IRQS && Admissible(s, irq)
    ensures PossibleRun(s, Toggle(irq, n))
    ensures Exec(s, Toggle(irq, n)).status == if |InFlight(s)| + n <= CAPACITY || n == 0 then Running else Overflow
    ensures var s' := Exec(s, Toggle(irq, n));
      s'.status.Running? ==>
        Inv(s') && |InFlight(s')| == |InFlight(s)| + n && s'.tables == s.tables && s'.kernel.eoi == s.kernel.eoi
    decreases n
  {
    hide Step, Core, Admissible, Inject;
    GuestWritesPossible(s, Toggle(irq, n));
    if n > 0 {
      OverflowsWhenFull(s, irq);
      if |InFlight(s)| < CAPACITY {
        var s' := UnpendAgain(s, irq);
        ToggleOne(s, s', irq, n);
        ToggleOverflows(s', irq, n - 1);
      } else {
        ToggleStops(s, irq, n);
      }
    }
  }
}
