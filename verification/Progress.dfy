/** When interrupts in flight can be retired. */
module Progress {
  import opened Protocol
  import opened Flight
  import opened Invariants
  import opened Runs
  import opened Masking
  import opened Capacity
  import opened Boot

  function Maintenances(acts: seq<Action>): nat {
    if acts == [] then 0
    else (if acts[0].Maintenance? then 1 else 0) + Maintenances(acts[1..])
  }

  /** While anything is in flight, a list register can complete or is waiting for maintenance. */
  lemma SomethingToRetire(s: State)
    requires Inv(s) && InFlight(s) != multiset{}
    ensures exists idx: nat :: idx < NUM_LIST_REGS && (Possible(s, Complete(idx)) || Possible(s, Maintenance(idx, 0)))
  {
    if forall i :: 0 <= i < NUM_LIST_REGS ==> !s.lrs[i].Valid() {
      BagEmpty(s.lrs);
      assert false;
    }
    var idx :| 0 <= idx < NUM_LIST_REGS && s.lrs[idx].Valid();
    assert Possible(s, Complete(idx)) || Possible(s, Maintenance(idx, 0));
  }

  /** Completions and maintenance events alone. */
  ghost predicate OnlyRetires(acts: seq<Action>) {
    forall i :: 0 <= i < |acts| ==> acts[i].Complete? || acts[i].Maintenance?
  }

  /** Completions and maintenance alone take one copy out of flight per maintenance event;
      once all are gone every PPI is unmasked or has its message still to come. */
  lemma {:induction false} Drained(s: State, acts: seq<Action>, irq: int)
    requires Inv(s) && s.status.Running? && AllHandles(s.tables, PpiWired) && PossibleRun(s, acts)
    requires PpiLive(s, irq)
    requires OnlyRetires(acts)
    ensures var s' := Exec(s, acts);
      s'.status.Running? ==>
        && |InFlight(s')| + Maintenances(acts) == |InFlight(s)|
        && (Maintenances(acts) == |InFlight(s)| ==>
              (IsPpi(irq) && irq in s'.kernel.masked ==> irq in s'.kernel.signalled))
    decreases |acts|
  {
    hide Inv, Step, Possible, InFlight, AllHandles;
    if acts != [] {
      var s' := Step(s, acts[0]);
      if s'.status.Running? {
        StepKeepsInv(s, acts[0]);
        StepKeepsHandles(s, acts[0], PpiWired);
        StepKeepsPpiLive(s, acts[0], irq);
        StepMoves(s, acts[0]);
        Drained(s', acts[1..], irq);
      } else {
        StoppedStays(s', acts[1..]);
      }
    }
  }

  // ---------------------------------------------------------------- at most four copies

  lemma CompleteStep(s: State, idx: nat)
    requires Inv(s) && s.status.Running? && Possible(s, Complete(idx))
    ensures var s' := Step(s, Complete(idx));
      && s'.status.Running? && Inv(s') && InFlight(s') == InFlight(s) && s'.tables == s.tables
      && Possible(s', Maintenance(idx, 0))
  {
    CompleteKeepsInv(s, idx);
  }

  lemma MaintenanceStep(s: State, idx: nat)
    requires Inv(s) && s.status.Running? && AllHandles(s.tables, HasCallback) && Possible(s, Maintenance(idx, 0))
    requires |InFlight(s)| <= NUM_LIST_REGS
    ensures var s' := Step(s, Maintenance(idx, 0));
      && s'.status.Running? && Inv(s') && AllHandles(s'.tables, HasCallback)
      && |InFlight(s')| + 1 == |InFlight(s)|
  {
    QueueLength(s);
    MaintainCases(s, idx, 0);
    assert HasCallback(s.lrs[idx]);
  }

  /** Retire the interrupt of an occupied list register, after letting the guest complete it. */
  lemma RetireOne(s: State) returns (acts: seq<Action>)
    requires Inv(s) && s.status.Running? && AllHandles(s.tables, HasCallback)
    requires InFlight(s) != multiset{} && |InFlight(s)| <= NUM_LIST_REGS
    ensures PossibleRun(s, acts) && OnlyRetires(acts)
    ensures var s' := Exec(s, acts);
      && s'.status.Running? && Inv(s') && AllHandles(s'.tables, HasCallback)
      && |InFlight(s')| + 1 == |InFlight(s)|
  {
    hide Inv, Step, InFlight, AllHandles, Exec, PossibleRun, Possible;
    SomethingToRetire(s);
    var idx: nat :| idx < NUM_LIST_REGS && (Possible(s, Complete(idx)) || Possible(s, Maintenance(idx, 0)));
    if Possible(s, Maintenance(idx, 0)) {
      acts := [Maintenance(idx, 0)];
      MaintenanceStep(s, idx);
      RunOne(s, Maintenance(idx, 0));
    } else {
      acts := [Complete(idx), Maintenance(idx, 0)];
      CompleteStep(s, idx);
      MaintenanceStep(Step(s, Complete(idx)), idx);
      RunTwo(s, Complete(idx), Maintenance(idx, 0));
    }
  }

  /** The run retires everything in flight and leaves the VMM running. */
  ghost predicate Drains(s: State, acts: seq<Action>) {
    PossibleRun(s, acts) && OnlyRetires(acts) && Exec(s, acts).status.Running? && InFlight(Exec(s, acts)) == multiset{}
  }

  lemma {:induction false} DrainsFour(s: State) returns (acts: seq<Action>)
    requires Inv(s) && s.status.Running? && AllHandles(s.tables, HasCallback) && |InFlight(s)| <= NUM_LIST_REGS
    ensures Drains(s, acts)
    decreases |InFlight(s)|
  {
    if InFlight(s) == multiset{} {
      acts := [];
    } else {
      hide Inv, Step, Possible, InFlight, AllHandles;
      var first := RetireOne(s);
      var rest := DrainsFour(Exec(s, first));
      ExecAppend(s, first, rest);
      PossibleAppend(s, first, rest);
      acts := first + rest;
    }
  }

  // ---------------------------------------------------------------- more than four copies

  lemma StepOnceQueued(s: State, a: Action)
    requires Inv(s) && s.status.Running? && Possible(s, a) && |InFlight(s)| > NUM_LIST_REGS
    requires Step(s, a).status.Running?
    ensures !a.Maintenance? && Inv(Step(s, a)) && InFlight(s) <= InFlight(Step(s, a))
    ensures |InFlight(s)| <= |InFlight(Step(s, a))|
  {
    hide Inv, Step, InFlight;
    if a.Maintenance? {
      RepliesWithoutRefill(s, a.idx, a.garbage);
      assert false;
    }
    StepKeepsInv(s, a);
    StepMoves(s, a);
  }

  /** Once five copies are in flight nothing is ever retired again: no run that leaves the VMM
      running contains a maintenance event, whatever else the guest and the kernel do, and
      every copy stays in flight. */
  lemma {:induction false} NothingRetiredOnceQueued(s: State, acts: seq<Action>)
    requires Inv(s) && s.status.Running? && PossibleRun(s, acts) && |InFlight(s)| > NUM_LIST_REGS
    requires Exec(s, acts).status.Running?
    ensures InFlight(s) <= InFlight(Exec(s, acts))
    ensures |InFlight(Exec(s, acts))| > NUM_LIST_REGS
    ensures forall i :: 0 <= i < |acts| ==> !acts[i].Maintenance?
    decreases |acts|
  {
    hide Inv, Step, Possible, InFlight;
    if acts != [] {
      var s' := Step(s, acts[0]);
      if !s'.status.Running? {
        StoppedStays(s', acts[1..]);
        assert false;
      }
      StepOnceQueued(s, acts[0]);
      NothingRetiredOnceQueued(s', acts[1..]);
      assert forall i :: 0 < i < |acts| ==> acts[i] == acts[1..][i - 1];
    }
  }

  /** Completions and maintenance can empty the list registers and the queue, and leave the VMM
      running, if and only if at most four copies are in flight. */
  lemma DrainsIff(s: State)
    requires Inv(s) && s.status.Running? && AllHandles(s.tables, HasCallback)
    ensures (exists acts :: Drains(s, acts)) <==> |InFlight(s)| <= NUM_LIST_REGS
  {
    hide Inv, Exec, PossibleRun, InFlight, AllHandles;
    if |InFlight(s)| <= NUM_LIST_REGS {
      var acts := DrainsFour(s);
    } else if acts :| Drains(s, acts) {
      NothingRetiredOnceQueued(s, acts);
      assert false;
    }
  }

  // ---------------------------------------------------------------- a run that hangs

  /** Five rounds of setting and clearing one pending flag, then the first completion. */
  function HangingRun(irq: nat): seq<Action> {
    [SetCtlr(true)] + (Toggle(irq, NUM_LIST_REGS + 1) + [Complete(0), Maintenance(0, 0)])
  }

  lemma CompleteThenHang(s: State)
    requires Inv(s) && s.status.Running? && AllHandles(s.tables, HasCallback)
    requires |InFlight(s)| > NUM_LIST_REGS && s.kernel.eoi == {}
    ensures PossibleRun(s, [Complete(0), Maintenance(0, 0)])
    ensures Exec(s, [Complete(0), Maintenance(0, 0)]).status.Unanswered?
  {
    QueueLength(s);
    assert s.lrs[0].Valid();
    CompleteStep(s, 0);
    hide Inv, Step, InFlight, AllHandles, Exec, PossibleRun;
    StepStatus(Step(s, Complete(0)), Maintenance(0, 0));
    RunTwo(s, Complete(0), Maintenance(0, 0));
  }

  lemma ToggleThenHang(s: State, irq: nat)
    requires Inv(s) && s.status.Running? && AllHandles(s.tables, HasCallback)
    requires irq < NUM_IRQS && Admissible(s, irq) && s.kernel.eoi == {} && InFlight(s) == multiset{}
    ensures var acts := Toggle(irq, NUM_LIST_REGS + 1) + [Complete(0), Maintenance(0, 0)];
      PossibleRun(s, acts) && Exec(s, acts).status.Unanswered?
  {
    hide Inv, Step, Possible, InFlight, AllHandles, Exec, PossibleRun, Admissible;
    var toggles, last := Toggle(irq, NUM_LIST_REGS + 1), [Complete(0), Maintenance(0, 0)];
    ToggleOverflows(s, irq, NUM_LIST_REGS + 1);
    var m := Exec(s, toggles);
    CompleteThenHang(m);
    ExecAppend(s, toggles, last);
    PossibleAppend(s, toggles, last);
  }

  /** A run of the booted system that hangs in the maintenance handler with `err` initially zero:
      the refill succeeds, and its result is taken for an error. */
  lemma BootedHangs()
    ensures PossibleRun(Booted(), HangingRun(0)) && Exec(Booted(), HangingRun(0)).status.Unanswered?
  {
    var s, on := Booted(), Booted().(on := true);
    BootedInv();
    BootedHandles();
    BootedTables();
    BagEmpty(NoHandles(NUM_LIST_REGS));
    QuietKeepsInv(s, on);
    SameFlight(s, on);
    assert Step(s, SetCtlr(true)) == on;
    assert Admissible(on, 0) by {
      assert IsSgi(0);
    }
    hide Inv, Step, InFlight, Exec, PossibleRun, Booted, Admissible, Registered;
    assert AllHandles(on.tables, HasCallback);
    ToggleThenHang(on, 0);
    RunOne(s, SetCtlr(true));
    var rest := Toggle(0, NUM_LIST_REGS + 1) + [Complete(0), Maintenance(0, 0)];
    ExecAppend(s, [SetCtlr(true)], rest);
    PossibleAppend(s, [SetCtlr(true)], rest);
  }
}
