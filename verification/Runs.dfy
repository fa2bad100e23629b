/** Safety over whole runs from reset: order, conservation, residency, and the reasons
    for which the VMM can stop. */
module Runs {
  import opened Protocol
  import opened Flight
  import opened Invariants

  /** In every run each newly accepted injection of an interrupt is either retired by
      maintenance or still in flight, even after the guest disables the interrupt or clears
      its pending flag; and registers are loaded in the order of acceptance. */
  lemma AcceptedIsRetiredOrInFlight(acts: seq<Action>, irq: int)
    requires PossibleRun(Init(), acts) && Exec(Init(), acts).status.Intact()
    ensures var s := Exec(Init(), acts);
      && multiset(s.history.accepted)[irq] == multiset(s.history.retired)[irq] + InFlight(s)[irq]
      && s.history.accepted == s.history.loaded + QueueIrqs(s.tables, s.queue)
  {
    InitInv();
    RunKeepsInv(Init(), acts);
    var s := Exec(Init(), acts);
    assert multiset(s.history.loaded + QueueIrqs(s.tables, s.queue))
        == multiset(s.history.loaded) + multiset(QueueIrqs(s.tables, s.queue));
  }

  /** In every run the shadow and the kernel's list registers agree, and interrupts wait in
      the queue only while all four registers are occupied. */
  lemma ShadowAgrees(acts: seq<Action>, idx: nat)
    requires PossibleRun(Init(), acts) && Exec(Init(), acts).status.Intact()
    requires idx < NUM_LIST_REGS
    ensures var s := Exec(Init(), acts);
      && (s.kernel.lrs[idx] != VIRQ_INVALID ==> s.kernel.lrs[idx] == s.lrs[idx].virq)
      && (!s.lrs[idx].Valid() ==> s.kernel.lrs[idx] == VIRQ_INVALID && s.queue == [])
  {
    InitInv();
    RunKeepsInv(Init(), acts);
  }

  /** In every run the enable flags of the 16 software-generated interrupts stay set. */
  lemma SgisStayEnabled(acts: seq<Action>, irq: int)
    requires PossibleRun(Init(), acts) && Exec(Init(), acts).status.Intact()
    requires IsSgi(irq)
    ensures irq in Exec(Init(), acts).enabled
  {
    InitInv();
    RunKeepsInv(Init(), acts);
  }

  // ---------------------------------------------------------------- residency

  /** The pending flag of every interrupt counts its copies in flight. */
  ghost predicate Exact(s: State) {
    forall irq :: InFlight(s)[irq] == if irq in s.pending then 1 else 0
  }

  /** The flag of `irq` counts its copies. */
  ghost predicate ExactAt(s: State, irq: int) {
    InFlight(s)[irq] == if irq in s.pending then 1 else 0
  }

  lemma MovesKeepExact(s: State, a: Action, s': State, irq: int)
    requires Moves(s, a, s') && !a.Unpend?
    requires ExactAt(s, irq)
    ensures ExactAt(s', irq)
  {
  }

  lemma StepKeepsExact(s: State, a: Action)
    requires Inv(s) && Exact(s) && s.status.Running? && Possible(s, a) && !a.Unpend?
    ensures Step(s, a).status.Intact() ==> Exact(Step(s, a))
  {
    hide Inv, Step, InFlight;
    if Step(s, a).status.Intact() {
      StepMoves(s, a);
      forall irq ensures ExactAt(Step(s, a), irq) {
        MovesKeepExact(s, a, Step(s, a), irq);
      }
    }
  }

  ghost predicate NoUnpend(acts: seq<Action>) {
    forall i :: 0 <= i < |acts| ==> !acts[i].Unpend?
  }

  lemma {:induction false} RunKeepsExact(s: State, acts: seq<Action>)
    requires Inv(s) && Exact(s) && s.status.Running? && PossibleRun(s, acts) && NoUnpend(acts)
    ensures Exec(s, acts).status.Intact() ==> Inv(Exec(s, acts)) && Exact(Exec(s, acts))
    decreases |acts|
  {
    if acts != [] {
      StepKeepsInv(s, acts[0]);
      StepKeepsExact(s, acts[0]);
      if Step(s, acts[0]).status.Running? {
        RunKeepsExact(Step(s, acts[0]), acts[1..]);
      } else {
        StoppedStays(Step(s, acts[0]), acts[1..]);
      }
    }
  }

  /** In every run a set pending flag means at least one copy in flight. Without ICPENDR
      writes the flag is set exactly when there is one copy, and clear when there is none. */
  lemma PendingIsResident(acts: seq<Action>, irq: int)
    requires PossibleRun(Init(), acts) && Exec(Init(), acts).status.Intact()
    ensures var s := Exec(Init(), acts);
      && (irq in s.pending ==> InFlight(s)[irq] >= 1)
      && (NoUnpend(acts) ==> InFlight(s)[irq] == if irq in s.pending then 1 else 0)
  {
    InitInv();
    BagEmpty(NoHandles(NUM_LIST_REGS));
    RunKeepsInv(Init(), acts);
    if NoUnpend(acts) {
      RunKeepsExact(Init(), acts);
    }
  }

  /** Clearing a pending flag keeps the single-copy property exactly when the flag was not set:
      otherwise a copy stays in flight with its flag clear. */
  lemma UnpendKeepsExact(s: State, irq: nat)
    requires Inv(s) && Exact(s) && s.status.Running?
    ensures Exact(Step(s, Unpend(irq))) <==> irq !in s.pending
  {
    var s' := Step(s, Unpend(irq));
    SameFlight(s, s');
    assert InFlight(s')[irq] == InFlight(s)[irq];
  }

  lemma RunCons(s: State, acts: seq<Action>)
    requires acts != []
    ensures Exec(s, acts) == Exec(Step(s, acts[0]), acts[1..])
    ensures PossibleRun(s, acts) <==> Possible(s, acts[0]) && PossibleRun(Step(s, acts[0]), acts[1..])
  {
  }

  lemma RunOne(s: State, a: Action)
    requires Possible(s, a)
    ensures Exec(s, [a]) == Step(s, a) && PossibleRun(s, [a])
  {
    hide Step, Possible;
  }

  lemma RunTwo(s: State, a: Action, b: Action)
    requires Possible(s, a) && Possible(Step(s, a), b)
    ensures Exec(s, [a, b]) == Step(Step(s, a), b) && PossibleRun(s, [a, b])
  {
    hide Step, Possible;
    assert [a, b][1..] == [b];
    RunOne(Step(s, a), b);
  }

  lemma {:induction false} ExecAppend(s: State, a: seq<Action>, b: seq<Action>)
    ensures Exec(s, a + b) == Exec(Exec(s, a), b)
    decreases |a|
  {
    hide Step;
    if a == [] {
      assert a + b == b;
    } else {
      assert (a + b)[1..] == a[1..] + b;
      ExecAppend(Step(s, a[0]), a[1..], b);
    }
  }

  lemma {:induction false} PossibleAppend(s: State, a: seq<Action>, b: seq<Action>)
    requires PossibleRun(s, a) && PossibleRun(Exec(s, a), b)
    ensures PossibleRun(s, a + b)
    decreases |a|
  {
    hide Step, Possible;
    if a == [] {
      assert a + b == b;
    } else {
      assert (a + b)[1..] == a[1..] + b;
      PossibleAppend(Step(s, a[0]), a[1..], b);
    }
  }

  lemma {:induction false} PossibleSplit(s: State, a: seq<Action>, b: seq<Action>)
    requires PossibleRun(s, a + b)
    ensures PossibleRun(s, a) && PossibleRun(Exec(s, a), b)
    decreases |a|
  {
    hide Step, Possible;
    if a == [] {
      assert a + b == b;
    } else {
      assert (a + b)[1..] == a[1..] + b;
      PossibleSplit(Step(s, a[0]), a[1..], b);
    }
  }

  /** The last step of a run that ends intact starts from an intact state. */
  lemma RunSnoc(s: State, acts: seq<Action>, a: Action) returns (m: State)
    requires PossibleRun(s, acts + [a]) && Exec(s, acts + [a]).status.Intact()
    ensures m == Exec(s, acts) && m.status.Intact() && PossibleRun(s, acts)
    ensures Possible(m, a) && Exec(s, acts + [a]) == Step(m, a)
  {
    m := Exec(s, acts);
    PossibleSplit(s, acts, [a]);
    ExecAppend(s, acts, [a]);
    hide Possible, Act;
    RunCons(m, [a]);
  }
}
