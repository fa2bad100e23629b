/** What every step of the protocol keeps: registration stability, first-come-first-loaded
    order, conservation of interrupts, agreement of the shadow list registers with the
    kernel's, residency of pending interrupts, and work conservation. */
module Invariants {
  import opened Options
  import opened Protocol
  import opened Flight

  // ---------------------------------------------------------------- the invariant

  /** Local slot `i` names interrupt `i` if it names any, and used SPI slots form a prefix. */
  ghost predicate TablesOk(t: Tables) {
    && (forall i :: 0 <= i < NUM_VCPU_LOCAL_VIRQS && t.locals[i].Valid() ==> t.locals[i].virq == i)
    && (forall i :: 0 <= i < NUM_SLOTS_SPI_VIRQ && t.spis[i].Valid() ==> t.spis[i].virq >= NUM_VCPU_LOCAL_VIRQS)
    && (forall i, j :: 0 <= i < j < NUM_SLOTS_SPI_VIRQ && t.spis[j].Valid() ==> t.spis[i].Valid())
  }

  /** Some registration slot holds exactly this handle. */
  ghost predicate Known(t: Tables, h: Handle) {
    exists r :: Deref(t, r) == h
  }

  ghost predicate QueueOk(s: State) {
    && |s.queue| <= QUEUE_CAPACITY
    && forall i :: 0 <= i < |s.queue| ==> Deref(s.tables, s.queue[i]).Valid()
  }

  ghost predicate LrsKnown(s: State) {
    forall i :: 0 <= i < NUM_LIST_REGS && s.lrs[i].Valid() ==> Known(s.tables, s.lrs[i])
  }

  /** Loads so far, followed by the queue, are the accepted injections in order. */
  ghost predicate Fifo(s: State) {
    s.history.loaded + QueueIrqs(s.tables, s.queue) == s.history.accepted
  }

  /** Every loaded interrupt is retired or still in a list register. */
  ghost predicate Conserved(s: State) {
    multiset(s.history.loaded) == multiset(s.history.retired) + Bag(s.lrs)
  }

  /** An occupied kernel list register matches its shadow, and the shadow is occupied
      exactly while the kernel's register is, or its completion is yet to be handled. */
  ghost predicate Shadow(s: State) {
    && (forall i :: i in s.kernel.eoi ==> i < NUM_LIST_REGS)
    && forall i :: 0 <= i < NUM_LIST_REGS ==>
         && (s.kernel.lrs[i] != VIRQ_INVALID ==> s.kernel.lrs[i] == s.lrs[i].virq && i !in s.kernel.eoi)
         && (s.lrs[i].Valid() <==> s.kernel.lrs[i] != VIRQ_INVALID || i in s.kernel.eoi)
  }

  /** A pending interrupt has at least one copy in flight. */
  ghost predicate Resident(s: State) {
    forall irq :: irq in s.pending ==> irq in InFlight(s)
  }

  /** Software-generated interrupts are never disabled. */
  ghost predicate SgisEnabled(s: State) {
    forall irq :: IsSgi(irq) ==> irq in s.enabled
  }

  /** The queue is used only while all list registers are occupied. */
  ghost predicate WorkConserving(s: State) {
    s.queue != [] ==> AllValid(s.lrs)
  }

  ghost predicate Core(s: State) {
    && TablesOk(s.tables) && QueueOk(s) && LrsKnown(s)
    && Fifo(s) && Conserved(s) && Shadow(s) && Resident(s) && SgisEnabled(s)
  }

  ghost predicate Inv(s: State) {
    Core(s) && WorkConserving(s)
  }

  // ---------------------------------------------------------------- registration

  lemma FindNamesIrq(t: Tables, irq: nat)
    requires TablesOk(t)
    ensures Find(t, irq).Some? && Deref(t, Find(t, irq).value).Valid()
            ==> Deref(t, Find(t, irq).value).virq == irq
  {
  }

  /** A registration fails exactly when the local slot is taken or no SPI slot is free; otherwise it
      fills the local slot of that number, or the lowest free SPI slot, and nothing else. */
  lemma AddFills(t: Tables, h: Handle)
    requires 0 <= h.virq
    ensures h.virq < 32 ==>
      && (Add(t, h).None? <==> t.locals[h.virq].Valid())
      && (Add(t, h).Some? ==> Add(t, h).value == Tables(t.locals[h.virq := h], t.spis))
    ensures h.virq >= 32 ==>
      && (Add(t, h).None? <==> AllValid(t.spis))
      && (Add(t, h).Some? ==>
            exists i :: 0 <= i < NUM_SLOTS_SPI_VIRQ && !t.spis[i].Valid() && AllValid(t.spis[..i])
                  && Add(t, h).value == Tables(t.locals, t.spis[i := h]))
  {
    if h.virq >= 32 && FirstFree(t.spis, 0).Some? {
      var i := FirstFree(t.spis, 0).value;
      assert AllValid(t.spis[..i]) && Add(t, h).value == Tables(t.locals, t.spis[i := h]);
    }
  }

  /** A registration never changes a slot that is already in use. */
  lemma AddKeepsSlots(t: Tables, h: Handle, t': Tables)
    requires TablesOk(t) && 0 <= h.virq && Add(t, h) == Some(t')
    ensures TablesOk(t')
    ensures forall r :: Deref(t, r).Valid() ==> Deref(t', r) == Deref(t, r)
    ensures forall g: Handle :: g.Valid() && Known(t, g) ==> Known(t', g)
    ensures Known(t', h) && forall r :: Deref(t', r) == Deref(t, r) || Deref(t', r) == h
  {
    if h.virq < NUM_VCPU_LOCAL_VIRQS {
      assert Deref(t', Local(h.virq)) == h;
    } else {
      assert Deref(t', Spi(FirstFree(t.spis, 0).value)) == h;
    }
    forall g: Handle | g.Valid() && Known(t, g) ensures Known(t', g) {
      var r :| Deref(t, r) == g;
      assert Deref(t', r) == g;
    }
  }

  lemma RegisterKeepsInv(s: State, h: Handle)
    requires Inv(s) && 0 <= h.virq
    ensures Inv(RegisterIrq(s, h))
    ensures InFlight(RegisterIrq(s, h)) == InFlight(s)
  {
    if Add(s.tables, h).Some? {
      var s' := RegisterIrq(s, h);
      AddKeepsSlots(s.tables, h, s'.tables);
      assert QueueIrqs(s'.tables, s.queue) == QueueIrqs(s.tables, s.queue);
      assert Core(s');
    }
  }

  ghost predicate Registered(t: Tables, irq: int) {
    exists r :: Deref(t, r).Valid() && Deref(t, r).virq == irq
  }

  /** An injection of `irq` is not dropped. */
  ghost predicate Delivers(s: State, irq: int) {
    s.on && irq in s.enabled && Registered(s.tables, irq)
  }

  /** Lookup finds a valid handle exactly for the registered interrupts. */
  lemma FindRegistered(t: Tables, irq: nat)
    requires TablesOk(t)
    ensures Find(t, irq).Some? && Deref(t, Find(t, irq).value).Valid() <==> Registered(t, irq)
    ensures Find(t, irq).None? ==> irq >= NUM_VCPU_LOCAL_VIRQS
  {
    FindNamesIrq(t, irq);
    if Registered(t, irq) {
      var r :| Deref(t, r).Valid() && Deref(t, r).virq == irq;
      assert r.Local? || r.Spi?;
    }
  }

  // ---------------------------------------------------------------- primitive moves

  /** Queue an interrupt that is not pending and mark it pending. */
  function Admit(s: State, r: Ref): State {
    Accept(s.(pending := s.pending + {Deref(s.tables, r).virq}), r)
  }

  lemma AdmitKeepsCore(s: State, r: Ref)
    requires Core(s) && Deref(s.tables, r).Valid() && |s.queue| < QUEUE_CAPACITY
    ensures Core(Admit(s, r))
    ensures InFlight(Admit(s, r)) == InFlight(s) + multiset{Deref(s.tables, r).virq}
  {
    QueueAppend(s.tables, s.queue, r);
    var s' := Admit(s, r);
    assert InFlight(s') == InFlight(s) + multiset{Deref(s.tables, r).virq};
    assert Fifo(s') by {
      assert s.history.loaded + (QueueIrqs(s.tables, s.queue) + [Deref(s.tables, r).virq])
          == s.history.accepted + [Deref(s.tables, r).virq];
    }
  }

  lemma Shift(a: multiset<int>, b: multiset<int>, x: int)
    ensures a + (b + multiset{x}) == (a + multiset{x}) + b
  {
  }

  lemma LoadKeepsFlight(s: State, idx: nat)
    requires QueueOk(s) && s.queue != [] && idx < NUM_LIST_REGS && !s.lrs[idx].Valid()
    requires s.kernel.lrs[idx] == VIRQ_INVALID
    ensures InFlight(LoadHead(s, idx).0) == InFlight(s)
    ensures Conserved(s) ==> Conserved(LoadHead(s, idx).0)
  {
    var h := Deref(s.tables, s.queue[0]);
    var rest := multiset(QueueIrqs(s.tables, s.queue[1..]));
    QueueUncons(s.tables, s.queue);
    BagUpdate(s.lrs, idx, h);
    assert Bag(s.lrs[idx := h]) == Bag(s.lrs) + multiset{h.virq};
    Shift(Bag(s.lrs), rest, h.virq);
    assert rest + multiset{h.virq} == multiset{h.virq} + rest;
  }

  lemma LoadKeepsFifo(s: State, idx: nat)
    requires Fifo(s) && s.queue != [] && idx < NUM_LIST_REGS
    requires s.kernel.lrs[idx] == VIRQ_INVALID
    ensures Fifo(LoadHead(s, idx).0)
  {
    var h := Deref(s.tables, s.queue[0]);
    QueueUncons(s.tables, s.queue);
    assert (s.history.loaded + [h.virq]) + QueueIrqs(s.tables, s.queue[1..])
        == s.history.loaded + ([h.virq] + QueueIrqs(s.tables, s.queue[1..]));
  }

  lemma LoadKeepsShadow(s: State, idx: nat)
    requires Shadow(s) && QueueOk(s) && LrsKnown(s)
    requires s.queue != [] && idx < NUM_LIST_REGS && !s.lrs[idx].Valid()
    ensures s.kernel.lrs[idx] == VIRQ_INVALID
    ensures Shadow(LoadHead(s, idx).0) && QueueOk(LoadHead(s, idx).0) && LrsKnown(LoadHead(s, idx).0)
  {
    assert Known(s.tables, Deref(s.tables, s.queue[0]));
  }

  /** Loading a register whose shadow is free always succeeds, and keeps all copies. */
  lemma LoadKeepsCore(s: State, idx: nat)
    requires Core(s) && s.queue != [] && idx < NUM_LIST_REGS && !s.lrs[idx].Valid()
    ensures LoadHead(s, idx).1 && Core(LoadHead(s, idx).0)
    ensures InFlight(LoadHead(s, idx).0) == InFlight(s)
  {
    LoadKeepsShadow(s, idx);
    LoadKeepsFlight(s, idx);
    LoadKeepsFifo(s, idx);
  }

  lemma RetireFields(s: State, idx: nat)
    requires idx < NUM_LIST_REGS
    ensures var s' := Retire(s, idx); var h := s.lrs[idx];
      && s'.lrs == s.lrs[idx := NO_HANDLE] && s'.queue == s.queue && s'.tables == s.tables
      && s'.pending == s.pending - {h.virq} && s'.enabled == s.enabled && s'.on == s.on
      && s'.history == s.history.(retired := s.history.retired + [h.virq])
      && s'.kernel.lrs == s.kernel.lrs && s'.kernel.eoi == s.kernel.eoi - {idx}
      && s'.kernel.signalled == s.kernel.signalled
      && s'.kernel.masked == Ack(s, h).kernel.masked
      && s'.status == (if h.ack.NoFn? then AssertFailed else s.status)
  {
  }

  lemma TakeCopy(b: multiset<int>, b': multiset<int>, q: multiset<int>, x: int)
    requires b' + multiset{x} == b
    ensures b + q == (b' + q) + multiset{x}
  {
    assert (b' + multiset{x}) + q == (b' + q) + multiset{x};
  }

  lemma RetireTakesCopy(s: State, s': State, idx: nat)
    requires idx < NUM_LIST_REGS && s.lrs[idx].Valid()
    requires s'.lrs == s.lrs[idx := NO_HANDLE] && s'.queue == s.queue && s'.tables == s.tables
    requires s'.history == s.history.(retired := s.history.retired + [s.lrs[idx].virq])
    ensures InFlight(s) == InFlight(s') + multiset{s.lrs[idx].virq}
    ensures Conserved(s) ==> Conserved(s')
  {
    var x := s.lrs[idx].virq;
    BagUpdate(s.lrs, idx, NO_HANDLE);
    assert Bag(s'.lrs) + multiset{x} == Bag(s.lrs);
    TakeCopy(Bag(s.lrs), Bag(s'.lrs), multiset(QueueIrqs(s.tables, s.queue)), x);
    Shift(multiset(s.history.retired), Bag(s'.lrs), x);
    assert multiset(s'.history.retired) == multiset(s.history.retired) + multiset{x};
  }

  /** Retiring a completed register takes exactly its copy out of flight. */
  lemma RetireKeepsCore(s: State, s': State, idx: nat)
    requires Core(s) && idx in s.kernel.eoi && s' == Retire(s, idx)
    ensures s.lrs[idx].Valid() && Known(s.tables, s.lrs[idx]) && Core(s')
    ensures InFlight(s) == InFlight(s') + multiset{s.lrs[idx].virq}
  {
    RetireFields(s, idx);
    RetireTakesCopy(s, s', idx);
    RetireKeepsResident(s, s', s.lrs[idx].virq);
    RetireKeepsShadow(s, s', idx);
  }

  lemma RetireKeepsResident(s: State, s': State, x: int)
    requires Resident(s) && s'.pending == s.pending - {x}
    requires InFlight(s) == InFlight(s') + multiset{x}
    ensures Resident(s')
  {
    forall irq | irq in s'.pending ensures irq in InFlight(s') {
      assert irq in InFlight(s);
    }
  }

  lemma RetireKeepsShadow(s: State, s': State, idx: nat)
    requires Shadow(s) && LrsKnown(s) && idx in s.kernel.eoi
    requires s'.lrs == s.lrs[idx := NO_HANDLE] && s'.tables == s.tables
    requires s'.kernel.lrs == s.kernel.lrs && s'.kernel.eoi == s.kernel.eoi - {idx}
    ensures Shadow(s') && LrsKnown(s')
  {
  }

  // ---------------------------------------------------------------- injection

  /** The injection found the interrupt deliverable and not pending, with room in the queue. */
  ghost predicate Admissible(s: State, irq: nat) {
    && Find(s.tables, irq).Some?
    && Deliverable(s, irq, Deref(s.tables, Find(s.tables, irq).value))
    && irq !in s.pending
  }

  /** `s'` is `s` with one more copy of `irq` in flight. */
  ghost predicate OneMore(s: State, s': State, irq: nat) {
    && s'.status == s.status
    && InFlight(s') == InFlight(s) + multiset{irq as int}
    && s'.history.accepted == s.history.accepted + [irq]
    && s'.history.retired == s.history.retired
    && s'.kernel == s.kernel.(lrs := s'.kernel.lrs)
    && s' == s.(pending := s.pending + {irq as int}, lrs := s'.lrs, queue := s'.queue,
                kernel := s'.kernel, history := s'.history)
  }

  /** Injection, case by case. When a list register is free the queue was empty, so the
      register receives exactly the interrupt that was just queued; otherwise the
      interrupt waits at the end of the queue. */
  lemma InjectCases(s: State, irq: nat)
    requires Inv(s)
    ensures var (s', ok) := Inject(s, irq);
      if Find(s.tables, irq).None? then s' == s.(status := NullHandle) && !ok
      else if !Admissible(s, irq) then s' == s && (ok ==> irq in s.pending)
      else if |s.queue| == QUEUE_CAPACITY then s'.status.Overflow? && !ok
      else
        && ok && Inv(s') && OneMore(s, s', irq)
        && (!AllValid(s.lrs) ==>
              && s'.queue == [] == s.queue
              && s'.history.loaded == s.history.loaded + [irq]
              && exists idx :: 0 <= idx < NUM_LIST_REGS && !s.lrs[idx].Valid()
                    && s'.kernel.lrs == s.kernel.lrs[idx := irq])
        && (AllValid(s.lrs) ==>
              && s'.queue == s.queue + [Find(s.tables, irq).value]
              && s'.lrs == s.lrs && s'.kernel == s.kernel)
  {
    FindNamesIrq(s.tables, irq);
    if Find(s.tables, irq).Some? && Admissible(s, irq) && |s.queue| < QUEUE_CAPACITY {
      var r := Find(s.tables, irq).value;
      var m := Admit(s, r);
      AdmitKeepsCore(s, r);
      assert Inject(s, irq) == Dispatch(m);
      if FirstFree(s.lrs, 0).Some? {
        var idx := FirstFree(s.lrs, 0).value;
        assert !AllValid(s.lrs);
        assert m.queue == [r];
        LoadKeepsCore(m, idx);
        assert Inject(s, irq) == LoadHead(m, idx);
      } else {
        assert AllValid(s.lrs);
        assert Inv(m);
      }
    }
  }

  /** The new copy of `irq` is in the lowest free list register, shadow and kernel alike, and the
      queue is empty. */
  ghost predicate LoadedLowest(s: State, s': State, irq: nat) {
    && s'.queue == [] == s.queue
    && exists idx :: 0 <= idx < NUM_LIST_REGS && !s.lrs[idx].Valid()
          && (forall j :: 0 <= j < idx ==> s.lrs[j].Valid())
          && s'.lrs[idx].virq == irq && s'.lrs == s.lrs[idx := s'.lrs[idx]]
          && s'.kernel.lrs == s.kernel.lrs[idx := irq]
  }

  /** The new copy of `irq` waits at the end of the queue. */
  ghost predicate QueuedLast(s: State, s': State, irq: nat) {
    && |s'.queue| == |s.queue| + 1 && s.queue <= s'.queue
    && Deref(s.tables, s'.queue[|s.queue|]).virq == irq
    && s'.lrs == s.lrs && s'.kernel == s.kernel && s'.history.loaded == s.history.loaded
  }

  /** All that an injection of `irq` with result `ok` does: a NULL dereference for an unregistered
      shared interrupt; nothing for one that is dropped or already pending; a failed enqueue
      after the flag is set; or one copy more, in the lowest free list register or else last in
      the queue. */
  ghost predicate Injected(s: State, irq: nat, s': State, ok: bool) {
    if irq >= NUM_VCPU_LOCAL_VIRQS && !Registered(s.tables, irq) then s' == s.(status := NullHandle) && !ok
    else if !Delivers(s, irq) then s' == s && !ok
    else if irq in s.pending then s' == s && ok
    else if |s.queue| == QUEUE_CAPACITY then
      s' == s.(status := Overflow, pending := s.pending + {irq as int}) && !ok
    else
      ok && OneMore(s, s', irq) && if AllValid(s.lrs) then QueuedLast(s, s', irq) else LoadedLowest(s, s', irq)
  }

  lemma InjectEffect(s: State, irq: nat)
    requires Inv(s)
    ensures Injected(s, irq, Inject(s, irq).0, Inject(s, irq).1)
  {
    FindRegistered(s.tables, irq);
    FindNamesIrq(s.tables, irq);
    InjectCases(s, irq);
    if Admissible(s, irq) && |s.queue| < QUEUE_CAPACITY && !AllValid(s.lrs) {
      InjectLoads(s, irq);
    }
  }

  lemma InjectLoads(s: State, irq: nat)
    requires Inv(s) && Admissible(s, irq) && |s.queue| < QUEUE_CAPACITY && !AllValid(s.lrs)
    ensures LoadedLowest(s, Inject(s, irq).0, irq)
  {
    FindNamesIrq(s.tables, irq);
    var r := Find(s.tables, irq).value;
    var m := Admit(s, r);
    var idx := FirstFree(s.lrs, 0).value;
    assert s.queue == [] && m.queue == [r];
    assert Inject(s, irq) == LoadHead(m, idx);
    LoadKeepsShadow(s.(queue := [r]), idx);
    var s' := LoadHead(m, idx).0;
    assert s'.lrs[idx] == Deref(s.tables, r);
  }

  /** An interrupt that is disabled or not registered, or any interrupt while the distributor is
      off, is dropped without a trace. */
  lemma DroppedWhenDisabled(s: State, irq: nat)
    requires Inv(s) && Find(s.tables, irq).Some?
    requires !s.on || irq !in s.enabled || !Registered(s.tables, irq)
    ensures Inject(s, irq) == (s, false)
  {
    FindNamesIrq(s.tables, irq);
    if Deref(s.tables, Find(s.tables, irq).value).Valid() {
      assert Registered(s.tables, irq);
    }
  }

  // ---------------------------------------------------------------- maintenance

  lemma RefillCases(s: State, idx: nat)
    requires Core(s) && s.status.Running? && idx < NUM_LIST_REGS && !s.lrs[idx].Valid()
    requires s.queue != [] ==> forall i :: 0 <= i < NUM_LIST_REGS && i != idx ==> s.lrs[i].Valid()
    ensures var s' := Refill(s, idx);
      && Inv(s') && InFlight(s') == InFlight(s) && (s.queue != [] ==> LoadHead(s, idx).1)
      && s'.queue == (if s.queue == [] then [] else s.queue[1..])
      && s'.lrs == (if s.queue == [] then s.lrs else s.lrs[idx := Deref(s.tables, s.queue[0])])
      && s' == s.(lrs := s'.lrs, queue := s'.queue, kernel := s.kernel.(lrs := s'.kernel.lrs),
                  history := s.history.(loaded := s'.history.loaded))
  {
    if s.queue != [] {
      LoadKeepsCore(s, idx);
      assert AllValid(s.lrs[idx := Deref(s.tables, s.queue[0])]);
    }
  }

  /** Maintenance of a completed register: its assertion on the slot holds, and it stops for a NULL
      callback, or else when `err` is not zero: after every refill, and on stack garbage. Unless
      the callback is NULL it has then taken exactly one copy of the interrupt out of flight. */
  lemma MaintainCases(s: State, idx: nat, garbage: int)
    requires Inv(s) && s.status.Running? && idx in s.kernel.eoi
    ensures idx < NUM_LIST_REGS && s.lrs[idx].Valid() && Known(s.tables, s.lrs[idx])
    ensures var s' := Maintain(s, idx, garbage); var h := s.lrs[idx];
      && s'.status == (if h.ack.NoFn? then AssertFailed
                       else if s.queue != [] || garbage != 0 then Unanswered else Running)
      && (!h.ack.NoFn? ==>
            && Inv(s')
            && InFlight(s) == InFlight(s') + multiset{h.virq}
            && s'.pending == s.pending - {h.virq}
            && s'.queue == (if s.queue == [] then [] else s.queue[1..])
            && s'.lrs == s.lrs[idx := if s.queue == [] then NO_HANDLE else Deref(s.tables, s.queue[0])]
            && s'.history.retired == s.history.retired + [h.virq]
            && s'.history.accepted == s.history.accepted
            && s'.tables == s.tables && s'.on == s.on && s'.enabled == s.enabled
            && s'.kernel.signalled == s.kernel.signalled
            && s'.kernel.masked == Ack(s, h).kernel.masked)
  {
    hide Retire, LoadHead, Known, InFlight;
    var m := Retire(s, idx);
    RetireKeepsCore(s, m, idx);
    RetireFields(s, idx);
    if m.status.Running? {
      RefillCases(m, idx);
      hide Core;
      QuietKeepsInv(Refill(m, idx), Maintain(s, idx, garbage));
    }
  }

  // ---------------------------------------------------------------- every step, every run

  lemma QuietKeepsInv(s: State, s': State)
    requires Inv(s)
    requires s'.tables == s.tables && s'.lrs == s.lrs && s'.queue == s.queue
    requires s'.kernel.lrs == s.kernel.lrs && s'.kernel.eoi == s.kernel.eoi
    requires s'.history == s.history && s'.pending <= s.pending
    requires SgisEnabled(s')
    ensures Inv(s') && InFlight(s') == InFlight(s)
  {
  }

  lemma CompleteKeepsInv(s: State, idx: nat)
    requires Inv(s) && Possible(s, Complete(idx))
    ensures Inv(CompleteLr(s, idx)) && InFlight(CompleteLr(s, idx)) == InFlight(s)
  {
  }

  lemma EnableIsQuiet(s: State, irq: nat)
    requires Inv(s)
    ensures Inv(EnableIrq(s, irq)) && InFlight(EnableIrq(s, irq)) == InFlight(s)
    ensures EnableIrq(s, irq).pending == s.pending
  {
    QuietKeepsInv(s, EnableIrq(s, irq));
  }

  lemma StepKeepsInv(s: State, a: Action)
    requires Inv(s) && s.status.Running? && Possible(s, a)
    ensures Step(s, a).status.Intact() ==> Inv(Step(s, a))
  {
    hide Inject, Maintain, EnableIrq, InFlight;
    match a
    case Register(irq, ack) => RegisterKeepsInv(s, Handle(irq, ack));
    case Complete(idx) => CompleteKeepsInv(s, idx);
    case Maintenance(idx, garbage) => MaintainCases(s, idx, garbage);
    case Enable(irq) => EnableIsQuiet(s, irq);
    case Pend(irq) => InjectCases(s, irq);
    case Sgi(intid) => InjectCases(s, intid);
    case Vppi(irq) =>
      var k := TakeMessage(s, irq);
      QuietKeepsInv(s, k);
      InjectCases(k, irq);
      var (s', ok) := Inject(k, irq);
      if !ok && s'.status.Running? {
        QuietKeepsInv(s', Unmask(s', irq));
      }
    case Serial =>
      var k := TakeMessage(s, SERIAL_IRQ);
      QuietKeepsInv(s, k);
      InjectCases(k, SERIAL_IRQ);
    case _ => QuietKeepsInv(s, Step(s, a));
  }

  // ---------------------------------------------------------------- copies per step

  ghost predicate Quiet(s: State, s': State) {
    InFlight(s') == InFlight(s) && s'.pending == s.pending
  }

  /** A newly accepted injection: the interrupt was not pending, its slot is registered, and it and
      the distributor are enabled. */
  ghost predicate Gains(s: State, s': State, irq: int) {
    && irq !in s.pending && Registered(s.tables, irq) && s.on && irq in s.enabled
    && InFlight(s') == InFlight(s) + multiset{irq}
    && s'.pending == s.pending + {irq}
  }

  ghost predicate Loses(s: State, s': State, irq: int) {
    && InFlight(s) == InFlight(s') + multiset{irq}
    && s'.pending == s.pending - {irq}
  }

  lemma InjectMoves(s: State, irq: nat)
    requires Inv(s) && s.status.Running? && Inject(s, irq).0.status.Intact()
    ensures Quiet(s, Inject(s, irq).0) || Gains(s, Inject(s, irq).0, irq)
  {
    InjectCases(s, irq);
    FindNamesIrq(s.tables, irq);
    if Admissible(s, irq) {
      assert Registered(s.tables, irq) by {
        assert Deref(s.tables, Find(s.tables, irq).value).Valid();
      }
    }
  }

  lemma MessageMoves(s: State, irq: nat)
    requires Inv(s) && s.status.Running?
    ensures var m := Inject(TakeMessage(s, irq), irq).0;
      m.status.Intact() ==> Inv(m) && (Quiet(s, m) || Gains(s, m, irq))
  {
    var k := TakeMessage(s, irq);
    QuietKeepsInv(s, k);
    InjectCases(k, irq);
    if Inject(k, irq).0.status.Intact() {
      InjectMoves(k, irq);
    }
  }

  lemma SameFlight(s: State, s': State)
    requires s'.tables == s.tables && s'.lrs == s.lrs && s'.queue == s.queue
    ensures InFlight(s') == InFlight(s)
  {
  }

  lemma VppiMoves(s: State, irq: nat)
    requires Inv(s) && s.status.Running? && VppiEvent(s, irq).status.Intact()
    ensures Quiet(s, VppiEvent(s, irq)) || Gains(s, VppiEvent(s, irq), irq)
  {
    MessageMoves(s, irq);
    SameFlight(Inject(TakeMessage(s, irq), irq).0, VppiEvent(s, irq));
  }

  ghost predicate Moves(s: State, a: Action, s': State) {
    match a
    case Vppi(irq) => Quiet(s, s') || Gains(s, s', irq)
    case Serial => Quiet(s, s') || Gains(s, s', SERIAL_IRQ)
    case Pend(irq) => Quiet(s, s') || Gains(s, s', irq)
    case Sgi(intid) => Quiet(s, s') || Gains(s, s', intid)
    case Maintenance(idx, _) => idx < NUM_LIST_REGS && Loses(s, s', s.lrs[idx].virq)
    case Unpend(irq) => InFlight(s') == InFlight(s) && s'.pending == s.pending - {irq}
    case _ => Quiet(s, s')
  }

  /** Only an accepted injection adds a copy, only maintenance removes one, each exactly one. */
  lemma StepMoves(s: State, a: Action)
    requires Inv(s) && s.status.Running? && Possible(s, a) && Step(s, a).status.Intact()
    ensures Moves(s, a, Step(s, a))
  {
    hide Inject, Maintain, VppiEvent, EnableIrq, InFlight, Core, Registered;
    match a
    case Register(irq, ack) => RegisterKeepsInv(s, Handle(irq, ack));
    case Maintenance(idx, garbage) => MaintainCases(s, idx, garbage);
    case Pend(irq) => InjectMoves(s, irq);
    case Sgi(intid) => InjectMoves(s, intid);
    case Vppi(irq) => VppiMoves(s, irq);
    case Serial => MessageMoves(s, SERIAL_IRQ);
    case Enable(irq) => EnableIsQuiet(s, irq);
    case _ => SameFlight(s, Step(s, a));
  }

  lemma InitInv()
    ensures Inv(Init())
  {
    BagEmpty(NoHandles(NUM_LIST_REGS));
  }

  /** In every run the invariant holds, as long as no injection and no callback has failed. */
  lemma {:induction false} RunKeepsInv(s: State, acts: seq<Action>)
    requires Inv(s) && PossibleRun(s, acts)
    ensures Exec(s, acts).status.Intact() ==> Inv(Exec(s, acts))
    decreases |acts|
  {
    if acts != [] && s.status.Running? {
      StepKeepsInv(s, acts[0]);
    }
    if acts != [] {
      if Step(s, acts[0]).status.Running? {
        RunKeepsInv(Step(s, acts[0]), acts[1..]);
      } else {
        StoppedStays(Step(s, acts[0]), acts[1..]);
      }
    }
  }

  lemma {:induction false} StoppedStays(s: State, acts: seq<Action>)
    requires !s.status.Running?
    ensures Exec(s, acts) == s
    decreases |acts|
  {
    if acts != [] {
      StoppedStays(s, acts[1..]);
    }
  }
}
