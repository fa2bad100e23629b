/** The GICv2 interrupt-injection protocol as a state machine.

    `State` holds what the VMM stores (distributor flags, registration tables, shadow
    list registers, overflow queue), what the kernel holds (its list registers, masked
    sources, undelivered messages) and a history of the run. `Step` is the effect of one
    action; `Exec` runs a list of them. A failed assertion or a NULL dereference stops
    the VMM for good: it sets `status`, and a stopped state no longer changes. */
module Protocol {
  import opened Words
  import opened Options

  const VIRQ_INVALID := -1
  const NUM_SGI_VIRQS := 16
  const NUM_VCPU_LOCAL_VIRQS := 32
  const NUM_SLOTS_SPI_VIRQ := 200
  const NUM_LIST_REGS := 4
  /** One slot of the 64-slot ring always stays empty. */
  const QUEUE_CAPACITY := 63
  /** The serial interrupt of the qemu_arm_virt_hyp board. */
  const SERIAL_IRQ := 33
  /** Interrupt numbers whose flags lie inside the 31-word SPI bitmaps. */
  const NUM_IRQS := 992

  /** The acknowledge callback stored with a registration; `NoFn` is a NULL pointer. */
  datatype AckFn = NoFn | VppiAck | SgiAck | SerialAck

  datatype Handle = Handle(virq: int, ack: AckFn) {
    predicate Valid() {
      virq != VIRQ_INVALID
    }
  }

  const NO_HANDLE := Handle(VIRQ_INVALID, NoFn)

  /** A pointer to a registration slot. */
  datatype Ref = Local(index: nat) | Spi(slot: nat)

  type LocalSlots = hs: seq<Handle> | |hs| == NUM_VCPU_LOCAL_VIRQS witness NoHandles(NUM_VCPU_LOCAL_VIRQS)
  type SpiSlots = hs: seq<Handle> | |hs| == NUM_SLOTS_SPI_VIRQ witness NoHandles(NUM_SLOTS_SPI_VIRQ)
  type ListRegs = hs: seq<Handle> | |hs| == NUM_LIST_REGS witness NoHandles(NUM_LIST_REGS)
  type KernelListRegs = ks: seq<int> | |ks| == NUM_LIST_REGS witness [0, 0, 0, 0]

  function NoHandles(n: nat): seq<Handle> {
    seq(n, _ => NO_HANDLE)
  }

  datatype Tables = Tables(locals: LocalSlots, spis: SpiSlots)

  datatype Kernel = Kernel(
    lrs: KernelListRegs,    // interrupt in each hardware list register, VIRQ_INVALID if free
    eoi: set<nat>,          // list registers completed by the guest, maintenance not yet handled
    masked: set<int>,       // sources masked on delivery and not yet acknowledged
    signalled: set<int>)    // sources whose message has not yet reached the VMM

  datatype History = History(
    accepted: seq<int>,     // injections that entered the queue
    loaded: seq<int>,       // loads of a list register
    retired: seq<int>)      // maintenance acknowledgements

  /** Why the VMM has stopped, if it has. */
  datatype Status =
    | Running
    | Overflow       // the assertion on `vgic_irq_enqueue`
    | NullHandle     // a NULL registration was dereferenced
    | AssertFailed   // any other assertion on handles, list registers and callbacks
    | Unanswered     // the `assert(0)` of maintenance, which replies only when `err` is zero
    | Unimplemented  // the assertion on writes to GICD_CPENDSGIR and GICD_SPENDSGIR
  {
    /** The handlers did all their work: the VMM runs, or has stopped after the last update. */
    predicate Intact() {
      Running? || Unanswered? || Unimplemented?
    }
  }

  datatype State = State(
    status: Status,
    on: bool,               // GICD_CTLR == GIC_ENABLED
    enabled: set<int>,
    pending: set<int>,
    tables: Tables,
    lrs: ListRegs,          // lr_shadow
    queue: seq<Ref>,        // irq_queue, oldest first
    kernel: Kernel,
    history: History)

  // ---------------------------------------------------------------- lookup and registration

  /** The handle a pointer refers to. */
  function Deref(t: Tables, r: Ref): Handle {
    match r
    case Local(i) => if i < NUM_VCPU_LOCAL_VIRQS then t.locals[i] else NO_HANDLE
    case Spi(i) => if i < NUM_SLOTS_SPI_VIRQ then t.spis[i] else NO_HANDLE
  }

  /** `virq_find_spi_irq_data` from slot `i` on: the earliest slot that holds `irq`. */
  function FindSpi(spis: seq<Handle>, irq: int, i: nat): (r: Option<nat>)
    requires i <= |spis|
    ensures r.Some? ==> i <= r.value < |spis| && spis[r.value].Valid() && spis[r.value].virq == irq
    ensures r.Some? ==> forall j :: i <= j < r.value ==> !(spis[j].Valid() && spis[j].virq == irq)
    ensures r.None? ==> forall j :: i <= j < |spis| ==> !(spis[j].Valid() && spis[j].virq == irq)
    decreases |spis| - i
  {
    if i == |spis| then None
    else if spis[i].Valid() && spis[i].virq == irq then Some(i)
    else FindSpi(spis, irq, i + 1)
  }

  /** `virq_find_irq_data`; `None` is a NULL result. */
  function Find(t: Tables, irq: nat): Option<Ref> {
    if irq < NUM_VCPU_LOCAL_VIRQS then Some(Local(irq))
    else
      match FindSpi(t.spis, irq, 0)
      case None => None
      case Some(i) => Some(Spi(i))
  }

  /** First slot from `i` on whose handle is invalid. */
  function FirstFree(hs: seq<Handle>, i: nat): (r: Option<nat>)
    requires i <= |hs|
    ensures r.Some? ==> i <= r.value < |hs| && !hs[r.value].Valid()
    ensures r.Some? ==> forall j :: i <= j < r.value ==> hs[j].Valid()
    ensures r.None? ==> forall j :: i <= j < |hs| ==> hs[j].Valid()
    decreases |hs| - i
  {
    if i == |hs| then None
    else if !hs[i].Valid() then Some(i)
    else FirstFree(hs, i + 1)
  }

  /** `virq_add`: new tables, or `None` when the local slot is taken or the SPI list is full. */
  function Add(t: Tables, h: Handle): Option<Tables>
    requires 0 <= h.virq
  {
    if h.virq < NUM_VCPU_LOCAL_VIRQS then
      if !t.locals[h.virq].Valid()
      then Some(t.(locals := t.locals[h.virq := h])) else None
    else
      match FirstFree(t.spis, 0)
      case None => None
      case Some(i) => Some(t.(spis := t.spis[i := h]))
  }

  // ---------------------------------------------------------------- acknowledging a source

  /** `virq_ack`: the callbacks unmask the source in the kernel. */
  function Ack(s: State, h: Handle): State {
    match h.ack
    case NoFn => s.(status := AssertFailed)
    case SgiAck => s
    case VppiAck => Unmask(s, h.virq)
    case SerialAck => Unmask(s, SERIAL_IRQ)
  }

  function Unmask(s: State, irq: int): State {
    s.(kernel := s.kernel.(masked := s.kernel.masked - {irq}))
  }

  // ---------------------------------------------------------------- distributor operations

  function EnableIrq(s: State, irq: nat): State {
    var s' := s.(enabled := s.enabled + {irq});
    match Find(s.tables, irq)
    case None => s'
    case Some(r) =>
      var h := Deref(s.tables, r);
      if h.Valid() && h.virq !in s.pending then Ack(s', h) else s'
  }

  function DisableIrq(s: State, irq: nat): State {
    if irq < NUM_SGI_VIRQS then s else s.(enabled := s.enabled - {irq})
  }

  /** The injection passes the checks of `vgic_dist_set_pending_irq`. */
  predicate Deliverable(s: State, irq: nat, h: Handle) {
    h.Valid() && s.on && irq in s.enabled
  }

  /** `vgic_dist_set_pending_irq`, with its boolean result. */
  function Inject(s: State, irq: nat): (State, bool)
  {
    match Find(s.tables, irq)
    case None => (s.(status := NullHandle), false)
    case Some(r) =>
      var h := Deref(s.tables, r);
      if !Deliverable(s, irq, h) then (s, false)
      else if h.virq in s.pending then (s, true)
      else
        var s' := s.(pending := s.pending + {h.virq});
        if |s.queue| >= QUEUE_CAPACITY then (s'.(status := Overflow), false)
        else Dispatch(Accept(s', r))
  }

  /** A successful `vgic_irq_enqueue`. */
  function Accept(s: State, r: Ref): State {
    s.(queue := s.queue + [r],
       history := s.history.(accepted := s.history.accepted + [Deref(s.tables, r).virq]))
  }

  /** Move the oldest queued interrupt to a free list register, if there is one. */
  function Dispatch(s: State): (State, bool)
    requires s.queue != []
  {
    match FirstFree(s.lrs, 0)
    case None => (s, true)
    case Some(idx) =>
      if Deref(s.tables, s.queue[0]).Valid() then LoadHead(s, idx)
      else (s.(queue := s.queue[1..], status := AssertFailed), false)
  }

  /** `vgic_vcpu_load_list_reg`: the kernel refuses an occupied register. */
  function LoadListReg(s: State, idx: nat, h: Handle): (State, bool)
    requires idx < NUM_LIST_REGS
  {
    if s.kernel.lrs[idx] != VIRQ_INVALID then (s.(status := AssertFailed), false)
    else
      (s.(lrs := s.lrs[idx := h],
          kernel := s.kernel.(lrs := s.kernel.lrs[idx := h.virq]),
          history := s.history.(loaded := s.history.loaded + [h.virq])), true)
  }

  /** Dequeue the oldest interrupt and load it. */
  function LoadHead(s: State, idx: nat): (State, bool)
    requires idx < NUM_LIST_REGS && s.queue != []
  {
    LoadListReg(s.(queue := s.queue[1..]), idx, Deref(s.tables, s.queue[0]))
  }

  /** `handle_vgic_maintenance` up to and including the acknowledgement. */
  function Retire(s: State, idx: nat): State
    requires idx < NUM_LIST_REGS
  {
    var h := s.lrs[idx];
    Ack(s.(lrs := s.lrs[idx := NO_HANDLE],
           pending := s.pending - {h.virq},
           kernel := s.kernel.(eoi := s.kernel.eoi - {idx}),
           history := s.history.(retired := s.history.retired + [h.virq])), h)
  }

  /** The second half of maintenance: refill the retired register from the queue. */
  function Refill(s: State, idx: nat): State
    requires idx < NUM_LIST_REGS
  {
    if s.status.Running? && s.queue != [] then LoadHead(s, idx).0 else s
  }

  /** Whether maintenance replies to the fault. `err` keeps the stack garbage it started
      with when the queue is empty, and otherwise holds the true-on-success load result. */
  function MaintenanceReplies(s: State, idx: nat, garbage: int): bool
    requires idx < NUM_LIST_REGS
  {
    var s' := Retire(s, idx);
    var err := if s'.queue == [] then garbage else if LoadHead(s', idx).1 then 1 else 0;
    err == 0
  }

  /** `handle_vgic_maintenance`: retire the completed register, refill it from the queue, then
      reply, or fail the assertion on a non-zero `err`. */
  function Maintain(s: State, idx: nat, garbage: int): State
  {
    if idx >= NUM_LIST_REGS || !s.lrs[idx].Valid() then s.(status := AssertFailed)
    else
      var s' := Refill(Retire(s, idx), idx);
      if s'.status.Running? && !MaintenanceReplies(s, idx, garbage) then s'.(status := Unanswered) else s'
  }

  // ---------------------------------------------------------------- actions and runs

  datatype Action =
    | Register(irq: nat, ack: AckFn)  // vgic_register_irq
    | Raise(irq: nat)                 // the kernel masks a source and sends its message
    | Vppi(irq: nat)                  // handle_vppi_event
    | Serial                          // notified(SERIAL_IRQ_CH)
    | Complete(idx: nat)              // the guest completes the interrupt of a list register
    | Maintenance(idx: nat, garbage: int)  // handle_vgic_maintenance, with what `err` starts as
    | SetCtlr(on: bool)               // write of 1 or 0 to GICD_CTLR
    | Enable(irq: nat)                // one bit of a write to GICD_ISENABLER
    | Disable(irq: nat)               // one bit of a write to GICD_ICENABLER
    | Pend(irq: nat)                  // one bit of a write to GICD_ISPENDR
    | Unpend(irq: nat)                // one bit of a write to GICD_ICPENDR
    | Sgi(intid: nat)                 // write to GICD_SGIR
    | WriteSgiPending                 // write to GICD_CPENDSGIR or GICD_SPENDSGIR

  /** The VMM receives the message about a source. */
  function TakeMessage(s: State, irq: nat): State {
    s.(kernel := s.kernel.(signalled := s.kernel.signalled - {irq}))
  }

  /** `handle_vppi_event`: an injection that is dropped is acknowledged at once. */
  function VppiEvent(s: State, irq: nat): State
  {
    var (s', ok) := Inject(TakeMessage(s, irq), irq);
    if !ok && s'.status.Running? then Unmask(s', irq) else s'
  }

  /** `notified` on the serial channel: a dropped injection is only logged. */
  function Notified(s: State): State
  {
    Inject(TakeMessage(s, SERIAL_IRQ), SERIAL_IRQ).0
  }

  function RegisterIrq(s: State, h: Handle): State
    requires 0 <= h.virq
  {
    match Add(s.tables, h)
    case None => s
    case Some(t) => s.(tables := t)
  }

  function RaiseSource(s: State, irq: nat): State {
    s.(kernel := s.kernel.(masked := s.kernel.masked + {irq},
                           signalled := s.kernel.signalled + {irq}))
  }

  function CompleteLr(s: State, idx: nat): State
  {
    if idx >= NUM_LIST_REGS then s else
      s.(kernel := s.kernel.(lrs := s.kernel.lrs[idx := VIRQ_INVALID], eoi := s.kernel.eoi + {idx}))
  }

  function Act(s: State, a: Action): State
  {
    match a
    case Register(irq, ack) => RegisterIrq(s, Handle(irq, ack))
    case Raise(irq) => RaiseSource(s, irq)
    case Vppi(irq) => VppiEvent(s, irq)
    case Serial => Notified(s)
    case Complete(idx) => CompleteLr(s, idx)
    case Maintenance(idx, garbage) => Maintain(s, idx, garbage)
    case SetCtlr(on) => s.(on := on)
    case Enable(irq) => EnableIrq(s, irq)
    case Disable(irq) => DisableIrq(s, irq)
    case Pend(irq) => Inject(s, irq).0
    case Unpend(irq) => s.(pending := s.pending - {irq})
    case Sgi(intid) => Inject(s, intid).0
    case WriteSgiPending => s.(status := Unimplemented)
  }

  function Step(s: State, a: Action): State
  {
    if s.status.Running? then Act(s, a) else s
  }

  function Exec(s: State, acts: seq<Action>): State
    decreases |acts|
  {
    if acts == [] then s else Exec(Step(s, acts[0]), acts[1..])
  }

  predicate IsSgi(irq: int) {
    0 <= irq < NUM_SGI_VIRQS
  }

  predicate IsPpi(irq: int) {
    NUM_SGI_VIRQS <= irq < NUM_VCPU_LOCAL_VIRQS
  }

  // ---------------------------------------------------------------- register writes

  /** The four pairs of bitmap registers. */
  datatype BitmapRegister = ISENABLER | ICENABLER | ISPENDR | ICPENDR

  /** The effect of one selected bit. */
  function BitAction(reg: BitmapRegister, irq: nat): Action {
    match reg
    case ISENABLER => Enable(irq)
    case ICENABLER => Disable(irq)
    case ISPENDR => Pend(irq)
    case ICPENDR => Unpend(irq)
  }

  function BitActions(reg: BitmapRegister, irqs: seq<nat>): seq<Action> {
    seq(|irqs|, i requires 0 <= i < |irqs| => BitAction(reg, irqs[i]))
  }

  /** A write of `data` to GICD_CTLR; other values are reported and ignored. */
  function CtlrActions(data: Word): seq<Action> {
    if data == {0} then [SetCtlr(true)] else if data == {} then [SetCtlr(false)] else []
  }

  /** The interrupt number in bits 3 to 0 of GICD_SGIR. */
  function SgiIntid(data: Word): (intid: nat)
    ensures intid < NUM_SGI_VIRQS
    ensures (intid % 2 == 1 <==> 0 in data) && (intid / 2 % 2 == 1 <==> 1 in data)
    ensures (intid / 4 % 2 == 1 <==> 2 in data) && (intid / 8 % 2 == 1 <==> 3 in data)
  {
    (if 0 in data then 1 else 0) + (if 1 in data then 2 else 0) +
    (if 2 in data then 4 else 0) + (if 3 in data then 8 else 0)
  }

  /** A write to GICD_SGIR injects into the only vCPU whatever the target list says, unless
      the target list filter (bits 25 and 24) has its reserved value 3. */
  function SgirActions(data: Word): seq<Action> {
    if 24 in data && 25 in data then [] else [Sgi(SgiIntid(data))]
  }

  // ---------------------------------------------------------------- the environment

  /** What the kernel and the guest can do next. A masked source does not fire, a message is
      delivered once, only an occupied list register completes, and each completion
      raises one maintenance event. */
  predicate Possible(s: State, a: Action)
  {
    match a
    case Register(_, _) => true
    case Raise(irq) => (IsPpi(irq) || irq == SERIAL_IRQ) && irq !in s.kernel.masked
    case Vppi(irq) => IsPpi(irq) && irq in s.kernel.signalled
    case Serial => SERIAL_IRQ in s.kernel.signalled
    case Complete(idx) => idx < NUM_LIST_REGS && s.kernel.lrs[idx] != VIRQ_INVALID
    case Maintenance(idx, _) => idx in s.kernel.eoi
    case SetCtlr(_) => true
    case Enable(irq) => irq < NUM_IRQS
    case Disable(irq) => irq < NUM_IRQS
    case Pend(irq) => irq < NUM_IRQS
    case Unpend(irq) => irq < NUM_IRQS
    case Sgi(intid) => intid < NUM_SGI_VIRQS
    case WriteSgiPending => true
  }

  ghost predicate PossibleRun(s: State, acts: seq<Action>)
    decreases |acts|
  {
    acts == [] || (Possible(s, acts[0]) && PossibleRun(Step(s, acts[0]), acts[1..]))
  }

  /** The state after `vgic_init`. */
  function Init(): State {
    State(Running, false, set i: int | 0 <= i < NUM_SGI_VIRQS && IsSgi(i), {},
          Tables(NoHandles(NUM_VCPU_LOCAL_VIRQS), NoHandles(NUM_SLOTS_SPI_VIRQ)), NoHandles(NUM_LIST_REGS), [],
          Kernel(seq(NUM_LIST_REGS, _ => VIRQ_INVALID), {}, {}, {}), History([], [], []))
  }

  /** The registrations made by `init`. */
  const BOOT_ACTIONS := [
    Register(27, VppiAck), Register(0, SgiAck), Register(1, SgiAck), Register(SERIAL_IRQ, SerialAck)]
}
