/** The vGIC driver as it runs: fixed-size tables, a ring and bitmap words updated in place.
    Every handler is proved to perform exactly its step of the protocol. */
module Vgic {
  import opened Options
  import opened Words
  import opened Protocol
  import opened Bitmaps
  import opened IrqRing
  import opened Invariants
  import opened RegisterWrites

  /** Valid handles name interrupts whose flags lie inside the bitmaps. */
  ghost predicate InBitmaps(hs: seq<Handle>) {
    forall i :: 0 <= i < |hs| && hs[i].Valid() ==> 0 <= hs[i].virq < NUM_IRQS
  }

  ghost predicate RefsInRange(q: seq<Ref>) {
    forall i :: 0 <= i < |q| ==>
      match q[i]
      case Local(k) => k < NUM_VCPU_LOCAL_VIRQS
      case Spi(k) => k < NUM_SLOTS_SPI_VIRQ
  }

  lemma EmptySlotsOk()
    ensures TablesOk(Tables(NoHandles(NUM_VCPU_LOCAL_VIRQS), NoHandles(NUM_SLOTS_SPI_VIRQ)))
    ensures InBitmaps(NoHandles(NUM_VCPU_LOCAL_VIRQS)) && InBitmaps(NoHandles(NUM_SLOTS_SPI_VIRQ))
    ensures InBitmaps(NoHandles(NUM_LIST_REGS)) && RefsInRange([])
  {
  }

  class Driver {
    var status: Status
    var ctlr: nat
    const enable: Bitmap
    const pending: Bitmap
    const ring: Ring
    const locals: array<Handle>
    const vspis: array<Handle>
    const lrShadow: array<Handle>
    var kernel: Kernel
    ghost var history: History

    /** Everything the driver consists of. */
    ghost function Repr(): set<object> {
      {this, enable, enable.setN, enable.clrN, pending, pending.setN, pending.clrN,
       ring, ring.irqs, locals, vspis, lrShadow}
    }

    ghost predicate Valid()
      reads Repr()
    {
      && enable != pending && enable.setN != pending.setN && enable.setN != pending.clrN
      && enable.clrN != pending.setN && enable.clrN != pending.clrN
      && enable.Valid() && pending.Valid() && ring.Valid()
      && locals != vspis && locals != lrShadow && vspis != lrShadow
      && locals.Length == NUM_VCPU_LOCAL_VIRQS && vspis.Length == NUM_SLOTS_SPI_VIRQ
      && lrShadow.Length == NUM_LIST_REGS
      && TablesOk(Tables(locals[..], vspis[..]))
      && InBitmaps(locals[..]) && InBitmaps(vspis[..]) && InBitmaps(lrShadow[..])
      && RefsInRange(ring.Contents())
    }

    /** The protocol state that the driver represents. */
    ghost function Abs(): State
      requires Valid()
      reads Repr()
    {
      State(status, ctlr == 1, enable.Flags(), pending.Flags(), Tables(locals[..], vspis[..]),
            lrShadow[..], ring.Contents(), kernel, history)
    }

    /** `vgic_init`: static storage starts as zeroes, and every slot is then marked invalid. */
    constructor ()
      ensures Valid() && fresh(Repr()) && Abs() == Init()
    {
      status, ctlr := Running, 0;
      var e, p := DistReset();
      var spiSlots, localSlots, lrSlots, queue := InitSlots();
      enable, pending, ring := e, p, queue;
      vspis, locals, lrShadow := spiSlots, localSlots, lrSlots;
      kernel := Kernel(seq(NUM_LIST_REGS, _ => VIRQ_INVALID), {}, {}, {});
      history := History([], [], []);
      new;
      hide TablesOk, InBitmaps, RefsInRange;
      EmptySlotsOk();
      InitialState();
    }

    lemma InitialState()
      requires Valid()
      requires forall irq :: irq in enable.Flags() <==> IsSgi(irq)
      requires pending.Flags() == {}
      requires status.Running? && ctlr == 0 && history == History([], [], [])
      requires kernel == Kernel(seq(NUM_LIST_REGS, _ => VIRQ_INVALID), {}, {}, {})
      requires vspis[..] == NoHandles(NUM_SLOTS_SPI_VIRQ) && locals[..] == NoHandles(NUM_VCPU_LOCAL_VIRQS)
      requires lrShadow[..] == NoHandles(NUM_LIST_REGS) && ring.Contents() == []
      ensures Abs() == Init()
    {
      assert enable.Flags() == Init().enabled;
    }

    static method InitSlots()
      returns (spis: array<Handle>, locals: array<Handle>, lrs: array<Handle>, queue: Ring)
      ensures fresh({spis, locals, lrs, queue, queue.irqs}) && spis != locals && spis != lrs && locals != lrs
      ensures spis[..] == NoHandles(NUM_SLOTS_SPI_VIRQ) && locals[..] == NoHandles(NUM_VCPU_LOCAL_VIRQS)
      ensures lrs[..] == NoHandles(NUM_LIST_REGS)
      ensures queue.Valid() && queue.Contents() == []
    {
      spis := InvalidSlots(NUM_SLOTS_SPI_VIRQ);
      locals := InvalidSlots(NUM_VCPU_LOCAL_VIRQS);
      lrs := InvalidSlots(NUM_LIST_REGS);
      queue := new Ring();
    }

    /** `vgic_dist_reset`: all software-generated interrupts enabled, nothing pending. */
    static method DistReset() returns (e: Bitmap, p: Bitmap)
      ensures fresh({e, e.setN, e.clrN, p, p.setN, p.clrN}) && {e.setN, e.clrN} !! {p.setN, p.clrN} && e != p
      ensures e.Valid() && p.Valid()
      ensures forall irq :: irq in e.Flags() <==> IsSgi(irq)
      ensures p.Flags() == {}
    {
      e := new Bitmap(SGI_BITS);
      p := new Bitmap({});
    }

    static method InvalidSlots(n: nat) returns (slots: array<Handle>)
      ensures fresh(slots) && slots[..] == NoHandles(n)
    {
      var zero := Handle(0, NoFn);
      slots := new Handle[n](_ => zero);
      for i := 0 to n
        invariant forall j :: 0 <= j < i ==> slots[j] == NO_HANDLE
        invariant forall j :: i <= j < n ==> slots[j] == zero
      {
        slots[i] := slots[i].(virq := VIRQ_INVALID);
      }
    }

    /** `virq_find_spi_irq_data`. */
    method FindSpiSlot(irq: nat) returns (r: Option<nat>)
      requires Valid()
      ensures r == FindSpi(vspis[..], irq, 0)
    {
      var i := 0;
      while i < vspis.Length
        invariant 0 <= i <= vspis.Length
        invariant FindSpi(vspis[..], irq, 0) == FindSpi(vspis[..], irq, i)
      {
        if vspis[i].virq != VIRQ_INVALID && vspis[i].virq == irq {
          return Some(i);
        }
        i := i + 1;
      }
      return None;
    }

    /** `virq_find_irq_data`. */
    method FindIrqData(irq: nat) returns (r: Option<Ref>)
      requires Valid()
      ensures r == Find(Abs().tables, irq)
      ensures r.Some? ==> RefsInRange([r.value])
    {
      if irq < NUM_VCPU_LOCAL_VIRQS {
        return Some(Local(irq));
      }
      var slot := FindSpiSlot(irq);
      return match slot case None => None case Some(i) => Some(Spi(i));
    }

    /** Follow a pointer to a registration slot. */
    function Load(r: Ref): (h: Handle)
      requires Valid() && RefsInRange([r])
      reads Repr()
      ensures h == Deref(Abs().tables, r)
      ensures h.Valid() ==> 0 <= h.virq < NUM_IRQS
    {
      assert [r][0] == r;
      match r
      case Local(i) => locals[i]
      case Spi(i) => vspis[i]
    }

    /** `vgic_dist_is_enabled`. */
    predicate DistOn()
      requires Valid()
      reads Repr()
      ensures DistOn() == Abs().on
    {
      ctlr == 1
    }

    predicate IsEnabled(irq: nat)
      requires Valid() && irq < NUM_IRQS
      reads Repr()
      ensures IsEnabled(irq) == (irq in Abs().enabled)
    {
      enable.Has(irq)
    }

    predicate IsPending(irq: nat)
      requires Valid() && irq < NUM_IRQS
      reads Repr()
      ensures IsPending(irq) == (irq in Abs().pending)
    {
      pending.Has(irq)
    }

    predicate IsRunning()
      requires Valid()
      reads Repr()
      ensures IsRunning() == Abs().status.Running?
    {
      status.Running?
    }

    /** A failed assertion or a fault stops the VMM. */
    method Halt(why: Status)
      requires Valid()
      modifies this`status
      ensures Valid() && Abs() == old(Abs()).(status := why) && status == why
    {
      status := why;
    }

    /** `vgic_find_empty_list_reg`. */
    method FindEmptyListReg() returns (idx: int)
      requires Valid()
      ensures idx == match FirstFree(Abs().lrs, 0) case None => -1 case Some(i) => i
    {
      var i := 0;
      while i < lrShadow.Length
        invariant 0 <= i <= lrShadow.Length
        invariant FirstFree(lrShadow[..], 0) == FirstFree(lrShadow[..], i)
      {
        if lrShadow[i].virq == VIRQ_INVALID {
          return i;
        }
        i := i + 1;
      }
      return -1;
    }

    /** `virq_ack`. */
    method VirqAck(h: Handle)
      requires Valid()
      modifies this`kernel, this`status
      ensures Valid() && Abs() == Ack(old(Abs()), h)
    {
      match h.ack {
        case NoFn => status := AssertFailed;
        case SgiAck =>
        case VppiAck => AckSource(h.virq);
        case SerialAck => AckSource(SERIAL_IRQ);
      }
    }

    /** The kernel unmasks a source. */
    method AckSource(irq: int)
      requires Valid()
      modifies this`kernel
      ensures Valid() && Abs() == Unmask(old(Abs()), irq)
    {
      kernel := kernel.(masked := kernel.masked - {irq});
    }

    /** `set_enable`. */
    method SetEnable(irq: nat, on: bool)
      requires Valid() && irq < NUM_IRQS
      modifies enable, enable.setN, enable.clrN
      ensures Valid()
      ensures Abs() == old(Abs()).(enabled := if on then old(Abs()).enabled + {irq as int}
                                                    else old(Abs()).enabled - {irq as int})
    {
      enable.Put(irq, on);
    }

    /** `vgic_dist_enable_irq`. */
    method DistEnableIrq(irq: nat)
      requires Valid() && irq < NUM_IRQS
      modifies Repr()
      ensures Valid() && Abs() == EnableIrq(old(Abs()), irq)
    {
      SetEnable(irq, true);
      var r := FindIrqData(irq);
      hide Valid, Abs;
      if r.Some? {
        var h := Load(r.value);
        if h.virq != VIRQ_INVALID && !IsPending(h.virq) {
          VirqAck(h);
        }
      }
    }

    /** `vgic_dist_disable_irq`: requests to disable an SGI are ignored. */
    method DistDisableIrq(irq: nat)
      requires Valid() && irq < NUM_IRQS
      modifies Repr()
      ensures Valid() && Abs() == DisableIrq(old(Abs()), irq)
    {
      if irq >= NUM_SGI_VIRQS {
        SetEnable(irq, false);
      }
    }

    /** `vgic_dist_clr_pending_irq`: only the flag is cleared. */
    method DistClrPendingIrq(irq: nat)
      requires Valid() && irq < NUM_IRQS
      modifies Repr()
      ensures Valid() && Abs() == old(Abs()).(pending := old(Abs()).pending - {irq as int})
    {
      pending.Put(irq, false);
    }

    // -------------------------------------------------------------- registration

    /** First free slot of the SPI list. */
    method FreeSpiSlot() returns (r: Option<nat>)
      requires Valid()
      ensures r == FirstFree(vspis[..], 0)
    {
      var i := 0;
      while i < vspis.Length
        invariant 0 <= i <= vspis.Length
        invariant FirstFree(vspis[..], 0) == FirstFree(vspis[..], i)
      {
        if vspis[i].virq == VIRQ_INVALID {
          return Some(i);
        }
        i := i + 1;
      }
      return None;
    }

    /** `vgic_register_irq` and `virq_add`. */
    method VirqAdd(h: Handle) returns (ok: bool)
      requires Valid() && 0 <= h.virq < NUM_IRQS
      modifies locals, vspis
      ensures Valid() && Abs() == RegisterIrq(old(Abs()), h)
      ensures ok <==> Add(old(Abs()).tables, h).Some?
    {
      ghost var t := Tables(locals[..], vspis[..]);
      if h.virq < NUM_VCPU_LOCAL_VIRQS {
        if locals[h.virq].virq != VIRQ_INVALID {
          return false;
        }
        locals[h.virq] := h;
        AddKeepsSlots(t, h, Tables(locals[..], vspis[..]));
        return true;
      }
      var slot := FreeSpiSlot();
      if slot.None? {
        return false;
      }
      vspis[slot.value] := h;
      AddKeepsSlots(t, h, Tables(locals[..], vspis[..]));
      return true;
    }

    // -------------------------------------------------------------- injection

    /** `sel4cp_arm_vcpu_inject_irq`: the kernel loads a free list register or reports an error. */
    method KernelInject(virq: int, idx: nat) returns (err: bool)
      requires idx < NUM_LIST_REGS
      modifies this`kernel
      ensures err <==> old(kernel).lrs[idx] != VIRQ_INVALID
      ensures kernel == if err then old(kernel) else old(kernel).(lrs := old(kernel).lrs[idx := virq])
    {
      if kernel.lrs[idx] != VIRQ_INVALID {
        return true;
      }
      kernel := kernel.(lrs := kernel.lrs[idx := virq]);
      return false;
    }

    /** `vgic_vcpu_load_list_reg`. */
    method VcpuLoadListReg(idx: nat, r: Ref) returns (ok: bool)
      requires Valid() && idx < NUM_LIST_REGS && RefsInRange([r])
      modifies this`kernel, this`status, this`history, lrShadow
      ensures Valid()
      ensures (Abs(), ok) == LoadListReg(old(Abs()), idx, Deref(old(Abs()).tables, r))
    {
      var h := Load(r);
      var err := KernelInject(h.virq, idx);
      if err {
        status := AssertFailed;
        return false;
      }
      lrShadow[idx] := h;
      history := history.(loaded := history.loaded + [h.virq]);
      return true;
    }

    /** `vgic_irq_dequeue`. */
    method DequeueIrq() returns (r: Option<Ref>)
      requires Valid()
      modifies ring`head
      ensures Valid()
      ensures old(Abs()).queue == [] ==> r.None? && Abs() == old(Abs())
      ensures old(Abs()).queue != [] ==>
        r == Some(old(Abs()).queue[0]) && RefsInRange([r.value]) && Abs() == old(Abs()).(queue := old(Abs()).queue[1..])
    {
      r := ring.Dequeue();
    }

    /** The tail of `vgic_dist_set_pending_irq`: load the oldest queued interrupt if a list
        register is free. */
    method DispatchOldest() returns (ok: bool)
      requires Valid() && Abs().queue != []
      modifies this`kernel, this`status, this`history, lrShadow, ring`head
      ensures Valid() && (Abs(), ok) == Dispatch(old(Abs()))
    {
      var idx := FindEmptyListReg();
      if idx < 0 {
        return true;
      }
      hide Valid, Abs;
      var r := DequeueIrq();
      if Load(r.value).virq == VIRQ_INVALID {
        Halt(AssertFailed);
        return false;
      }
      ok := VcpuLoadListReg(idx, r.value);
    }

    method SetFlag(irq: nat)
      requires Valid() && irq < NUM_IRQS
      modifies pending, pending.setN, pending.clrN
      ensures Valid() && Abs() == old(Abs()).(pending := old(Abs()).pending + {irq as int})
    {
      pending.Put(irq, true);
    }

    /** `vgic_irq_enqueue`; a full ring stops the VMM. */
    method EnqueueIrq(r: Ref, ghost virq: int) returns (ok: bool)
      requires Valid() && RefsInRange([r]) && virq == Deref(Abs().tables, r).virq
      modifies this`status, this`history, ring`tail, ring.irqs
      ensures Valid()
      ensures ok <==> |old(Abs()).queue| < QUEUE_CAPACITY
      ensures ok ==> Abs() == Accept(old(Abs()), r)
      ensures !ok ==> Abs() == old(Abs()).(status := Overflow)
    {
      hide TablesOk, InBitmaps;
      var err := ring.Enqueue(r);
      if err != 0 {
        status := Overflow;
        return false;
      }
      assert [r][0] == r;
      history := history.(accepted := history.accepted + [virq]);
      return true;
    }

    /** `vgic_dist_set_pending_irq`. */
    method DistSetPendingIrq(irq: nat) returns (ok: bool)
      requires Valid() && irq < NUM_IRQS
      modifies Repr()
      ensures Valid() && (Abs(), ok) == Inject(old(Abs()), irq)
    {
      var r := FindIrqData(irq);
      hide Valid, Abs;
      if r.None? {
        Halt(NullHandle);
        return false;
      }
      var h := Load(r.value);
      if h.virq == VIRQ_INVALID || !DistOn() || !IsEnabled(irq) {
        return false;
      }
      if IsPending(h.virq) {
        return true;
      }
      SetFlag(h.virq);
      ok := EnqueueIrq(r.value, h.virq);
      if ok {
        ok := DispatchOldest();
      }
    }

    // -------------------------------------------------------------- maintenance

    /** The first half of `handle_vgic_maintenance`: clear the slot and the flag, acknowledge. */
    method RetireListReg(idx: nat)
      requires Valid() && idx < NUM_LIST_REGS && lrShadow[idx].Valid()
      modifies Repr()
      ensures Valid() && Abs() == Retire(old(Abs()), idx)
    {
      var h := lrShadow[idx];
      lrShadow[idx] := NO_HANDLE;
      pending.Put(h.virq, false);
      kernel := kernel.(eoi := kernel.eoi - {idx});
      history := history.(retired := history.retired + [h.virq]);
      VirqAck(h);
    }

    /** The second half: refill the slot from the queue. The load reports success as true,
        which the caller takes for an error. */
    method RefillListReg(idx: nat, garbage: int) returns (err: int)
      requires Valid() && status.Running? && idx < NUM_LIST_REGS
      modifies Repr()
      ensures Valid() && Abs() == Refill(old(Abs()), idx)
      ensures err == if old(Abs()).queue == [] then garbage else if LoadHead(old(Abs()), idx).1 then 1 else 0
    {
      err := garbage;
      var r := DequeueIrq();
      if r.Some? {
        var loaded := VcpuLoadListReg(idx, r.value);
        err := if loaded then 1 else 0;
      }
    }

    /** `handle_vgic_maintenance`. `garbage` is the value that the uninitialised `err` holds. The
        handler replies, or fails its last assertion. */
    method HandleMaintenance(idx: nat, garbage: int) returns (replied: bool)
      requires Valid() && status.Running?
      modifies Repr()
      ensures Valid() && Abs() == Maintain(old(Abs()), idx, garbage)
      ensures replied <==> status.Running?
    {
      hide Retire, LoadHead;
      if idx >= NUM_LIST_REGS || lrShadow[idx].virq == VIRQ_INVALID {
        Halt(AssertFailed);
        return false;
      }
      hide Valid, Abs;
      RetireListReg(idx);
      if !IsRunning() {
        return false;
      }
      var err := RefillListReg(idx, garbage);
      if !IsRunning() {
        return false;
      }
      if err != 0 {
        Halt(Unanswered);
        return false;
      }
      return true;
    }

    // -------------------------------------------------------------- events

    /** `handle_vppi_event`. */
    method HandleVppiEvent(irq: nat)
      requires Valid() && irq < NUM_IRQS
      modifies Repr()
      ensures Valid() && Abs() == VppiEvent(old(Abs()), irq)
    {
      kernel := kernel.(signalled := kernel.signalled - {irq});
      assert Abs() == TakeMessage(old(Abs()), irq);
      var ok := DistSetPendingIrq(irq);
      if !ok && status.Running? {
        AckSource(irq);
      }
    }

    /** `notified` on the serial channel. */
    method HandleSerialNotification()
      requires Valid()
      modifies Repr()
      ensures Valid() && Abs() == Notified(old(Abs()))
    {
      kernel := kernel.(signalled := kernel.signalled - {SERIAL_IRQ});
      assert Abs() == TakeMessage(old(Abs()), SERIAL_IRQ);
      var ok := DistSetPendingIrq(SERIAL_IRQ);
    }

    // -------------------------------------------------------------- register writes

    /** The body of a bitmap loop. */
    method ApplyBit(reg: BitmapRegister, irq: nat)
      requires Valid() && irq < NUM_IRQS
      modifies Repr()
      ensures Valid() && Abs() == Step(old(Abs()), BitAction(reg, irq))
    {
      hide Valid, Abs, Step, EnableIrq, DisableIrq, Inject;
      StepOfBit(Abs(), reg, irq);
      if !IsRunning() {
        return;
      }
      match reg {
        case ISENABLER => DistEnableIrq(irq);
        case ICENABLER => DistDisableIrq(irq);
        case ISPENDR => var _ := DistSetPendingIrq(irq);
        case ICPENDR => DistClrPendingIrq(irq);
      }
    }

    /** An aligned word write to bank `n` of a bitmap register. */
    method WriteBits(reg: BitmapRegister, n: nat, d: Word)
      requires Valid() && n < SPI_WORDS
      modifies Repr()
      ensures Valid() && Abs() == Exec(old(Abs()), BitActions(reg, Irqs(32 * n, d)))
    {
      hide Valid, Abs, Exec, Step, BitActions, Irqs;
      var data := d;
      while data != {}
        invariant Valid()
        invariant Exec(Abs(), BitActions(reg, Irqs(32 * n, data)))
               == Exec(old(Abs()), BitActions(reg, Irqs(32 * n, d)))
      {
        LoopTurn(Abs(), reg, 32 * n, data);
        var irq := Ctz(data);
        data := data - {irq};
        ApplyBit(reg, 32 * n + irq);
      }
      LoopEnd(Abs(), reg, 32 * n);
    }

    lemma BankIsFlags(m: Bitmap, n: nat)
      requires m.Valid() && n < SPI_WORDS
      ensures m.Bank(n) == BitsOf(m.Flags(), n)
    {
      forall b: nat | b < 32 ensures b in m.Bank(n) <==> IsFlag(m.Flags(), n, b) {
        assert (32 * n + b) / 32 == n && (32 * n + b) % 32 == b;
        assert m.Has(32 * n + b) <==> b in m.Bank(n);
      }
    }

    lemma BanksAreFlags()
      requires Valid()
      ensures Abs().status == status && TablesOk(Abs().tables)
      ensures enable.setN.Length == pending.setN.Length == SPI_WORDS
      ensures forall k: nat :: k < SPI_WORDS ==>
        enable.Bank(k) == BitsOf(Abs().enabled, k) && pending.Bank(k) == BitsOf(Abs().pending, k)
    {
      forall k: nat | k < SPI_WORDS
        ensures enable.Bank(k) == BitsOf(Abs().enabled, k) && pending.Bank(k) == BitsOf(Abs().pending, k)
      {
        BankIsFlags(enable, k);
        BankIsFlags(pending, k);
      }
    }

    /** An aligned word write to a bitmap register, in terms of the words: a whole-word OR into the
        enable words for ISENABLER, AND-NOT for ICENABLER (keeping the SGI bits) and for ICPENDR on
        the pending words, and for ISPENDR an OR of the registered and enabled interrupts among the
        selected into the pending words. No other word of either bitmap changes. */
    method WriteWord(reg: BitmapRegister, n: nat, d: Word)
      requires Valid() && status.Running? && n < SPI_WORDS
      modifies Repr()
      ensures Valid() && Abs() == Exec(old(Abs()), BitActions(reg, Irqs(32 * n, d)))
      ensures status.Running? ==> forall k: nat :: k < SPI_WORDS ==>
        var e := old(enable.Bank(k));
        enable.Bank(k) ==
          if k == n && reg.ISENABLER? then e + d
          else if k == n && reg.ICENABLER? then e - (if n == 0 then d - SGI_BITS else d)
          else e
      ensures status.Running? ==> forall k: nat :: k < SPI_WORDS ==>
        var p := old(pending.Bank(k));
        pending.Bank(k) ==
          if k == n && reg.ISPENDR? then p + DeliveredBits(old(Abs()), n, d)
          else if k == n && reg.ICPENDR? then p - d
          else p
    {
      hide Valid, Abs, Exec, Irqs, BitActions, BitsOf, AsSet, DeliveredBits;
      ghost var s := Abs();
      BanksAreFlags();
      WriteBits(reg, n, d);
      BanksAreFlags();
      if IsRunning() {
        WritesWhole(s, reg, Irqs(32 * n, d));
        forall k: nat | k < SPI_WORDS
          ensures enable.Bank(k) ==
            if k == n && reg.ISENABLER? then BitsOf(s.enabled, k) + d
            else if k == n && reg.ICENABLER? then BitsOf(s.enabled, k) - (if n == 0 then d - SGI_BITS else d)
            else BitsOf(s.enabled, k)
          ensures pending.Bank(k) ==
            if k == n && reg.ISPENDR? then BitsOf(s.pending, k) + DeliveredBits(s, n, d)
            else if k == n && reg.ICPENDR? then BitsOf(s.pending, k) - d
            else BitsOf(s.pending, k)
        {
          BanksUpdate(s, Abs(), reg, n, d, k);
        }
      }
    }

    /** A word write to GICD_CTLR. */
    method WriteCtlr(data: Word)
      requires Valid() && status.Running?
      modifies this`ctlr
      ensures Valid() && Abs() == Exec(old(Abs()), CtlrActions(data))
      ensures ctlr == if data == {0} then 1 else if data == {} then 0 else old(ctlr)
    {
      ExecOne(Abs(), SetCtlr(data == {0}));
      if data == {0} {
        ctlr := 1;
      } else if data == {} {
        ctlr := 0;
      }
    }

    /** A word write to GICD_SGIR. */
    method WriteSgir(data: Word)
      requires Valid() && status.Running?
      modifies Repr()
      ensures Valid() && Abs() == Exec(old(Abs()), SgirActions(data))
    {
      hide Valid, Inject, Exec;
      ExecOne(Abs(), Sgi(SgiIntid(data)));
      ExecNone(Abs());
      if !(24 in data && 25 in data) {
        var _ := DistSetPendingIrq(SgiIntid(data));
      }
    }

    /** `vgic_dist_reg_write` of a word. */
    method RegWrite(offset: nat, data: Word)
      requires Valid() && status.Running? && InBounds(offset)
      modifies Repr()
      ensures Valid() && Abs() == Exec(old(Abs()), WriteActions(offset, data))
      ensures Inv(old(Abs())) ==> RegisterWritten(old(Abs()), offset, data, Abs())
      ensures offset == 0x000 ==>
        && ctlr == (if data == {0} then 1 else if data == {} then 0 else old(ctlr))
        && Abs() == old(Abs()).(on := ctlr == 1)
      ensures offset == 0xF00 && 24 in data && 25 in data ==> Abs() == old(Abs())
      ensures 0xF10 <= offset <= 0xF2C ==> Abs() == old(Abs()).(status := Unimplemented)
      ensures 0x000 < offset < 0x100 || 0x300 <= offset < 0xF00 || 0xF00 < offset < 0xF10 || 0xF2C < offset ==>
        Abs() == old(Abs())
    {
      hide Valid, Abs, Step, Exec, BitActions, CtlrActions, SgirActions, RegisterWritten, Inv;
      ghost var s := Abs();
      assert IsRunning();
      WriteEffects(s, offset, data);
      match Decode(offset) {
        case Ctlr => WriteCtlr(data);
        case Bits(reg) =>
          var first := FirstOffset(reg);
          assert (offset - first) * 8 == 32 * ((offset - first) / 4);
          WriteBits(reg, (offset - first) / 4, data);
        case Sgir => WriteSgir(data);
        case SgiPending =>
          SgiPendingWrite(Abs());
          Halt(Unimplemented);
        case Other => ExecNone(Abs());
      }
      assert offset == 0x000 ==> DistOn() == (ctlr == 1);
    }
  }
}
