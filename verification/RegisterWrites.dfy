/** Word writes to the bitmap registers: what the count-trailing-zeros loops add up to. */
module RegisterWrites {
  import opened Words
  import opened Protocol
  import opened Invariants
  import opened Capacity

  lemma ExecOne(s: State, a: Action)
    ensures Exec(s, [a]) == Step(s, a)
  {
  }

  lemma ExecNone(s: State)
    ensures Exec(s, []) == s
  {
  }

  lemma StepOfBit(s: State, reg: BitmapRegister, irq: nat)
    ensures Step(s, BitAction(reg, irq)) ==
      if !s.status.Running? then s else
        match reg
        case ISENABLER => EnableIrq(s, irq)
        case ICENABLER => DisableIrq(s, irq)
        case ISPENDR => Inject(s, irq).0
        case ICPENDR => s.(pending := s.pending - {irq})
  {
  }

  /** One turn of the loop performs the action of the lowest selected bit. */
  lemma LoopTurn(s: State, reg: BitmapRegister, base: nat, d: Word)
    requires d != {}
    ensures Exec(s, BitActions(reg, Irqs(base, d)))
         == Exec(Step(s, BitAction(reg, base + Ctz(d))), BitActions(reg, Irqs(base, d - {Ctz(d)})))
  {
    hide Step, Ctz, Irqs;
    CtzTakesHead(base, d);
    var rest := Irqs(base, d - {Ctz(d)});
    var acts := BitActions(reg, Irqs(base, d));
    assert acts[0] == BitAction(reg, base + Ctz(d));
    assert acts[1..] == BitActions(reg, rest);
  }

  lemma LoopEnd(s: State, reg: BitmapRegister, base: nat)
    ensures Exec(s, BitActions(reg, Irqs(base, {}))) == s
  {
    NoIrqs(base);
  }

  function AsSet(irqs: seq<nat>): set<int> {
    set i | 0 <= i < |irqs| :: irqs[i] as int
  }

  lemma AsSetCons(irqs: seq<nat>)
    requires irqs != []
    ensures AsSet(irqs) == {irqs[0] as int} + AsSet(irqs[1..])
  {
    forall x ensures x in AsSet(irqs) <==> x in {irqs[0] as int} + AsSet(irqs[1..]) {
      if i :| 0 <= i < |irqs| && irqs[i] == x && i > 0 {
        assert irqs[1..][i - 1] == x;
      }
      if i :| 0 <= i < |irqs[1..]| && irqs[1..][i] == x {
        assert irqs[i + 1] == x;
      }
    }
  }

  /** The software-generated interrupts among `xs`. */
  function Sgis(xs: set<int>): set<int> {
    set x | x in xs && IsSgi(x)
  }

  /** A completed bitmap write changes the flags as a whole: ISENABLER sets the selected enable
      flags, ICENABLER clears them except those of SGIs, ICPENDR clears the selected pending
      flags, and ISPENDR sets the pending flags of those selected interrupts that are registered
      and enabled while the distributor is on. No write touches the other bitmap. */
  ghost predicate WholeWrite(s: State, s': State, reg: BitmapRegister, xs: set<int>) {
    && s'.on == s.on && s'.tables == s.tables
    && match reg
    case ISENABLER => s'.enabled == s.enabled + xs && s'.pending == s.pending
    case ICENABLER => s'.enabled == s.enabled - (xs - Sgis(xs)) && s'.pending == s.pending
    case ICPENDR => s'.pending == s.pending - xs && s'.enabled == s.enabled
    case ISPENDR => s'.pending == s.pending + Delivered(s, xs) && s'.enabled == s.enabled
  }

  /** The interrupts among `xs` that an injection does not drop. */
  ghost function Delivered(s: State, xs: set<int>): set<int> {
    set x | x in xs && Delivers(s, x)
  }

  lemma BitStep(s: State, reg: BitmapRegister, irq: nat)
    requires s.status.Running? && TablesOk(s.tables)
    ensures WholeWrite(s, Step(s, BitAction(reg, irq)), reg, {irq as int})
  {
    if reg.ISPENDR? {
      InjectSetsFlag(s, irq);
      hide Inject;
    }
  }

  lemma InjectSetsFlag(s: State, irq: nat)
    requires TablesOk(s.tables)
    ensures var s' := Inject(s, irq).0;
      && s'.on == s.on && s'.enabled == s.enabled && s'.tables == s.tables
      && s'.pending == if Delivers(s, irq) then s.pending + {irq as int} else s.pending
  {
    FindRegistered(s.tables, irq);
    FindNamesIrq(s.tables, irq);
  }

  lemma WholeCompose(s: State, m: State, s': State, reg: BitmapRegister, x: int, xs: set<int>)
    requires WholeWrite(s, m, reg, {x}) && WholeWrite(m, s', reg, xs)
    ensures WholeWrite(s, s', reg, {x} + xs)
  {
  }

  /** Word-write refinement, for any list of selected interrupts. */
  lemma {:induction false} WritesWhole(s: State, reg: BitmapRegister, irqs: seq<nat>)
    requires s.status.Running? && TablesOk(s.tables)
    ensures var s' := Exec(s, BitActions(reg, irqs));
      s'.status.Running? ==> WholeWrite(s, s', reg, AsSet(irqs))
    decreases |irqs|
  {
    if irqs != [] {
      hide Step, Delivers, AsSet, TablesOk;
      var acts := BitActions(reg, irqs);
      var m := Step(s, acts[0]);
      assert acts[1..] == BitActions(reg, irqs[1..]);
      BitStep(s, reg, irqs[0]);
      AsSetCons(irqs);
      if m.status.Running? {
        WritesWhole(m, reg, irqs[1..]);
        if Exec(s, acts).status.Running? {
          WholeCompose(s, m, Exec(s, acts), reg, irqs[0], AsSet(irqs[1..]));
        }
      } else {
        StoppedStays(m, acts[1..]);
      }
    }
  }

  // ---------------------------------------------------------------- words

  /** The word of bank `n` in a set of flags. */
  function BitsOf(flags: set<int>, n: nat): Word {
    set b: nat | b < 32 && IsFlag(flags, n, b)
  }

  predicate IsFlag(flags: set<int>, n: nat, b: nat) {
    32 * n + b in flags
  }

  lemma Selected(n: nat, d: Word, x: int)
    ensures x in AsSet(Irqs(32 * n, d)) <==> 32 * n <= x && x - 32 * n in d
  {
    var irqs := Irqs(32 * n, d);
    if x in AsSet(irqs) {
      var i :| 0 <= i < |irqs| && irqs[i] == x;
      assert irqs[i] in irqs;
    }
    if 32 * n <= x && x - 32 * n in d {
      var irq: nat := x;
      assert irq in irqs;
    }
  }

  /** Setting, or clearing, the selected flags is a whole-word OR, or AND-NOT, of one bank. */
  lemma BankUpdate(flags: set<int>, n: nat, d: Word, k: nat)
    ensures BitsOf(flags + AsSet(Irqs(32 * n, d)), k) == if k == n then BitsOf(flags, k) + d else BitsOf(flags, k)
    ensures BitsOf(flags - AsSet(Irqs(32 * n, d)), k) == if k == n then BitsOf(flags, k) - d else BitsOf(flags, k)
  {
    hide Irqs, AsSet;
    var xs := AsSet(Irqs(32 * n, d));
    forall b: nat | b < 32
      ensures IsFlag(flags + xs, k, b) <==> IsFlag(flags, k, b) || (k == n && b in d)
      ensures IsFlag(flags - xs, k, b) <==> IsFlag(flags, k, b) && !(k == n && b in d)
    {
      Selected(n, d, 32 * k + b);
    }
  }

  /** ICENABLER keeps the SGI bits, which are the low half of bank 0. */
  lemma SgiBitsKept(n: nat, d: Word)
    ensures var xs := AsSet(Irqs(32 * n, d));
      xs - Sgis(xs) == AsSet(Irqs(32 * n, if n == 0 then d - SGI_BITS else d))
  {
    var xs := AsSet(Irqs(32 * n, d));
    var e: Word := if n == 0 then d - SGI_BITS else d;
    hide Irqs, AsSet;
    forall x ensures x in xs - Sgis(xs) <==> x in AsSet(Irqs(32 * n, e)) {
      Selected(n, d, x);
      Selected(n, e, x);
    }
  }

  /** The selected bits of bank `n` whose interrupts are registered and enabled while the
      distributor is on. */
  ghost function DeliveredBits(s: State, n: nat, d: Word): Word {
    set b | b in d && Delivers(s, 32 * n + b)
  }

  lemma DeliveredAsBits(s: State, n: nat, d: Word)
    ensures Delivered(s, AsSet(Irqs(32 * n, d))) == AsSet(Irqs(32 * n, DeliveredBits(s, n, d)))
  {
    var xs, e := AsSet(Irqs(32 * n, d)), DeliveredBits(s, n, d);
    hide Irqs, AsSet, Delivers;
    forall x ensures x in Delivered(s, xs) <==> x in AsSet(Irqs(32 * n, e)) {
      Selected(n, d, x);
      Selected(n, e, x);
    }
  }

  /** The words of bank `k` before and after a write to bank `n`. */
  ghost predicate BanksUpdated(s: State, s': State, reg: BitmapRegister, n: nat, d: Word, k: nat) {
    && (BitsOf(s'.enabled, k) ==
          if k == n && reg.ISENABLER? then BitsOf(s.enabled, k) + d
          else if k == n && reg.ICENABLER? then BitsOf(s.enabled, k) - (if n == 0 then d - SGI_BITS else d)
          else BitsOf(s.enabled, k))
    && (BitsOf(s'.pending, k) ==
          if k == n && reg.ISPENDR? then BitsOf(s.pending, k) + DeliveredBits(s, n, d)
          else if k == n && reg.ICPENDR? then BitsOf(s.pending, k) - d
          else BitsOf(s.pending, k))
  }

  lemma BanksUpdate(s: State, s': State, reg: BitmapRegister, n: nat, d: Word, k: nat)
    requires WholeWrite(s, s', reg, AsSet(Irqs(32 * n, d)))
    ensures BanksUpdated(s, s', reg, n, d, k)
  {
    hide Irqs, AsSet, BitsOf, Sgis, Delivered, DeliveredBits;
    var e: Word := if n == 0 then d - SGI_BITS else d;
    SgiBitsKept(n, d);
    DeliveredAsBits(s, n, d);
    BankUpdate(s.pending, n, DeliveredBits(s, n, d), k);
    BankUpdate(s.enabled, n, d, k);
    BankUpdate(s.enabled, n, e, k);
    BankUpdate(s.pending, n, d, k);
  }

  // ---------------------------------------------------------------- dispatch on the register offset

  const GIC_DIST_CTLR := 0x000
  const GIC_DIST_ISACTIVER0 := 0x300
  const GIC_DIST_SGIR := 0xF00
  const GIC_DIST_CPENDSGIR0 := 0xF10
  const GIC_DIST_SPENDSGIRN := 0xF2C

  /** The offset of the first register of a group, as section 4.1.2 of the ARM GIC Architecture
      Specification (version 2.0) lists them. */
  function FirstOffset(reg: BitmapRegister): nat {
    match reg
    case ISENABLER => 0x100
    case ICENABLER => 0x180
    case ISPENDR => 0x200
    case ICPENDR => 0x280
  }

  datatype Target =
    | Ctlr
    | Bits(reg: BitmapRegister)
    | Sgir
    | SgiPending  // GICD_CPENDSGIR and GICD_SPENDSGIR, not implemented
    | Other       // no effect on interrupt delivery

  /** The `switch` of `vgic_dist_reg_write`. */
  function Decode(offset: nat): Target {
    if offset < GIC_DIST_CTLR + 4 then Ctlr
    else if offset < FirstOffset(ISENABLER) then Other
    else if offset < FirstOffset(ICENABLER) then Bits(ISENABLER)
    else if offset < FirstOffset(ISPENDR) then Bits(ICENABLER)
    else if offset < FirstOffset(ICPENDR) then Bits(ISPENDR)
    else if offset < GIC_DIST_ISACTIVER0 then Bits(ICPENDR)
    else if offset < GIC_DIST_SGIR then Other
    else if offset < GIC_DIST_SGIR + 4 then Sgir
    else if GIC_DIST_CPENDSGIR0 <= offset < GIC_DIST_SPENDSGIRN + 4 then SgiPending
    else Other
  }

  /** An aligned word access whose flags lie inside the 31-word bitmaps: every aligned offset but the
      last of each bitmap group. */
  predicate InBounds(offset: nat) {
    offset % 4 == 0 && !(0x100 <= offset < 0x300 && offset % 0x80 == 0x7C)
  }

  /** The protocol actions of a word write. */
  function WriteActions(offset: nat, data: Word): seq<Action>
    requires InBounds(offset)
  {
    match Decode(offset)
    case Ctlr => CtlrActions(data)
    case Bits(reg) => BitActions(reg, Irqs((offset - FirstOffset(reg)) * 8, data))
    case Sgir => SgirActions(data)
    case SgiPending => [WriteSgiPending]
    case Other => []
  }

  /** Sections 4.3.5 to 4.3.8 of that specification: for interrupt `irq` the register number is
      `irq / 32`, at four bytes each, and the bit number is `irq % 32`. */
  lemma OneBitWrite(irq: nat)
    requires irq < NUM_IRQS
    ensures var at := irq / 32 * 4; var bit: Word := {irq % 32};
      && InBounds(0x100 + at) && WriteActions(0x100 + at, bit) == [Enable(irq)]
      && InBounds(0x180 + at) && WriteActions(0x180 + at, bit) == [Disable(irq)]
      && InBounds(0x200 + at) && WriteActions(0x200 + at, bit) == [Pend(irq)]
      && InBounds(0x280 + at) && WriteActions(0x280 + at, bit) == [Unpend(irq)]
  {
    OneBitIrqs(irq);
    hide Irqs;
    assert (irq / 32 * 4) * 8 == irq / 32 * 32;
  }

  lemma OneBitIrqs(irq: nat)
    ensures Irqs(irq / 32 * 32, {irq % 32}) == [irq]
  {
    AscendingUnique(Irqs(irq / 32 * 32, {irq % 32}), [irq]);
  }

  /** In every state the guest can make every in-bounds word write, so the theorems about all
      possible runs cover all such writes, those that stop the VMM included. */
  lemma WritePossible(s: State, offset: nat, data: Word)
    requires InBounds(offset)
    ensures PossibleRun(s, WriteActions(offset, data))
  {
    hide PossibleRun, Step, Irqs;
    match Decode(offset)
    case Bits(reg) =>
      var n := (offset - FirstOffset(reg)) / 4;
      assert (offset - FirstOffset(reg)) * 8 == 32 * n;
      BitWritesPossible(s, reg, n, data);
    case _ => ShortRunPossible(s, WriteActions(offset, data));
  }

  lemma ShortRunPossible(s: State, acts: seq<Action>)
    requires |acts| <= 1 && (acts != [] ==> Possible(s, acts[0]))
    ensures PossibleRun(s, acts)
  {
    hide Step, Possible;
  }

  /** The bitmap group that an offset from 0x100 to 0x2FF belongs to. */
  function Group(offset: nat): BitmapRegister {
    if offset < 0x180 then ISENABLER else if offset < 0x200 then ICENABLER
    else if offset < 0x280 then ISPENDR else ICPENDR
  }

  /** What a word write to the register at `offset` does: CTLR switches the distributor, a bitmap
      register updates the words of its bank, SGIR injects the interrupt in bits 3 to 0 unless the
      filter is reserved, CPENDSGIR and SPENDSGIR stop the VMM, and no other register has an
      effect on interrupt delivery. */
  ghost predicate RegisterWritten(s: State, offset: nat, data: Word, s': State) {
    if offset == 0x000 then
      s' == s.(on := if data == {0} then true else if data == {} then false else s.on)
    else if 0x100 <= offset < 0x300 then
      s'.status.Running? ==> forall k: nat :: BanksUpdated(s, s', Group(offset), offset % 0x80 / 4, data, k)
    else if offset == 0xF00 then
      if 24 in data && 25 in data then s' == s else exists ok :: Injected(s, SgiIntid(data), s', ok)
    else if 0xF10 <= offset <= 0xF2C then s' == s.(status := Unimplemented)
    else s' == s
  }

  /** Every in-bounds word write has the effect of its register. */
  lemma WriteEffect(s: State, offset: nat, data: Word)
    requires Inv(s) && s.status.Running? && InBounds(offset)
    ensures RegisterWritten(s, offset, data, Exec(s, WriteActions(offset, data)))
  {
    hide Inv, Step, BitActions, BanksUpdated, Injected;
    if 0x100 <= offset < 0x300 {
      BitmapWriteEffect(s, Group(offset), offset % 0x80 / 4, data);
      assert (offset - FirstOffset(Group(offset))) * 8 == 32 * (offset % 0x80 / 4);
    } else if offset == 0xF00 {
      SgirEffect(s, data);
    } else {
      ShortWriteEffect(s, offset, data);
    }
  }

  lemma ShortWriteEffect(s: State, offset: nat, data: Word)
    requires s.status.Running? && InBounds(offset) && !(0x100 <= offset < 0x300) && offset != 0xF00
    ensures RegisterWritten(s, offset, data, Exec(s, WriteActions(offset, data)))
  {
    ExecNone(s);
    ExecOne(s, SetCtlr(data == {0}));
    ExecOne(s, WriteSgiPending);
    hide Exec;
  }

  /** The effects that do not depend on the invariant, one by one. */
  lemma WriteEffects(s: State, offset: nat, data: Word)
    requires s.status.Running? && InBounds(offset)
    ensures var s' := Exec(s, WriteActions(offset, data));
      && (Inv(s) ==> RegisterWritten(s, offset, data, s'))
      && (offset == 0x000 ==> s' == s.(on := if data == {0} then true else if data == {} then false else s.on))
      && (offset == 0xF00 && 24 in data && 25 in data ==> s' == s)
      && (0xF10 <= offset <= 0xF2C ==> s' == s.(status := Unimplemented))
      && (0x000 < offset < 0x100 || 0x300 <= offset < 0xF00 || 0xF00 < offset < 0xF10 || 0xF2C < offset ==> s' == s)
  {
    hide Inv, Exec;
    if Inv(s) {
      WriteEffect(s, offset, data);
    }
    ExecNone(s);
    if !(0x100 <= offset < 0x300) && offset != 0xF00 {
      ShortWriteEffect(s, offset, data);
    }
  }

  lemma SgirEffect(s: State, data: Word)
    requires Inv(s) && s.status.Running?
    ensures var s' := Exec(s, SgirActions(data));
      if 24 in data && 25 in data then s' == s else exists ok :: Injected(s, SgiIntid(data), s', ok)
  {
    ExecNone(s);
    ExecOne(s, Sgi(SgiIntid(data)));
    hide Exec, Inject, Inv, Injected;
    InjectEffect(s, SgiIntid(data));
  }

  lemma BitmapWriteEffect(s: State, reg: BitmapRegister, n: nat, data: Word)
    requires Inv(s) && s.status.Running?
    ensures var s' := Exec(s, BitActions(reg, Irqs(32 * n, data)));
      s'.status.Running? ==> forall k: nat :: BanksUpdated(s, s', reg, n, data, k)
  {
    hide Exec, BitActions, BanksUpdated, WholeWrite, Irqs, AsSet;
    var s' := Exec(s, BitActions(reg, Irqs(32 * n, data)));
    WritesWhole(s, reg, Irqs(32 * n, data));
    if s'.status.Running? {
      forall k: nat ensures BanksUpdated(s, s', reg, n, data, k) {
        BanksUpdate(s, s', reg, n, data, k);
      }
    }
  }

  lemma SgiPendingWrite(s: State)
    requires s.status.Running?
    ensures Exec(s, [WriteSgiPending]) == s.(status := Unimplemented)
  {
    ExecOne(s, WriteSgiPending);
  }

  lemma BitWritesPossible(s: State, reg: BitmapRegister, n: nat, data: Word)
    requires n < 31
    ensures PossibleRun(s, BitActions(reg, Irqs(32 * n, data)))
  {
    hide PossibleRun;
    var irqs := Irqs(32 * n, data);
    var acts := BitActions(reg, irqs);
    forall i | 0 <= i < |acts| ensures GuestWrite(acts[i]) {
      assert irqs[i] in irqs;
    }
    GuestWritesPossible(s, acts);
  }
}
