/** Emulation of guest loads and stores that touch one byte, halfword or word lane of a
    distributor register. A 64-bit value is the set of its one bits, so `&` is `*`, `|` is `+`,
    `~x` is `ALL_64 - x`, and the shifts move bit numbers. */
module Lanes {
  import opened Options
  import opened Words
  import opened Protocol

  type Reg64 = x: set<nat> | forall b :: b in x ==> b < 64

  const ALL_64: Reg64 := set b: nat | b < 64

  predicate MovedUp(x: set<nat>, s: nat, b: nat) {
    s <= b && b - s in x
  }

  predicate MovedDown(x: set<nat>, s: nat, b: nat) {
    b + s in x
  }

  /** `x << s`; bits above 63 are lost. */
  function Shl(x: set<nat>, s: nat): Reg64 {
    set b: nat | b < 64 && MovedUp(x, s, b)
  }

  /** `x >> s`. */
  function Shr(x: set<nat>, s: nat): Reg64 {
    set b: nat | b < 64 && MovedDown(x, s, b)
  }

  /** Truncation to 32 bits. */
  function Low32(x: set<nat>): Word {
    set b | b in x && b < 32
  }

  // ---------------------------------------------------------------- the fault syndrome

  datatype Width = Byte | Halfword | FullWord | Doubleword

  /** `fault_get_width`: bits 23 and 22, provided that the syndrome is valid (bit 24). */
  function GetWidth(fsr: Word): Option<Width> {
    if 24 !in fsr then None
    else if 23 in fsr then Some(if 22 in fsr then Doubleword else FullWord)
    else Some(if 22 in fsr then Halfword else Byte)
  }

  /** `HSR_SYNDROME_RT`: bits 20 to 16. */
  function GetRt(fsr: Word): (rt: nat)
    ensures rt < 32
  {
    (if 16 in fsr then 1 else 0) + (if 17 in fsr then 2 else 0) + (if 18 in fsr then 4 else 0) +
    (if 19 in fsr then 8 else 0) + (if 20 in fsr then 16 else 0)
  }

  /** The register number in binary is bits 20 to 16 of the syndrome. */
  lemma RtIsBits(fsr: Word, k: nat)
    requires k < 5
    ensures GetRt(fsr) / [1, 2, 4, 8, 16][k] % 2 == 1 <==> 16 + k in fsr
  {
    assert k == 0 || k == 1 || k == 2 || k == 3 || k == 4;
  }

  predicate IsWrite(fsr: Word) {
    6 in fsr
  }

  // ---------------------------------------------------------------- masks and emulation

  function BitCount(w: Width): nat {
    match w
    case Byte => 8
    case Halfword => 16
    case FullWord => 32
    case Doubleword => 64
  }

  /** The low `BitCount(w)` bits: `0xff`, `0xffff`, `0xffffffff` or all. */
  function LowMask(w: Width): Reg64 {
    set b | b in ALL_64 && b < BitCount(w)
  }

  /** The alignment assertions of `fault_get_data_mask`. */
  predicate Aligned(addr: nat, w: Width) {
    match w
    case Byte => true
    case Halfword => addr % 2 == 0
    case FullWord => addr % 4 == 0
    case Doubleword => true
  }

  /** `fault_get_data_mask`. */
  function DataMask(addr: nat, w: Width): Reg64 {
    Shl(LowMask(w), addr % 4 * 8)
  }

  /** `fault_emulate`. */
  function Emulate(reg: Reg64, addr: nat, w: Width, write: bool, value: Reg64): Reg64 {
    var s := addr % 4 * 8;
    var m := DataMask(addr, w);
    if write then reg - m + Shl(value, s) * m
    else reg - Shr(m, s) + Shr(value * m, s)
  }

  /** A lane of `n` bits, which an access of width `w` moves. */
  predicate LaneOf(w: Width, n: nat) {
    (w.Byte? && n == 8) || (w.Halfword? && n == 16) || (w.FullWord? && n == 32)
  }

  /** An aligned store, bit by bit: the lane holds the low bits of the stored register. */
  lemma LaneStore(word: Word, addr: nat, w: Width, n: nat, source: Reg64)
    requires LaneOf(w, n) && addr % (n / 8) == 0
    ensures var s := 8 * (addr % 4);
      && s + n <= 32
      && forall b: nat :: b in Low32(Emulate(word, addr, w, true, source)) <==>
           if s <= b < s + n then b - s in source else b in word
  {
    MaskInWord(addr, w);
    hide LowMask, DataMask;
    var s := 8 * (addr % 4);
    forall b: nat ensures b in Low32(Emulate(word, addr, w, true, source)) <==>
      if s <= b < s + n then b - s in source else b in word
    {
      assert b in DataMask(addr, w) <==> s <= b < s + n;
      assert b < 64 ==> (b in Shl(source, s) <==> MovedUp(source, s, b));
    }
  }

  /** An aligned load, bit by bit: the low bits of the register are those of the lane. */
  lemma LaneLoad(word: Word, addr: nat, w: Width, n: nat, dest: Reg64)
    requires LaneOf(w, n) && addr % (n / 8) == 0
    ensures forall b: nat :: b in Emulate(dest, addr, w, false, word * DataMask(addr, w)) <==>
      if b < n then b + 8 * (addr % 4) in word else b in dest
  {
    MaskInWord(addr, w);
    hide LowMask, DataMask;
    var s, m := 8 * (addr % 4), DataMask(addr, w);
    forall b: nat ensures b in Emulate(dest, addr, w, false, word * m) <==> if b < n then b + s in word else b in dest {
      assert b + s in m <==> b < n;
      assert b < 64 ==> (b in Shr(m, s) <==> MovedDown(m, s, b));
      assert b < 64 ==> (b in Shr(word * m * m, s) <==> MovedDown(word * m * m, s, b));
    }
  }

  /** An aligned store followed by a load of the same lane, bit by bit, for lanes of 8, 16 and 32
      bits: the lane of the word holds the low bits of the stored register and its other bits are
      kept; the loaded register gets exactly those bits and keeps its upper bits. */
  lemma LaneRoundTrip(word: Word, addr: nat, w: Width, n: nat, source: Reg64, dest: Reg64)
    requires LaneOf(w, n) && addr % (n / 8) == 0
    ensures var s := 8 * (addr % 4);
      var stored := Low32(Emulate(word, addr, w, true, source));
      var loaded := Emulate(dest, addr, w, false, stored * DataMask(addr, w));
      && s + n <= 32
      && (forall b: nat :: b in stored <==> if s <= b < s + n then b - s in source else b in word)
      && (forall b: nat :: b in loaded <==> if b < n then b in source else b in dest)
  {
    hide Emulate, DataMask, Low32;
    LaneStore(word, addr, w, n, source);
    LaneLoad(Low32(Emulate(word, addr, w, true, source)), addr, w, n, dest);
  }

  /** An aligned byte, halfword or word lane lies inside the 32-bit register. */
  lemma MaskInWord(addr: nat, w: Width)
    requires Aligned(addr, w) && !w.Doubleword?
    ensures addr % 4 * 8 + BitCount(w) <= 32
    ensures forall b: nat :: b in DataMask(addr, w) <==> addr % 4 * 8 <= b < addr % 4 * 8 + BitCount(w)
  {
  }

  // ---------------------------------------------------------------- narrow writes to bitmap registers

  /** The bits that a write to a bitmap register acts on: the bitmap cases of
      `vgic_dist_reg_write` mask the stored register but do not shift it to the lane. Bit `b`
      stands for interrupt `(offset - first) * 8 + b`. */
  function BitmapData(value: Reg64, addr: nat, w: Width): Word {
    Low32(Low32(value) * DataMask(addr, w))
  }

  /** The access should act on the low bits of the stored register. It does exactly when the
      lane is the lowest one, or neither those bits nor the bits under the mask are set; so
      byte writes to lanes 1 to 3 and halfword writes to lane 2 act on the wrong bits. */
  lemma NarrowBitmapWrite(value: Reg64, addr: nat, w: Width, n: nat)
    requires LaneOf(w, n) && addr % (n / 8) == 0
    ensures var s := 8 * (addr % 4);
      && (forall b: nat :: b in BitmapData(value, addr, w) <==> b in value && s <= b < s + n)
      && (BitmapData(value, addr, w) == (set b | b in value && b < n)
          <==> s == 0 || forall b :: b in value ==> !(b < n) && !(s <= b < s + n))
  {
    MaskInWord(addr, w);
    var s, data, low := 8 * (addr % 4), BitmapData(value, addr, w), set b | b in value && b < n;
    assert forall b: nat :: b in data <==> b in value && s <= b < s + n;
    hide BitmapData;
    if s > 0 {
      assert s >= n;
      if data == low {
        assert forall b :: b in value && b < n ==> b in low && b !in data;
        assert forall b :: b in value && s <= b < s + n ==> b in data && b !in low;
      }
    }
  }

  // ---------------------------------------------------------------- registers that are plain storage

  const GIC_DIST_PADDR := 0x800_0000

  /** Index of the word behind an offset of GICD_IGROUPR, GICD_ISACTIVER or GICD_ICACTIVER,
      32 words each. */
  function Slot(offset: nat): (r: Option<nat>)
    ensures r.Some? <==> 0x080 <= offset < 0x100 || 0x300 <= offset < 0x400
    ensures r.Some? ==> r.value < 96
  {
    if 0x080 <= offset < 0x100 then Some((offset - 0x080) / 4)
    else if 0x300 <= offset < 0x380 then Some(32 + (offset - 0x300) / 4)
    else if 0x380 <= offset < 0x400 then Some(64 + (offset - 0x380) / 4)
    else None
  }

  /** Two offsets share a word exactly when they lie in the same aligned word. */
  lemma SlotsDistinct(a: nat, b: nat)
    requires Slot(a).Some? && Slot(b).Some?
    ensures Slot(a) == Slot(b) <==> a / 4 == b / 4
  {
  }

  /** The address of the next instruction. */
  function AfterFault(pc: nat): nat {
    (pc + 4) % 0x1_0000_0000_0000_0000
  }

  lemma AdvanceTwice(pc: nat)
    ensures AfterFault(AfterFault(pc)) == (pc + 8) % 0x1_0000_0000_0000_0000
  {
  }

  /** The part of `seL4_UserContext` that emulation touches: x0 to x30 and the program counter. */
  class UserContext {
    const x: array<Reg64>
    var pc: nat

    ghost predicate Valid() {
      x.Length == 31
    }

    constructor (entry: nat)
      ensures Valid() && fresh(x) && pc == entry
    {
      x := new Reg64[31](_ => {});
      pc := entry;
    }

    /** `fault_advance_vcpu`: continue after the faulting instruction. */
    method Advance()
      modifies this`pc
      ensures pc == AfterFault(old(pc))
    {
      pc := AfterFault(pc);
    }
  }

  /** The syndrome describes an access that the emulation accepts: a valid width, an aligned
      address, and a register other than the zero register. */
  predicate Accepted(addr: nat, fsr: Word) {
    GetWidth(fsr).Some? && Aligned(addr, GetWidth(fsr).value) && GetRt(fsr) < 31
  }

  /** The low `n` bits of `source` are at bit `s` of the new word and at bit 0 of the new register;
      the other bits of word and register are the old ones. */
  ghost predicate LaneMoved(n: nat, s: nat, source: Reg64, word: Word, word': Word, dest: Reg64, dest': Reg64) {
    && (forall b: nat :: b in word' <==> if s <= b < s + n then b - s in source else b in word)
    && (forall b: nat :: b in dest' <==> if b < n then b in source else b in dest)
  }

  /** A valid syndrome of a byte, halfword or word access that is aligned and names a register. */
  predicate LaneAccess(offset: nat, fsr: Word) {
    && 24 in fsr && !(23 in fsr && 22 in fsr) && GetRt(fsr) < 31
    && (22 in fsr ==> offset % 2 == 0) && (23 in fsr ==> offset % 4 == 0)
  }

  lemma BaseIsAligned(offset: nat)
    ensures (GIC_DIST_PADDR + offset) % 2 == offset % 2 && (GIC_DIST_PADDR + offset) % 4 == offset % 4
  {
    assert GIC_DIST_PADDR + offset == 4 * 0x200_0000 + offset;
  }

  /** Bits 23 and 22 of the syndrome select a lane of 8, 16 or 32 bits. */
  lemma SyndromeLane(offset: nat, fsr: Word) returns (w: Width)
    requires LaneAccess(offset, fsr)
    ensures Accepted(GIC_DIST_PADDR + offset, fsr) && GetWidth(fsr) == Some(w)
    ensures LaneOf(w, if 23 in fsr then 32 else if 22 in fsr then 16 else 8)
  {
    hide GetRt;
    BaseIsAligned(offset);
    w := GetWidth(fsr).value;
  }

  lemma AccessRoundTrip(offset: nat, fsr: Word, source: Reg64, word: Word, dest: Reg64)
    requires LaneAccess(offset, fsr)
    ensures GetWidth(fsr).Some?
    ensures var addr, w := GIC_DIST_PADDR + offset, GetWidth(fsr).value;
      var word' := Low32(Emulate(word, addr, w, true, source));
      var dest' := Emulate(dest, addr, w, false, word' * DataMask(addr, w));
      LaneMoved(if 23 in fsr then 32 else if 22 in fsr then 16 else 8, 8 * (offset % 4),
                source, word, word', dest, dest')
  {
    hide Emulate, DataMask, Low32, GetRt;
    BaseIsAligned(offset);
    var w := SyndromeLane(offset, fsr);
    LaneRoundTrip(word, GIC_DIST_PADDR + offset, w,
                  if 23 in fsr then 32 else if 22 in fsr then 16 else 8, source, dest);
  }

  class StorageRegisters {
    const words: array<Word>

    ghost predicate Valid() {
      words.Length == 96
    }

    constructor ()
      ensures Valid() && fresh(words)
    {
      words := new Word[96](_ => {});
    }

    /** `emulate_reg_write_access` and the return to the guest. */
    method RegWrite(offset: nat, fsr: Word, regs: UserContext)
      requires Valid() && regs.Valid() && Slot(offset).Some?
      requires Accepted(GIC_DIST_PADDR + offset, fsr) && IsWrite(fsr)
      modifies words, regs`pc
      ensures words[..] == old(words[..])[Slot(offset).value :=
        Low32(Emulate(old(words[Slot(offset).value]), GIC_DIST_PADDR + offset, GetWidth(fsr).value, true,
                      regs.x[GetRt(fsr)]))]
      ensures regs.pc == AfterFault(old(regs.pc))
    {
      var i := Slot(offset).value;
      var addr := GIC_DIST_PADDR + offset;
      words[i] := Low32(Emulate(words[i], addr, GetWidth(fsr).value, IsWrite(fsr), regs.x[GetRt(fsr)]));
      regs.Advance();
    }

    /** `vgic_dist_reg_read` and `fault_advance`. */
    method RegRead(offset: nat, fsr: Word, regs: UserContext)
      requires Valid() && regs.Valid() && Slot(offset).Some?
      requires Accepted(GIC_DIST_PADDR + offset, fsr) && !IsWrite(fsr)
      modifies regs`pc, regs.x
      ensures regs.x[..] == old(regs.x[..])[GetRt(fsr) :=
        Emulate(old(regs.x[GetRt(fsr)]), GIC_DIST_PADDR + offset, GetWidth(fsr).value, false,
                words[Slot(offset).value] * DataMask(GIC_DIST_PADDR + offset, GetWidth(fsr).value))]
      ensures regs.pc == AfterFault(old(regs.pc))
    {
      var addr := GIC_DIST_PADDR + offset;
      var w := GetWidth(fsr).value;
      var reg := words[Slot(offset).value];
      var rt := GetRt(fsr);
      regs.x[rt] := Emulate(regs.x[rt], addr, w, IsWrite(fsr), reg * DataMask(addr, w));
      regs.Advance();
    }

    /** The guest stores a lane and loads it back. Bits 24, 23 and 22 of the syndromes select a lane of
        8, 16 or 32 bits at an address aligned to it. The destination register gets the stored bits
        in its low lane and keeps its upper bits, the lane of the distributor word holds those
        bits, and every other guest register, lane and word keeps its value. */
    method StoreThenLoad(offset: nat, store: Word, load: Word, regs: UserContext)
      requires Valid() && regs.Valid() && (0x080 <= offset < 0x100 || 0x300 <= offset < 0x400)
      requires LaneAccess(offset, store) && 6 in store && LaneAccess(offset, load) && 6 !in load
      requires (23 in store <==> 23 in load) && (22 in store <==> 22 in load)
      modifies words, regs`pc, regs.x
      ensures LaneMoved(if 23 in store then 32 else if 22 in store then 16 else 8, 8 * (offset % 4),
                        old(regs.x[GetRt(store)]),
                        old(words[Slot(offset).value]), words[Slot(offset).value],
                        old(regs.x[GetRt(load)]), regs.x[GetRt(load)])
      ensures forall r :: 0 <= r < 31 && r != GetRt(load) ==> regs.x[r] == old(regs.x[r])
      ensures forall i :: 0 <= i < words.Length && i != Slot(offset).value ==> words[i] == old(words[i])
      ensures regs.pc == (old(regs.pc) + 8) % 0x1_0000_0000_0000_0000
    {
      AccessRoundTrip(offset, load, regs.x[GetRt(store)], words[Slot(offset).value], regs.x[GetRt(load)]);
      ghost var w := SyndromeLane(offset, store);
      ghost var w' := SyndromeLane(offset, load);
      assert w == w';
      AdvanceTwice(regs.pc);
      hide AfterFault, GetRt, GetWidth, Accepted, LaneMoved, LaneAccess, Emulate, DataMask, Low32, Slot;
      RegWrite(offset, store, regs);
      assert regs.x[..] == old(regs.x[..]);
      RegRead(offset, load, regs);
    }
  }
}
