/** 32-bit distributor words, count-trailing-zeros, and the list of interrupts
    that a word written to a bitmap register selects.

    A word is the set of its one bits: `w | v` is `w + v`, `w & ~v` is `w - v`,
    and `w & IRQ_BIT(irq)` is non-zero exactly when `irq % 32 in w`. */
module Words {

  type Word = w: set<nat> | forall b :: b in w ==> b < 32

  /** Every bit set. */
  const ALL_BITS: Word := set b: nat | b < 32

  /** The 16 bits of the software-generated interrupts, `0x0000ffff`. */
  const SGI_BITS: Word := set b: nat | b < 16

  /** Position of the lowest one bit, found by a scan upwards from bit `b`. */
  function CtzFrom(d: Word, b: nat): (r: nat)
    requires d != {} && forall x :: x in d ==> b <= x
    ensures r in d && forall x :: x in d ==> r <= x
    decreases 32 - b
  {
    if b in d then b else
      assert b < 32 by { var x :| x in d; }
      CtzFrom(d, b + 1)
  }

  /** `__builtin_ctz`: position of the lowest one bit of a non-zero word. */
  function Ctz(d: Word): (r: nat)
    requires d != {}
    ensures r in d && forall x :: x in d ==> r <= x
  {
    CtzFrom(d, 0)
  }

  ghost predicate Ascending(s: seq<nat>) {
    forall i, j :: 0 <= i < j < |s| ==> s[i] < s[j]
  }

  lemma AscendingCons(x: nat, s: seq<nat>)
    requires Ascending(s) && forall y :: y in s ==> x < y
    ensures Ascending([x] + s)
  {
    assert forall j :: 0 <= j < |s| ==> s[j] in s;
  }

  /** The interrupts `base + k` for the one bits `k >= b` of `d`, lowest first. */
  function IrqsFrom(base: nat, d: Word, b: nat): (irqs: seq<nat>)
    requires b <= 32
    ensures Ascending(irqs)
    ensures forall irq: nat :: irq in irqs <==> base + b <= irq && irq - base in d
    decreases 32 - b
  {
    if b == 32 then []
    else if b in d then
      var rest := IrqsFrom(base, d, b + 1);
      AscendingCons(base + b, rest);
      [base + b] + rest
    else IrqsFrom(base, d, b + 1)
  }

  /** The interrupts that the word `d`, written `base / 8` bytes into a bitmap
      register, selects: each exactly once and in ascending order. */
  function Irqs(base: nat, d: Word): (irqs: seq<nat>)
    ensures Ascending(irqs)
    ensures forall irq: nat :: irq in irqs <==> base <= irq && irq - base in d
  {
    IrqsFrom(base, d, 0)
  }

  /** A strictly ascending listing of a set is unique. */
  lemma {:induction false} AscendingUnique(a: seq<nat>, b: seq<nat>)
    requires Ascending(a) && Ascending(b)
    requires forall x :: x in a <==> x in b
    ensures a == b
  {
    if a == [] {
      assert forall i :: 0 <= i < |b| ==> b[i] in b;
    } else {
      assert a[0] in a && a[0] in b;
      assert b[0] in b && b[0] in a;
      assert a[0] == b[0];
      forall x ensures x in a[1..] <==> x in b[1..] {
        assert x in a[1..] <==> x in a && x != a[0];
        assert x in b[1..] <==> x in b && x != b[0];
      }
      AscendingUnique(a[1..], b[1..]);
    }
  }

  /** One turn of a `while (data)` loop takes the head off the list of selected interrupts. */
  lemma CtzTakesHead(base: nat, d: Word)
    requires d != {}
    ensures Irqs(base, d) == [base + Ctz(d)] + Irqs(base, d - {Ctz(d)})
  {
    var c := Ctz(d);
    var rest := Irqs(base, d - {c});
    forall x: nat ensures x in Irqs(base, d) <==> x in [base + c] + rest {
      if base <= x {
        assert x - base in d <==> x == base + c || x - base in d - {c};
      }
    }
    AscendingCons(base + c, rest);
    AscendingUnique(Irqs(base, d), [base + c] + rest);
  }

  lemma NoIrqs(base: nat)
    ensures Irqs(base, {}) == []
  {
    AscendingUnique(Irqs(base, {}), []);
  }
}
