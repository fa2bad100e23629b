/** One pair of distributor bitmaps: the enable words or the pending words, each held twice
    (for the set register and for the clear register). */
module Bitmaps {
  import opened Words
  import opened Protocol

  /** Length of the SPI arrays. The word of interrupt `irq` is at index `irq / 32`, so index 0
      is never used and the last usable bank is 30. */
  const SPI_WORDS := 31

  class Bitmap {
    var set0: Word           // enable_set0 or pending_set0
    var clr0: Word           // enable_clr0 or pending_clr0
    const setN: array<Word>  // enable_set or pending_set
    const clrN: array<Word>  // enable_clr or pending_clr

    /** The words behind the set register and behind the clear register are pairwise equal. */
    ghost predicate Valid()
      reads this, setN, clrN
    {
      && setN.Length == clrN.Length == SPI_WORDS && setN != clrN
      && set0 == clr0 && setN[..] == clrN[..]
      && setN[0] == {}
    }

    /** The word that holds the flags of interrupts `32 * n` to `32 * n + 31`. */
    function Bank(n: nat): Word
      requires n < setN.Length
      reads this, setN
    {
      if n == 0 then set0 else setN[n]
    }

    /** `is_enabled`, `is_pending`. */
    predicate Has(irq: int)
      requires 0 <= irq < NUM_IRQS && setN.Length == SPI_WORDS
      reads this, setN
    {
      irq % 32 in Bank(irq / 32)
    }

    /** `vgic_dist_reg_read` of register `n`. Writes keep the flags of bank `n` at index `n` of the
        SPI array, but reads use index `n - 1`: register 1 always reads as zero, and every later
        register shows the flags of the bank before it. */
    function ReadRegister(n: nat): (w: Word)
      requires Valid() && n <= SPI_WORDS
      reads this, setN, clrN
      ensures n == 0 ==> w == Bank(0)
      ensures n == 1 ==> w == {}
      ensures n >= 2 ==> w == Bank(n - 1)
    {
      if n == 0 then set0 else setN[n - 1]
    }

    /** The interrupts whose flag is set. */
    ghost function Flags(): set<int>
      requires Valid()
      reads this, setN, clrN
    {
      set irq: int | 0 <= irq < NUM_IRQS && Has(irq)
    }

    constructor (bits: Word)
      ensures Valid() && fresh(setN) && fresh(clrN)
      ensures Bank(0) == bits && forall n :: 0 < n < SPI_WORDS ==> Bank(n) == {}
      ensures forall irq :: irq in Flags() <==> irq in bits && 0 <= irq
    {
      set0, clr0 := bits, bits;
      setN := new Word[SPI_WORDS](_ => {});
      clrN := new Word[SPI_WORDS](_ => {});
    }

    /** `set_enable`, `set_pending`: one flag changes, in both words of its bank. */
    method Put(irq: nat, on: bool)
      requires Valid() && irq < NUM_IRQS
      modifies this`set0, this`clr0, setN, clrN
      ensures Valid()
      ensures Bank(irq / 32) == if on then old(Bank(irq / 32)) + {irq % 32} else old(Bank(irq / 32)) - {irq % 32}
      ensures forall n: nat :: n < SPI_WORDS && n != irq / 32 ==> Bank(n) == old(Bank(n))
      ensures Flags() == if on then old(Flags()) + {irq as int} else old(Flags()) - {irq as int}
    {
      var b := irq % 32;
      if irq < NUM_VCPU_LOCAL_VIRQS {
        if on {
          set0, clr0 := set0 + {b}, clr0 + {b};
        } else {
          set0, clr0 := set0 - {b}, clr0 - {b};
        }
      } else {
        var i := irq / 32;
        if on {
          setN[i] := setN[i] + {b};
          clrN[i] := clrN[i] + {b};
        } else {
          setN[i] := setN[i] - {b};
          clrN[i] := clrN[i] - {b};
        }
      }
      forall other | 0 <= other < NUM_IRQS
        ensures Has(other) == if other == irq then on else old(Has(other))
      {
        assert other / 32 == irq / 32 && other % 32 == irq % 32 ==> other == irq;
      }
    }
  }
}
