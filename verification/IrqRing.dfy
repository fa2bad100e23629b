/** `struct irq_queue`: a 64-slot ring of pointers with masked head and tail indices. It
    refines a sequence of at most 63 pointers. */
module IrqRing {
  import opened Options
  import opened Protocol

  const MAX_IRQ_QUEUE_LEN := 64

  /** `IRQ_QUEUE_NEXT`. */
  function Next(i: nat): nat {
    (i + 1) % MAX_IRQ_QUEUE_LEN
  }

  /** Masking an index with `MAX_IRQ_QUEUE_LEN - 1` reduces it modulo the ring size. */
  lemma MaskIsModulo(i: bv64)
    ensures (i + 1) & 63 == (i + 1) % 64
  {
  }

  /** The slots from `head` up to `tail`, wrapping around the end. */
  function Between<T>(a: seq<T>, head: nat, tail: nat): (q: seq<T>)
    requires |a| == MAX_IRQ_QUEUE_LEN && head < MAX_IRQ_QUEUE_LEN && tail < MAX_IRQ_QUEUE_LEN
    ensures |q| <= QUEUE_CAPACITY
    ensures |q| == QUEUE_CAPACITY <==> Next(tail) == head
    ensures q == [] <==> head == tail
  {
    if head <= tail then a[head..tail] else a[head..] + a[..tail]
  }

  lemma BetweenAppend<T>(a: seq<T>, head: nat, tail: nat, x: T)
    requires |a| == MAX_IRQ_QUEUE_LEN && head < MAX_IRQ_QUEUE_LEN && tail < MAX_IRQ_QUEUE_LEN
    requires Next(tail) != head
    ensures Between(a[tail := x], head, Next(tail)) == Between(a, head, tail) + [x]
  {
    var b := a[tail := x];
    assert Next(tail) == if tail == 63 then 0 else tail + 1;
    if head <= tail {
      assert b[head..tail + 1] == a[head..tail] + [x];
    } else {
      assert b[head..] == a[head..] && b[..tail + 1] == a[..tail] + [x];
    }
  }

  lemma BetweenTail<T>(a: seq<T>, head: nat, tail: nat)
    requires |a| == MAX_IRQ_QUEUE_LEN && head < MAX_IRQ_QUEUE_LEN && tail < MAX_IRQ_QUEUE_LEN
    requires head != tail
    ensures Between(a, head, tail) == [a[head]] + Between(a, Next(head), tail)
  {
    assert Next(head) == if head == 63 then 0 else head + 1;
    if head < tail {
      assert a[head..tail] == [a[head]] + a[head + 1..tail];
    } else {
      assert a[head..] == [a[head]] + a[head + 1..];
    }
  }

  class Ring {
    const irqs: array<Ref>
    var head: nat
    var tail: nat

    ghost predicate Valid()
      reads this
    {
      irqs.Length == MAX_IRQ_QUEUE_LEN && head < MAX_IRQ_QUEUE_LEN && tail < MAX_IRQ_QUEUE_LEN
    }

    /** The queued pointers, oldest first. */
    ghost function Contents(): (q: seq<Ref>)
      requires Valid()
      reads this, irqs
      ensures |q| <= QUEUE_CAPACITY
    {
      Between(irqs[..], head, tail)
    }

    constructor ()
      ensures Valid() && fresh(irqs) && Contents() == []
    {
      irqs := new Ref[MAX_IRQ_QUEUE_LEN](_ => Local(0));
      head, tail := 0, 0;
    }

    /** `vgic_irq_enqueue`: fails exactly when 63 pointers are queued. */
    method Enqueue(r: Ref) returns (err: int)
      requires Valid()
      modifies this`tail, irqs
      ensures Valid()
      ensures err == if old(|Contents()|) == QUEUE_CAPACITY then -1 else 0
      ensures Contents() == if err == 0 then old(Contents()) + [r] else old(Contents())
    {
      if Next(tail) == head {
        return -1;
      }
      BetweenAppend(irqs[..], head, tail, r);
      ghost var slots := irqs[..];
      irqs[tail] := r;
      assert irqs[..] == slots[tail := r];
      tail := Next(tail);
      return 0;
    }

    /** `vgic_irq_dequeue`: the oldest pointer, or NULL when nothing is queued. */
    method Dequeue() returns (r: Option<Ref>)
      requires Valid()
      modifies this`head
      ensures Valid()
      ensures r == if old(Contents()) == [] then None else Some(old(Contents())[0])
      ensures Contents() == if r.None? then old(Contents()) else old(Contents())[1..]
    {
      r := None;
      if head != tail {
        BetweenTail(irqs[..], head, tail);
        r := Some(irqs[head]);
        head := Next(head);
      }
    }
  }
}
