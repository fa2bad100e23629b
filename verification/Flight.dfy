/** Interrupts in flight: the copies held by the list registers and the overflow queue. */
module Flight {
  import opened Protocol

  function QueueIrqs(t: Tables, q: seq<Ref>): (irqs: seq<int>)
    ensures |irqs| == |q|
  {
    seq(|q|, i requires 0 <= i < |q| => Deref(t, q[i]).virq)
  }

  function One(h: Handle): multiset<int> {
    if h.Valid() then multiset{h.virq} else multiset{}
  }

  /** The interrupts held by a row of list registers. */
  function Bag(hs: seq<Handle>): multiset<int> {
    if hs == [] then multiset{} else One(hs[0]) + Bag(hs[1..])
  }

  /** All copies in flight, list registers and queue together. */
  function InFlight(s: State): multiset<int> {
    Bag(s.lrs) + multiset(QueueIrqs(s.tables, s.queue))
  }

  ghost predicate AllValid(hs: seq<Handle>) {
    forall i :: 0 <= i < |hs| ==> hs[i].Valid()
  }

  lemma Regroup(a: multiset<int>, b: multiset<int>, c: multiset<int>, d: multiset<int>, e: multiset<int>)
    requires b + c == d + e
    ensures (a + b) + c == (a + d) + e
  {
    assert (a + b) + c == a + (b + c);
    assert (a + d) + e == a + (d + e);
  }

  lemma {:induction false} BagUpdate(hs: seq<Handle>, idx: nat, h: Handle)
    requires idx < |hs|
    ensures Bag(hs[idx := h]) + One(hs[idx]) == Bag(hs) + One(h)
  {
    var hs' := hs[idx := h];
    if idx == 0 {
      assert hs'[1..] == hs[1..];
    } else {
      BagUpdate(hs[1..], idx - 1, h);
      assert hs'[1..] == hs[1..][idx - 1 := h];
      Regroup(One(hs[0]), Bag(hs'[1..]), One(hs[idx]), Bag(hs[1..]), One(h));
    }
  }

  /** The bag counts the valid registers: it is as long as the row only when all are valid. */
  lemma {:induction false} BagSize(hs: seq<Handle>)
    ensures |Bag(hs)| <= |hs|
    ensures |Bag(hs)| == |hs| <==> AllValid(hs)
  {
    if hs != [] {
      BagSize(hs[1..]);
      assert AllValid(hs) <==> hs[0].Valid() && AllValid(hs[1..]) by {
        assert forall i :: 0 < i < |hs| ==> hs[i] == hs[1..][i - 1];
      }
    }
  }

  lemma {:induction false} BagMember(hs: seq<Handle>, irq: int)
    ensures irq in Bag(hs) <==> exists i :: 0 <= i < |hs| && hs[i].Valid() && hs[i].virq == irq
  {
    if hs != [] {
      BagMember(hs[1..], irq);
      if irq in Bag(hs[1..]) {
        var i :| 0 <= i < |hs[1..]| && hs[1..][i].Valid() && hs[1..][i].virq == irq;
        assert hs[i + 1].Valid() && hs[i + 1].virq == irq;
      }
      if i :| 0 <= i < |hs| && hs[i].Valid() && hs[i].virq == irq && i > 0 {
        assert hs[1..][i - 1].Valid() && hs[1..][i - 1].virq == irq;
      }
    }
  }

  lemma {:induction false} BagEmpty(hs: seq<Handle>)
    requires forall i :: 0 <= i < |hs| ==> !hs[i].Valid()
    ensures Bag(hs) == multiset{}
  {
    if hs != [] {
      BagEmpty(hs[1..]);
    }
  }

  lemma QueueAppend(t: Tables, q: seq<Ref>, r: Ref)
    ensures QueueIrqs(t, q + [r]) == QueueIrqs(t, q) + [Deref(t, r).virq]
    ensures multiset(QueueIrqs(t, q + [r])) == multiset(QueueIrqs(t, q)) + multiset{Deref(t, r).virq}
  {
  }

  lemma QueueUncons(t: Tables, q: seq<Ref>)
    requires q != []
    ensures QueueIrqs(t, q) == [Deref(t, q[0]).virq] + QueueIrqs(t, q[1..])
    ensures multiset(QueueIrqs(t, q)) == multiset{Deref(t, q[0]).virq} + multiset(QueueIrqs(t, q[1..]))
  {
  }

  lemma InFlightSize(s: State)
    ensures |InFlight(s)| == |Bag(s.lrs)| + |s.queue|
  {
  }
}
