/** No interrupt source stays masked for want of an acknowledgement. */
module Masking {
  import opened Protocol
  import opened Flight
  import opened Invariants
  import opened Runs

  // ---------------------------------------------------------------- registration conventions

  /** Private peripheral interrupts are registered with the VPPI callback. */
  predicate PpiWired(h: Handle) {
    IsPpi(h.virq) ==> h.ack.VppiAck?
  }

  /** The serial interrupt, and nothing else, is registered with the serial callback. */
  predicate SerialWired(h: Handle) {
    h.virq == SERIAL_IRQ <==> h.ack.SerialAck?
  }

  /** The callback is not NULL. */
  predicate HasCallback(h: Handle) {
    !h.ack.NoFn?
  }

  ghost predicate AllHandles(t: Tables, p: Handle -> bool) {
    forall r :: Deref(t, r).Valid() ==> p(Deref(t, r))
  }

  /** Every registration of the run follows the convention `p`. */
  ghost predicate Registers(acts: seq<Action>, p: Handle -> bool) {
    forall i :: 0 <= i < |acts| && acts[i].Register? ==> p(Handle(acts[i].irq, acts[i].ack))
  }

  /** Only a registration changes the tables. */
  lemma StepKeepsTables(s: State, a: Action)
    requires Inv(s) && s.status.Running? && Possible(s, a) && !a.Register?
    ensures Step(s, a).status.Intact() ==> Step(s, a).tables == s.tables
  {
    hide Inject, Maintain, InFlight;
    match a
    case Maintenance(idx, garbage) => MaintainCases(s, idx, garbage);
    case Pend(irq) => InjectKeepsKernel(s, irq);
    case Sgi(intid) => InjectKeepsKernel(s, intid);
    case Vppi(irq) => MessageCases(s, irq);
    case Serial => MessageCases(s, SERIAL_IRQ);
    case _ =>
  }

  /** A step leaves registered slots alone, and a slot it fills holds the new registration. */
  lemma StepKeepsSlots(s: State, a: Action, r: Ref)
    requires Inv(s) && s.status.Running? && Possible(s, a) && Step(s, a).status.Intact()
    ensures Deref(s.tables, r).Valid() ==> Deref(Step(s, a).tables, r) == Deref(s.tables, r)
    ensures Deref(Step(s, a).tables, r) == Deref(s.tables, r)
         || (a.Register? && Deref(Step(s, a).tables, r) == Handle(a.irq, a.ack))
  {
    if !a.Register? {
      StepKeepsTables(s, a);
    } else if Add(s.tables, Handle(a.irq, a.ack)).Some? {
      AddKeepsSlots(s.tables, Handle(a.irq, a.ack), Step(s, a).tables);
    }
  }

  lemma StepKeepsHandles(s: State, a: Action, p: Handle -> bool)
    requires Inv(s) && s.status.Running? && Possible(s, a)
    requires AllHandles(s.tables, p) && (a.Register? ==> p(Handle(a.irq, a.ack)))
    ensures Step(s, a).status.Intact() ==> AllHandles(Step(s, a).tables, p)
  {
    hide Step, Inv, Possible;
    if Step(s, a).status.Intact() {
      forall r | Deref(Step(s, a).tables, r).Valid() ensures p(Deref(Step(s, a).tables, r)) {
        StepKeepsSlots(s, a, r);
      }
    }
  }

  /** Registration stability: in every run a registered slot keeps its handle, so a pointer in the
      queue keeps naming the interrupt it named when it was queued. */
  lemma {:induction false} SlotsNeverChange(s: State, acts: seq<Action>, r: Ref)
    requires Inv(s) && s.status.Running? && PossibleRun(s, acts) && Exec(s, acts).status.Intact()
    requires Deref(s.tables, r).Valid()
    ensures Deref(Exec(s, acts).tables, r) == Deref(s.tables, r)
    decreases |acts|
  {
    hide Inv, Step, Possible, Deref;
    if acts != [] {
      var s' := Step(s, acts[0]);
      if s'.status.Running? {
        StepKeepsInv(s, acts[0]);
        StepKeepsSlots(s, acts[0], r);
        SlotsNeverChange(s', acts[1..], r);
      } else {
        StoppedStays(s', acts[1..]);
        StepKeepsSlots(s, acts[0], r);
      }
    }
  }

  lemma {:induction false} RunKeepsHandles(s: State, acts: seq<Action>, p: Handle -> bool)
    requires Inv(s) && s.status.Running? && PossibleRun(s, acts)
    requires AllHandles(s.tables, p) && Registers(acts, p)
    ensures Exec(s, acts).status.Intact() ==> AllHandles(Exec(s, acts).tables, p)
    decreases |acts|
  {
    hide Inv, Step, Possible, AllHandles;
    if acts != [] {
      var s' := Step(s, acts[0]);
      StepKeepsHandles(s, acts[0], p);
      if s'.status.Running? {
        StepKeepsInv(s, acts[0]);
        RunKeepsHandles(s', acts[1..], p);
      } else {
        StoppedStays(s', acts[1..]);
      }
    }
  }

  // ---------------------------------------------------------------- what a step does to the kernel

  /** Handling a message about `irq`: the injection either succeeds and leaves a copy in
      flight, or is dropped with the state otherwise unchanged. */
  lemma MessageCases(s: State, irq: nat)
    requires Inv(s) && s.status.Running?
    ensures var k := TakeMessage(s, irq); var (s', ok) := Inject(k, irq);
      s'.status.Intact() ==>
        && Inv(s') && InFlight(s) <= InFlight(s')
        && s'.tables == s.tables && s'.on == s.on && s'.enabled == s.enabled
        && s'.kernel.masked == s.kernel.masked && s'.kernel.signalled == s.kernel.signalled - {irq}
        && (ok ==> irq in InFlight(s'))
        && (!ok ==> s' == k && !(Registered(s.tables, irq) && s.on && irq in s.enabled))
  {
    var k := TakeMessageIsQuiet(s, irq);
    FindRegistered(s.tables, irq);
    hide Inv, InFlight, Inject, Registered, Find, TablesOk;
    InjectCases(k, irq);
  }

  lemma TakeMessageIsQuiet(s: State, irq: nat) returns (k: State)
    requires Inv(s)
    ensures k == TakeMessage(s, irq) && Inv(k) && InFlight(k) == InFlight(s)
    ensures irq in k.pending ==> irq in InFlight(k)
  {
    k := TakeMessage(s, irq);
    QuietKeepsInv(s, k);
  }

  /** An injection leaves the sources alone and loses no copy. */
  lemma InjectKeepsKernel(s: State, irq: nat)
    requires Inv(s) && s.status.Running?
    ensures var s' := Inject(s, irq).0;
      s'.status.Intact() ==>
        && InFlight(s) <= InFlight(s') && s'.kernel == s.kernel.(lrs := s'.kernel.lrs)
        && s'.tables == s.tables && s'.on == s.on && s'.enabled == s.enabled
  {
    InjectCases(s, irq);
  }

  lemma EnableOnlyUnmasks(s: State, irq: nat)
    ensures var s' := EnableIrq(s, irq);
      && InFlight(s') == InFlight(s) && s'.tables == s.tables && s'.on == s.on
      && s'.enabled == s.enabled + {irq as int}
      && s'.kernel.masked <= s.kernel.masked && s'.kernel.signalled == s.kernel.signalled
  {
    SameFlight(s, EnableIrq(s, irq));
  }

  // ---------------------------------------------------------------- which sources are masked

  /** The sources that the kernel masks when they fire. */
  predicate IsSource(irq: int) {
    IsPpi(irq) || irq == SERIAL_IRQ
  }

  /** Every source, and nothing else, is registered with the callback that unmasks it. */
  predicate SourceWired(h: Handle) {
    (IsPpi(h.virq) <==> h.ack.VppiAck?) && SerialWired(h)
  }

  /** The sources that an action unmasks: a PPI whose message is dropped, the source that maintenance
      retires, and a registered source that is enabled while it is not pending. */
  ghost function Unmasks(s: State, a: Action): set<int> {
    match a
    case Vppi(irq) => if Delivers(s, irq) then {} else {irq as int}
    case Maintenance(idx, _) =>
      if idx < NUM_LIST_REGS && IsSource(s.lrs[idx].virq) then {s.lrs[idx].virq} else {}
    case Enable(irq) =>
      if IsSource(irq) && Registered(s.tables, irq) && irq !in s.pending then {irq as int} else {}
    case _ => {}
  }

  /** The sources whose message an action takes. */
  function Takes(a: Action): set<int> {
    match a
    case Vppi(irq) => {irq as int}
    case Serial => {SERIAL_IRQ as int}
    case _ => {}
  }

  /** The source that an action masks and signals. */
  function Fires(a: Action): set<int> {
    match a
    case Raise(irq) => {irq as int}
    case _ => {}
  }

  ghost predicate SourceEffect(s: State, a: Action, s': State) {
    && s'.kernel.masked == s.kernel.masked + Fires(a) - Unmasks(s, a)
    && s'.kernel.signalled == s.kernel.signalled + Fires(a) - Takes(a)
  }

  lemma AckUnmasks(s: State, h: Handle)
    requires SourceWired(h)
    ensures Ack(s, h).kernel.masked == s.kernel.masked - (if IsSource(h.virq) then {h.virq} else {})
  {
  }

  lemma MaintainUnmasks(s: State, idx: nat, garbage: int)
    requires Inv(s) && AllHandles(s.tables, SourceWired) && s.status.Running? && idx in s.kernel.eoi
    ensures var s' := Maintain(s, idx, garbage);
      s'.status.Intact() ==> SourceEffect(s, Maintenance(idx, garbage), s')
  {
    hide Inv, InFlight, Maintain, Ack;
    MaintainCases(s, idx, garbage);
    assert SourceWired(s.lrs[idx]);
    AckUnmasks(s, s.lrs[idx]);
  }

  lemma EnableUnmasks(s: State, irq: nat)
    requires Inv(s) && AllHandles(s.tables, SourceWired)
    ensures SourceEffect(s, Enable(irq), EnableIrq(s, irq))
  {
    FindRegistered(s.tables, irq);
    FindNamesIrq(s.tables, irq);
    if Registered(s.tables, irq) {
      var h := Deref(s.tables, Find(s.tables, irq).value);
      assert SourceWired(h);
      AckUnmasks(s.(enabled := s.enabled + {irq as int}), h);
    }
  }

  lemma VppiUnmasks(s: State, irq: nat)
    requires Inv(s) && s.status.Running?
    ensures VppiEvent(s, irq).status.Intact() ==> SourceEffect(s, Vppi(irq), VppiEvent(s, irq))
  {
    hide Inv, InFlight, Inject, Registered;
    MessageCases(s, irq);
    if Inject(TakeMessage(s, irq), irq).1 {
      InjectOk(s, irq);
    }
  }

  lemma InjectOk(s: State, irq: nat)
    requires Inv(s) && Inject(TakeMessage(s, irq), irq).1
    ensures Delivers(s, irq)
  {
    var k := TakeMessageIsQuiet(s, irq);
    InjectEffect(k, irq);
  }

  /** What every action does to the sources: which are masked, and which have a message under way. In
      particular a delivered PPI or serial interrupt stays masked. */
  lemma StepSources(s: State, a: Action)
    requires Inv(s) && AllHandles(s.tables, SourceWired) && s.status.Running? && Possible(s, a)
    ensures Step(s, a).status.Intact() ==> SourceEffect(s, a, Step(s, a))
  {
    hide Inject, Maintain, VppiEvent, EnableIrq, InFlight, Core, Delivers;
    match a
    case Maintenance(idx, garbage) => MaintainUnmasks(s, idx, garbage);
    case Pend(i) => InjectKeepsKernel(s, i);
    case Sgi(i) => InjectKeepsKernel(s, i);
    case Vppi(i) => VppiUnmasks(s, i);
    case Serial => MessageCases(s, SERIAL_IRQ);
    case Enable(i) => EnableUnmasks(s, i);
    case _ =>
  }

  /** What every action does to the enable flags, the distributor and the record of retirements. */
  lemma StepSwitches(s: State, a: Action)
    requires Inv(s) && s.status.Running? && Possible(s, a)
    ensures var s' := Step(s, a);
      s'.status.Intact() ==>
        && s'.on == (if a.SetCtlr? then a.on else s.on)
        && s'.enabled == (if a.Enable? then s.enabled + {a.irq as int}
                          else if a.Disable? && a.irq >= 16 then s.enabled - {a.irq as int}
                          else s.enabled)
        && s'.history.retired == s.history.retired + (if a.Maintenance? && a.idx < 4 then [s.lrs[a.idx].virq] else [])
  {
    hide Inject, Maintain, VppiEvent, EnableIrq, InFlight, Core;
    match a
    case Maintenance(idx, garbage) => MaintainCases(s, idx, garbage);
    case Pend(i) => InjectSwitches(s, i);
    case Sgi(i) => InjectSwitches(s, i);
    case Vppi(i) => MessageSwitches(s, i);
    case Serial => MessageSwitches(s, SERIAL_IRQ);
    case Enable(i) => EnableOnlyUnmasks(s, i); EnableKeepsHistory(s, i);
    case _ =>
  }

  lemma EnableKeepsHistory(s: State, irq: nat)
    ensures EnableIrq(s, irq).history == s.history
  {
  }

  lemma InjectSwitches(s: State, irq: nat)
    requires Inv(s)
    ensures var s' := Inject(s, irq).0;
      s'.status.Intact() ==> s'.on == s.on && s'.enabled == s.enabled && s'.history.retired == s.history.retired
  {
    InjectCases(s, irq);
  }

  lemma MessageSwitches(s: State, irq: nat)
    requires Inv(s)
    ensures var s' := Inject(TakeMessage(s, irq), irq).0; var v := VppiEvent(s, irq);
      && (s'.status.Intact() ==> s'.on == s.on && s'.enabled == s.enabled && s'.history.retired == s.history.retired)
      && v.status == s'.status && v.on == s'.on && v.enabled == s'.enabled && v.history == s'.history
  {
    var k := TakeMessageIsQuiet(s, irq);
    hide Inject, Inv;
    InjectSwitches(k, irq);
  }

  /** The source is masked, its message handled and its interrupt pending in the guest. */
  ghost predicate Held(s: State, irq: nat) {
    irq in s.kernel.masked && irq !in s.kernel.signalled && irq in s.pending
  }

  /** A delivered message leaves its source held. */
  lemma DeliveryHolds(s: State, a: Action, irq: nat)
    requires Inv(s) && AllHandles(s.tables, SourceWired) && s.status.Running? && Possible(s, a)
    requires irq in Takes(a) && irq in s.kernel.masked && Delivers(s, irq)
    ensures Step(s, a).status.Intact() ==> Held(Step(s, a), irq)
  {
    StepSources(s, a);
    var k := TakeMessageIsQuiet(s, irq);
    InjectEffect(k, irq);
  }

  lemma StepHolds(s: State, a: Action, irq: nat)
    requires Inv(s) && AllHandles(s.tables, SourceWired) && s.status.Running? && Possible(s, a) && Held(s, irq)
    requires a != Unpend(irq) && (a.Maintenance? && a.idx < NUM_LIST_REGS ==> s.lrs[a.idx].virq != irq)
    requires Step(s, a).status.Intact()
    ensures Held(Step(s, a), irq)
  {
    hide Inv, Step, AllHandles, InFlight, Delivers, Registered;
    StepSources(s, a);
    StepMoves(s, a);
  }

  function Retirements(s: State, irq: int): nat {
    multiset(s.history.retired)[irq]
  }

  lemma StepRetires(s: State, a: Action, irq: int)
    requires Inv(s) && s.status.Running? && Possible(s, a) && Step(s, a).status.Intact()
    ensures Retirements(Step(s, a), irq)
         == Retirements(s, irq)
            + if a.Maintenance? && a.idx < NUM_LIST_REGS && s.lrs[a.idx].virq == irq then 1 else 0
  {
    hide Inv, Step;
    StepSwitches(s, a);
  }

  lemma {:induction false} RetirementsGrow(s: State, acts: seq<Action>, irq: int)
    requires Inv(s) && PossibleRun(s, acts) && Exec(s, acts).status.Intact()
    ensures Retirements(Exec(s, acts), irq) >= Retirements(s, irq)
    decreases |acts|
  {
    hide Inv, Step, Possible, Retirements;
    if acts != [] {
      var s' := Step(s, acts[0]);
      if !s.status.Running? {
        StoppedStays(s, acts);
      } else {
        if !s'.status.Running? {
          StoppedStays(s', acts[1..]);
        }
        StepRetires(s, acts[0], irq);
        StepKeepsInv(s, acts[0]);
        RetirementsGrow(s', acts[1..], irq);
      }
    }
  }

  /** A source whose message was delivered stays masked until maintenance retires its interrupt, in
      every run in which the guest does not clear its pending flag. */
  lemma {:induction false} HeldUntilRetired(s: State, acts: seq<Action>, irq: nat)
    requires Inv(s) && s.status.Running? && PossibleRun(s, acts) && Exec(s, acts).status.Intact()
    requires AllHandles(s.tables, SourceWired) && Registers(acts, SourceWired)
    requires Held(s, irq) && forall i :: 0 <= i < |acts| ==> acts[i] != Unpend(irq)
    requires Retirements(Exec(s, acts), irq) == Retirements(s, irq)
    ensures Held(Exec(s, acts), irq)
    decreases |acts|
  {
    hide Inv, Step, Possible, Retirements, Held, AllHandles;
    if acts != [] {
      var s', rest := Step(s, acts[0]), acts[1..];
      if !s'.status.Running? {
        StoppedStays(s', rest);
      }
      StepRetires(s, acts[0], irq);
      StepKeepsInv(s, acts[0]);
      RetirementsGrow(s', rest, irq);
      StepHolds(s, acts[0], irq);
      StepKeepsHandles(s, acts[0], SourceWired);
      if s'.status.Running? {
        HeldUntilRetired(s', rest, irq);
      }
    }
  }

  // ---------------------------------------------------------------- private peripheral interrupts

  /** A masked PPI has its message on the way to the VMM, or a copy in flight that
      maintenance will acknowledge. */
  ghost predicate PpiLive(s: State, irq: int) {
    IsPpi(irq) && irq in s.kernel.masked ==> irq in s.kernel.signalled || irq in InFlight(s)
  }

  lemma VppiKeepsPpiLive(s: State, src: nat, irq: int)
    requires Inv(s) && s.status.Running? && PpiLive(s, irq)
    ensures VppiEvent(s, src).status.Intact() ==> PpiLive(VppiEvent(s, src), irq)
  {
    MessageCases(s, src);
    SameFlight(Inject(TakeMessage(s, src), src).0, VppiEvent(s, src));
  }

  lemma MaintainKeepsPpiLive(s: State, idx: nat, garbage: int, irq: int)
    requires Inv(s) && AllHandles(s.tables, PpiWired) && s.status.Running? && PpiLive(s, irq) && idx in s.kernel.eoi
    ensures Maintain(s, idx, garbage).status.Intact() ==> PpiLive(Maintain(s, idx, garbage), irq)
  {
    hide Inv, InFlight, Maintain;
    MaintainCases(s, idx, garbage);
    var h := s.lrs[idx];
    assert PpiWired(h);
  }

  lemma StepKeepsPpiLive(s: State, a: Action, irq: int)
    requires Inv(s) && AllHandles(s.tables, PpiWired) && s.status.Running? && Possible(s, a) && PpiLive(s, irq)
    ensures Step(s, a).status.Intact() ==> PpiLive(Step(s, a), irq)
  {
    hide Inject, Maintain, VppiEvent, EnableIrq, InFlight, Core;
    match a
    case Register(i, ack) => RegisterKeepsInv(s, Handle(i, ack));
    case Maintenance(idx, garbage) => MaintainKeepsPpiLive(s, idx, garbage, irq);
    case Pend(i) => InjectKeepsKernel(s, i);
    case Sgi(i) => InjectKeepsKernel(s, i);
    case Vppi(i) => VppiKeepsPpiLive(s, i, irq);
    case Serial => MessageCases(s, SERIAL_IRQ);
    case Enable(i) => EnableOnlyUnmasks(s, i);
    case _ => SameFlight(s, Step(s, a));
  }

  /** No PPI is ever stuck masked, in any run, whatever the guest writes. */
  lemma {:induction false} NoPpiStuck(s: State, acts: seq<Action>, irq: int)
    requires Inv(s) && s.status.Running? && PossibleRun(s, acts)
    requires AllHandles(s.tables, PpiWired) && Registers(acts, PpiWired) && PpiLive(s, irq)
    ensures Exec(s, acts).status.Intact() ==> PpiLive(Exec(s, acts), irq)
    decreases |acts|
  {
    if acts != [] {
      StepKeepsInv(s, acts[0]);
      StepKeepsHandles(s, acts[0], PpiWired);
      StepKeepsPpiLive(s, acts[0], irq);
      if Step(s, acts[0]).status.Running? {
        NoPpiStuck(Step(s, acts[0]), acts[1..], irq);
      } else {
        StoppedStays(Step(s, acts[0]), acts[1..]);
      }
    }
  }

  // ---------------------------------------------------------------- the serial interrupt

  /** States b, c, d and g of the protocol: a masked serial interrupt has its message on the way,
      or a copy in flight, or was dropped because it or the distributor is disabled. */
  ghost predicate SerialLive(s: State) {
    SERIAL_IRQ in s.kernel.masked ==>
      || SERIAL_IRQ in s.kernel.signalled
      || SERIAL_IRQ in InFlight(s)
      || (Registered(s.tables, SERIAL_IRQ) && !(s.on && SERIAL_IRQ in s.enabled))
  }

  /** The distributor is switched on while the serial interrupt's enable flag is already set. */
  ghost predicate LateSwitchOn(s: State, a: Action) {
    a == SetCtlr(true) && !s.on && SERIAL_IRQ in s.enabled
  }

  lemma RegisteredStays(s: State, h: Handle, irq: int)
    requires Inv(s) && 0 <= h.virq && Registered(s.tables, irq)
    ensures Registered(RegisterIrq(s, h).tables, irq)
  {
    if Add(s.tables, h).Some? {
      AddKeepsSlots(s.tables, h, RegisterIrq(s, h).tables);
      var r :| Deref(s.tables, r).Valid() && Deref(s.tables, r).virq == irq;
      assert Deref(RegisterIrq(s, h).tables, r) == Deref(s.tables, r);
    }
  }

  /** State b): enabling an interrupt that is not pending acknowledges its source. */
  lemma EnableAcks(s: State)
    requires TablesOk(s.tables) && AllHandles(s.tables, SerialWired)
    requires Registered(s.tables, SERIAL_IRQ) && SERIAL_IRQ !in s.pending
    ensures SERIAL_IRQ !in EnableIrq(s, SERIAL_IRQ).kernel.masked
  {
    var r :| Deref(s.tables, r).Valid() && Deref(s.tables, r).virq == SERIAL_IRQ;
    assert r.Spi?;
    FindNamesIrq(s.tables, SERIAL_IRQ);
    assert SerialWired(Deref(s.tables, Find(s.tables, SERIAL_IRQ).value));
  }

  lemma EnableKeepsSerialLive(s: State, irq: nat)
    requires Inv(s) && AllHandles(s.tables, SerialWired) && s.status.Running? && SerialLive(s)
    ensures SerialLive(EnableIrq(s, irq))
  {
    EnableOnlyUnmasks(s, irq);
    if irq == SERIAL_IRQ && Registered(s.tables, SERIAL_IRQ) && SERIAL_IRQ !in s.pending {
      EnableAcks(s);
    }
    hide EnableIrq, InFlight;
  }

  lemma MaintainKeepsSerialLive(s: State, idx: nat, garbage: int)
    requires Inv(s) && AllHandles(s.tables, SerialWired) && s.status.Running? && SerialLive(s) && idx in s.kernel.eoi
    ensures Maintain(s, idx, garbage).status.Intact() ==> SerialLive(Maintain(s, idx, garbage))
  {
    hide Inv, InFlight, Maintain;
    MaintainCases(s, idx, garbage);
    assert SerialWired(s.lrs[idx]);
  }

  lemma NotifiedKeepsSerialLive(s: State)
    requires Inv(s) && s.status.Running? && SerialLive(s)
    ensures Notified(s).status.Intact() ==> SerialLive(Notified(s))
  {
    MessageCases(s, SERIAL_IRQ);
    FindRegistered(s.tables, SERIAL_IRQ);
  }

  lemma VppiKeepsSerialLive(s: State, irq: nat)
    requires Inv(s) && s.status.Running? && SerialLive(s) && IsPpi(irq)
    ensures VppiEvent(s, irq).status.Intact() ==> SerialLive(VppiEvent(s, irq))
  {
    MessageCases(s, irq);
    SameFlight(Inject(TakeMessage(s, irq), irq).0, VppiEvent(s, irq));
  }

  lemma StepKeepsSerialLive(s: State, a: Action)
    requires Inv(s) && AllHandles(s.tables, SerialWired) && s.status.Running? && Possible(s, a)
    requires SerialLive(s) && !LateSwitchOn(s, a)
    ensures Step(s, a).status.Intact() ==> SerialLive(Step(s, a))
  {
    hide Inject, Maintain, VppiEvent, Notified, EnableIrq, InFlight;
    match a
    case Register(i, ack) =>
      RegisterKeepsInv(s, Handle(i, ack));
      if Registered(s.tables, SERIAL_IRQ) {
        RegisteredStays(s, Handle(i, ack), SERIAL_IRQ);
      }
    case Maintenance(idx, garbage) => MaintainKeepsSerialLive(s, idx, garbage);
    case Pend(i) => InjectKeepsKernel(s, i);
    case Sgi(i) => InjectKeepsKernel(s, i);
    case Vppi(i) => VppiKeepsSerialLive(s, i);
    case Serial => NotifiedKeepsSerialLive(s);
    case Enable(i) => EnableKeepsSerialLive(s, i);
    case _ => SameFlight(s, Step(s, a));
  }

  ghost predicate NoLateSwitchOn(s: State, acts: seq<Action>)
    decreases |acts|
  {
    acts == [] || (!LateSwitchOn(s, acts[0]) && NoLateSwitchOn(Step(s, acts[0]), acts[1..]))
  }

  /** The serial interrupt is never stuck masked while deliverable, in any run that does not
      switch the distributor on under an enabled serial interrupt. */
  lemma {:induction false} NoSerialStuck(s: State, acts: seq<Action>)
    requires Inv(s) && s.status.Running? && PossibleRun(s, acts)
    requires AllHandles(s.tables, SerialWired) && Registers(acts, SerialWired)
    requires SerialLive(s) && NoLateSwitchOn(s, acts)
    ensures Exec(s, acts).status.Intact() ==> SerialLive(Exec(s, acts))
    decreases |acts|
  {
    if acts != [] {
      StepKeepsInv(s, acts[0]);
      StepKeepsHandles(s, acts[0], SerialWired);
      StepKeepsSerialLive(s, acts[0]);
      if Step(s, acts[0]).status.Running? {
        NoSerialStuck(Step(s, acts[0]), acts[1..]);
      } else {
        StoppedStays(Step(s, acts[0]), acts[1..]);
      }
    }
  }

  // ---------------------------------------------------------------- when the distributor is switched on

  /** The serial source is masked and nothing under way will acknowledge it. */
  ghost predicate Stranded(s: State) {
    && SERIAL_IRQ in s.kernel.masked
    && SERIAL_IRQ !in s.kernel.signalled && SERIAL_IRQ !in InFlight(s)
  }

  /** Switching the distributor on acknowledges nothing, so it keeps the property exactly when
      no interrupt was dropped while the distributor was off and the enable flag set. */
  lemma SwitchOnKeepsSerialLive(s: State)
    requires Inv(s) && s.status.Running? && SerialLive(s) && !s.on
    ensures SerialLive(Step(s, SetCtlr(true))) <==> !(Stranded(s) && SERIAL_IRQ in s.enabled)
  {
    SameFlight(s, Step(s, SetCtlr(true)));
  }

  /** The notification about the serial source is dropped: no copy is in flight and the
      interrupt or the distributor is disabled. */
  ghost predicate Drops(s: State, a: Action) {
    && s.status.Running? && a.Serial? && SERIAL_IRQ in s.kernel.masked
    && SERIAL_IRQ !in InFlight(s) && !(s.on && SERIAL_IRQ in s.enabled)
  }

  /** The guest enables the registered serial interrupt, or pends it while it is deliverable. */
  ghost predicate Rescues(s: State, a: Action) {
    && s.status.Running? && Registered(s.tables, SERIAL_IRQ)
    && (a == Enable(SERIAL_IRQ) || (a == Pend(SERIAL_IRQ) && s.on && SERIAL_IRQ in s.enabled))
  }

  lemma MaintainStranded(s: State, idx: nat, garbage: int)
    requires Inv(s) && AllHandles(s.tables, SerialWired) && s.status.Running? && idx in s.kernel.eoi
    ensures Maintain(s, idx, garbage).status.Intact() ==> (Stranded(Maintain(s, idx, garbage)) <==> Stranded(s))
  {
    hide Inv, InFlight, Maintain;
    MaintainCases(s, idx, garbage);
    assert SerialWired(s.lrs[idx]);
  }

  lemma EnableStranded(s: State, irq: nat)
    requires Inv(s) && AllHandles(s.tables, SerialWired) && s.status.Running?
    ensures Stranded(EnableIrq(s, irq)) <==> Stranded(s) && !Rescues(s, Enable(irq))
  {
    EnableOnlyUnmasks(s, irq);
    FindNamesIrq(s.tables, irq);
    FindRegistered(s.tables, irq);
    if Stranded(s) && Rescues(s, Enable(irq)) {
      EnableAcks(s);
    } else if Find(s.tables, irq).Some? && Deref(s.tables, Find(s.tables, irq).value).Valid() {
      assert SerialWired(Deref(s.tables, Find(s.tables, irq).value));
    }
  }

  lemma PendStranded(s: State, irq: nat)
    requires Inv(s) && s.status.Running?
    ensures var s' := Inject(s, irq).0;
      s'.status.Intact() ==> (Stranded(s') <==> Stranded(s) && !Rescues(s, Pend(irq)))
  {
    InjectCases(s, irq);
    FindRegistered(s.tables, irq);
  }

  lemma VppiStranded(s: State, irq: nat)
    requires Inv(s) && s.status.Running? && irq != SERIAL_IRQ
    ensures VppiEvent(s, irq).status.Intact() ==> (Stranded(VppiEvent(s, irq)) <==> Stranded(s))
  {
    MessageCases(s, irq);
    if VppiEvent(s, irq).status.Intact() {
      VppiMoves(s, irq);
    }
  }

  lemma NotifiedStranded(s: State)
    requires Inv(s) && s.status.Running? && SERIAL_IRQ in s.kernel.signalled
    ensures Notified(s).status.Intact() ==> (Stranded(Notified(s)) <==> Drops(s, Serial))
  {
    MessageCases(s, SERIAL_IRQ);
    FindRegistered(s.tables, SERIAL_IRQ);
    if Notified(s).status.Intact() && !(s.on && SERIAL_IRQ in s.enabled) {
      var k := TakeMessage(s, SERIAL_IRQ);
      QuietKeepsInv(s, k);
      DroppedWhenDisabled(k, SERIAL_IRQ);
    }
  }

  /** A step strands the serial source exactly by dropping its notification, and only a rescue
      ends that. */
  lemma StepStranded(s: State, a: Action)
    requires Inv(s) && AllHandles(s.tables, SerialWired) && s.status.Running? && Possible(s, a)
    ensures Step(s, a).status.Intact() ==>
      (Stranded(Step(s, a)) <==> (Stranded(s) || Drops(s, a)) && !Rescues(s, a))
  {
    hide Inject, Maintain, VppiEvent, Notified, EnableIrq, InFlight, Core;
    match a
    case Register(i, ack) => RegisterKeepsInv(s, Handle(i, ack));
    case Maintenance(idx, garbage) => MaintainStranded(s, idx, garbage);
    case Pend(i) => PendStranded(s, i);
    case Sgi(i) => PendStranded(s, i);
    case Vppi(i) => VppiStranded(s, i);
    case Serial => NotifiedStranded(s);
    case Enable(i) => EnableStranded(s, i);
    case _ => SameFlight(s, Step(s, a));
  }

  /** Some notification of the run was dropped, and no later action rescued the source. */
  ghost predicate Unrescued(s: State, acts: seq<Action>) {
    exists i :: 0 <= i < |acts| && DropsAt(s, acts, i) && forall j :: i < j < |acts| ==> !RescuesAt(s, acts, j)
  }

  ghost predicate DropsAt(s: State, acts: seq<Action>, i: nat) {
    i < |acts| && Drops(Exec(s, acts[..i]), acts[i])
  }

  ghost predicate RescuesAt(s: State, acts: seq<Action>, i: nat) {
    i < |acts| && Rescues(Exec(s, acts[..i]), acts[i])
  }

  lemma UnrescuedSnoc(s: State, acts: seq<Action>, a: Action)
    ensures Unrescued(s, acts + [a]) <==>
      || Drops(Exec(s, acts), a)
      || (Unrescued(s, acts) && !Rescues(Exec(s, acts), a))
  {
    hide Drops, Rescues, Exec;
    var all, n := acts + [a], |acts|;
    assert all[..n] == acts;
    forall i: nat | i < n
      ensures DropsAt(s, all, i) == DropsAt(s, acts, i) && RescuesAt(s, all, i) == RescuesAt(s, acts, i)
    {
      assert all[..i] == acts[..i];
    }
    assert DropsAt(s, all, n) == Drops(Exec(s, acts), a) && RescuesAt(s, all, n) == Rescues(Exec(s, acts), a);
    if Unrescued(s, all) && !Drops(Exec(s, acts), a) {
      var i :| 0 <= i < |all| && DropsAt(s, all, i) && forall j :: i < j < |all| ==> !RescuesAt(s, all, j);
      assert DropsAt(s, acts, i);
      assert !RescuesAt(s, all, n);
    }
    if Unrescued(s, acts) && !Rescues(Exec(s, acts), a) {
      var i :| 0 <= i < |acts| && DropsAt(s, acts, i) && forall j :: i < j < |acts| ==> !RescuesAt(s, acts, j);
      assert DropsAt(s, all, i);
    }
  }

  /** Exactly when the serial source ends a run stranded: one of its notifications was dropped and
      the guest did not rescue it since. */
  lemma {:induction false} StrandedIffDropped(s: State, acts: seq<Action>)
    requires Inv(s) && s.status.Running? && PossibleRun(s, acts) && Exec(s, acts).status.Intact()
    requires AllHandles(s.tables, SerialWired) && Registers(acts, SerialWired) && !Stranded(s)
    ensures Stranded(Exec(s, acts)) <==> Unrescued(s, acts)
    decreases |acts|
  {
    hide Inv, Step, Possible, AllHandles, Stranded, Drops, Rescues;
    if acts != [] {
      var n := |acts| - 1;
      var pre, a := acts[..n], acts[n];
      assert acts == pre + [a];
      var m := RunSnoc(s, pre, a);
      StrandedIffDropped(s, pre);
      UnrescuedSnoc(s, pre, a);
      if m.status.Running? {
        RunKeepsInv(s, pre);
        RunKeepsHandles(s, pre, SerialWired);
        StepStranded(m, a);
        NotBoth(a);
      } else {
        StoppedStep(m, a);
      }
    }
  }

  lemma StoppedStep(s: State, a: Action)
    requires !s.status.Running?
    ensures Step(s, a) == s && !Drops(s, a) && !Rescues(s, a)
  {
  }

  lemma NotBoth(a: Action)
    ensures forall s, s' :: Drops(s, a) ==> !Rescues(s', a)
  {
  }

  /** The exact condition over every run, late switch-ons included: a registered serial interrupt is
      stuck masked while deliverable if and only if a dropped notification was not rescued and
      by now interrupt and distributor are enabled. */
  lemma SerialLiveIffDropped(s: State, acts: seq<Action>)
    requires Inv(s) && s.status.Running? && PossibleRun(s, acts) && Exec(s, acts).status.Intact()
    requires AllHandles(s.tables, SerialWired) && Registers(acts, SerialWired) && !Stranded(s)
    requires Registered(s.tables, SERIAL_IRQ)
    ensures var s' := Exec(s, acts);
      SerialLive(s') <==> !(Unrescued(s, acts) && s'.on && SERIAL_IRQ in s'.enabled)
  {
    hide Inv, Exec, PossibleRun, InFlight, AllHandles, Unrescued;
    var r :| Deref(s.tables, r).Valid() && Deref(s.tables, r).virq == SERIAL_IRQ;
    SlotsNeverChange(s, acts, r);
    StrandedIffDropped(s, acts);
  }

  /** Guest writes that can bring a stranded serial interrupt back. */
  predicate Revives(a: Action) {
    a == Enable(SERIAL_IRQ) || a == Pend(SERIAL_IRQ)
  }

  /** A stranded serial interrupt stays masked for ever unless the guest writes its ISENABLER
      or ISPENDR bit again. */
  lemma {:induction false} StrandedForever(s: State, acts: seq<Action>)
    requires Inv(s) && s.status.Running? && PossibleRun(s, acts)
    requires AllHandles(s.tables, SerialWired) && Registers(acts, SerialWired)
    requires Stranded(s) && forall i :: 0 <= i < |acts| ==> !Revives(acts[i])
    ensures Exec(s, acts).status.Intact() ==> Stranded(Exec(s, acts))
    decreases |acts|
  {
    hide Inv, Step, Possible, AllHandles, Stranded;
    if acts != [] {
      StepKeepsInv(s, acts[0]);
      StepKeepsHandles(s, acts[0], SerialWired);
      StepStranded(s, acts[0]);
      if Step(s, acts[0]).status.Running? {
        StrandedForever(Step(s, acts[0]), acts[1..]);
      } else {
        StoppedStays(Step(s, acts[0]), acts[1..]);
      }
    }
  }

  /** Writing the ISENABLER bit again always unmasks a stranded serial interrupt. */
  lemma EnableRevives(s: State)
    requires Inv(s) && AllHandles(s.tables, SerialWired) && s.status.Running? && Stranded(s)
    requires Registered(s.tables, SERIAL_IRQ)
    ensures SERIAL_IRQ !in Step(s, Enable(SERIAL_IRQ)).kernel.masked
  {
    EnableAcks(s);
  }

  /** Writing the ISPENDR bit of a stranded serial interrupt, with room in the queue, puts a copy in
      flight, whose maintenance will unmask it, exactly if interrupt and distributor are enabled. */
  lemma PendRevives(s: State)
    requires Inv(s) && s.status.Running? && Stranded(s) && Registered(s.tables, SERIAL_IRQ)
    requires |s.queue| < QUEUE_CAPACITY
    ensures var s' := Step(s, Pend(SERIAL_IRQ));
      s'.status.Running? && Inv(s') && (SERIAL_IRQ in InFlight(s') <==> s.on && SERIAL_IRQ in s.enabled)
  {
    FindRegistered(s.tables, SERIAL_IRQ);
    InjectCases(s, SERIAL_IRQ);
  }
}
