/**
 The PortAnnounceReceive and PortAnnounceInformation state machines of IEEE 802.1AS sections
 10.3.10 and 10.3.11 (ptp/gptpstatmch.c), and how they interleave with role selection.
 */
module AnnounceInfo {
  import opened Priority
  import opened BestMaster

  /** `extract_announce`: the vector of a received message. */
  function MessageVector(a: Announce, port: nat): Vector {
    Vector(a.root, a.steps, a.source, a.sourcePort, PortNumber(port))
  }

  /** `rcvInfo`: how a message compares with what the port holds. */
  function RcvInfo(held: Vector, message: Vector): RcvdInfo {
    if Less(message, held) then SuperiorInfo
    else if message == held then RepeatedInfo
    else InferiorInfo
  }

  /** `qualifyAnnounce`: not our own message, not too far from the root, and we are not on its
      path. */
  predicate Qualified(a: Announce, system: Vector) {
    && a.source != system.source
    && a.steps <= 255
    && system.source !in a.path
  }

  /** `process_rx_announce` with PortAnnounceReceive: the message replaces whatever was held,
      and on the slave port its path becomes ours. */
  function ReceiveAnnounce(b: Bridge, i: nat, a: Announce): Bridge
    requires i < |b.ports|
  {
    var p := b.ports[i];
    var ok := p.enabled && Qualified(a, b.system);
    b.(ports := b.ports[i := p.(received := a, rcvdMsg := ok)],
       pathTrace := if ok && p.role == Slave then a.path else b.pathTrace)
  }

  /** `PortAnnounceInformation_StateMachine_SetState`: the entry actions. */
  function EnterInfo(p: Port, i: nat, masterSteps: nat, s: InfoState): (r: Port)
    ensures r.state == s
  {
    match s
    case Begin => EnterDisabled(p).(state := s)
    case Disabled => EnterDisabled(p)
    case Aged => p.(state := s, infoIs := InfoAged, reselect := true, selected := false)
    case Update =>
      p.(state := s, portPriority := p.masterPriority, portSteps := masterSteps, updtInfo := false, infoIs := InfoMine)
    case Superior =>
      p.(state := s, portPriority := p.messagePriority, timers := p.timers.(announce := 0), infoIs := InfoReceived,
         reselect := true, selected := false, rcvdMsg := false)
    case Repeated => p.(state := s, timers := p.timers.(announce := 0), rcvdMsg := false)
    case Inferior => p.(state := s, rcvdMsg := false)
    case Current => p.(state := s)
    case Receive =>
      var m := MessageVector(p.received, i);
      p.(state := s, messagePriority := m, rcvdInfo := RcvInfo(p.portPriority, m))
  }

  function EnterDisabled(p: Port): Port {
    p.(state := Disabled, rcvdMsg := false, timers := p.timers.(announce := 0), infoIs := InfoDisabled,
       reselect := true, selected := false, portPriority := NOTHING)
  }

  predicate TimedOut(p: Port, gmPresent: bool) {
    && p.infoIs == InfoReceived
    && (p.timers.AnnounceExpired() || (p.timers.SyncExpired() && gmPresent))
    && !p.updtInfo && !p.rcvdMsg
  }

  /** The state one pass of the loop selects; the present one if there is no transition. */
  function NextInfo(p: Port, gmPresent: bool): InfoState {
    if !p.enabled then Disabled
    else match p.state
      case Begin => Disabled
      case Disabled => Aged
      case Aged => if p.selected && p.updtInfo then Update else Aged
      case Current =>
        if p.selected && p.updtInfo then Update
        else if p.rcvdMsg && !p.updtInfo then Receive
        else if TimedOut(p, gmPresent) then Aged
        else Current
      case Receive =>
        if p.rcvdInfo == SuperiorInfo then Superior
        else if p.rcvdInfo == RepeatedInfo then Repeated
        else Inferior
      case _ => Current
  }

  function InfoPass(p: Port, i: nat, masterSteps: nat, gmPresent: bool): Port {
    var s := NextInfo(p, gmPresent);
    if s != p.state then EnterInfo(p, i, masterSteps, s) else p
  }

  /** What bounds the loop: a pending update or message is consumed at most once, and between
      those the states are walked in one direction. */
  function InfoMeasure(p: Port): nat {
    if !p.enabled then (if p.state == Disabled then 0 else 1)
    else
      var message := if p.rcvdMsg then 10 else 0;
      (if p.selected && p.updtInfo then 20 else 0) +
      match p.state
      case Begin => 16
      case Disabled => 15
      case Aged => 1
      case Receive => 5
      case Current => 3 + message
      case _ => 4 + message
  }

  lemma InfoPassDecreases(p: Port, i: nat, masterSteps: nat, gmPresent: bool)
    ensures NextInfo(p, gmPresent) != p.state ==>
      InfoMeasure(InfoPass(p, i, masterSteps, gmPresent)) < InfoMeasure(p)
  {
  }

  /** `PortAnnounceInformation_StateMachine`: passes until the state does not change. */
  function RunInfo(p: Port, i: nat, masterSteps: nat, gmPresent: bool): Port
    decreases InfoMeasure(p)
  {
    InfoPassDecreases(p, i, masterSteps, gmPresent);
    var q := InfoPass(p, i, masterSteps, gmPresent);
    if q.state == p.state then q else RunInfo(q, i, masterSteps, gmPresent)
  }

  function RunPort(b: Bridge, i: nat): Bridge
    requires i < |b.ports|
  {
    b.(ports := b.ports[i := RunInfo(b.ports[i], i, b.masterSteps, b.gmPresent)])
  }

  /** The states a run can end in. */
  predicate Settled(p: Port) {
    p.state == Disabled || p.state == Aged || p.state == Current
  }

  /** From any state whatever, a run ends in DISABLED, AGED or CURRENT, in DISABLED exactly
      when the port is not enabled, and the port has nothing left to do. */
  lemma {:induction false} RunSettles(p: Port, i: nat, masterSteps: nat, gmPresent: bool)
    ensures var r := RunInfo(p, i, masterSteps, gmPresent);
      && Settled(r) && (r.state == Disabled <==> !p.enabled) && r.enabled == p.enabled
      && NextInfo(r, gmPresent) == r.state
    decreases InfoMeasure(p)
  {
    InfoPassDecreases(p, i, masterSteps, gmPresent);
    var q := InfoPass(p, i, masterSteps, gmPresent);
    if q.state != p.state {
      RunSettles(q, i, masterSteps, gmPresent);
    }
  }

  // ----- the run in closed form

  /** The update of a port whose roles were selected. */
  function AfterUpdate(p: Port, masterSteps: nat): Port {
    if p.selected && p.updtInfo then
      p.(state := Current, portPriority := p.masterPriority, portSteps := masterSteps, updtInfo := false,
         infoIs := InfoMine)
    else p
  }

  /** The processing of a message in CURRENT. */
  function AfterMessage(p: Port, i: nat): Port {
    var m := MessageVector(p.received, i);
    if p.state != Current || !p.rcvdMsg || p.updtInfo then p
    else
      match RcvInfo(p.portPriority, m)
      case SuperiorInfo =>
        p.(messagePriority := m, portPriority := m, timers := p.timers.(announce := 0), infoIs := InfoReceived,
           rcvdInfo := SuperiorInfo, reselect := true, selected := false, rcvdMsg := false)
      case RepeatedInfo =>
        p.(messagePriority := m, timers := p.timers.(announce := 0), rcvdInfo := RepeatedInfo, rcvdMsg := false)
      case InferiorInfo => p.(messagePriority := m, rcvdInfo := InferiorInfo, rcvdMsg := false)
  }

  /** No receipt timeout has fired. */
  predicate Timely(p: Port) {
    !p.timers.AnnounceExpired() && !p.timers.SyncExpired()
  }

  lemma RunCurrent(p: Port, i: nat, masterSteps: nat, gmPresent: bool)
    requires p.enabled && p.state == Current && !p.rcvdMsg && !(p.selected && p.updtInfo) && Timely(p)
    ensures RunInfo(p, i, masterSteps, gmPresent) == p
  {
  }

  lemma RunMessage(p: Port, i: nat, masterSteps: nat, gmPresent: bool)
    requires p.enabled && p.state == Current && !(p.selected && p.updtInfo) && Timely(p)
    ensures RunInfo(p, i, masterSteps, gmPresent) == AfterMessage(p, i)
  {
    if p.rcvdMsg && !p.updtInfo {
      var q := InfoPass(p, i, masterSteps, gmPresent);
      assert q == EnterInfo(p, i, masterSteps, Receive);
      var r := InfoPass(q, i, masterSteps, gmPresent);
      var t := InfoPass(r, i, masterSteps, gmPresent);
      assert t == AfterMessage(p, i);
      RunCurrent(t, i, masterSteps, gmPresent);
      assert RunInfo(r, i, masterSteps, gmPresent) == t;
      assert RunInfo(q, i, masterSteps, gmPresent) == t;
    }
  }

  /** An enabled port without timeouts first applies a selected update, then takes the one
      message it holds: the fixpoint loop in closed form. */
  lemma RunClosedForm(p: Port, i: nat, masterSteps: nat, gmPresent: bool)
    requires p.enabled && (p.state == Current || p.state == Aged) && Timely(p)
    ensures RunInfo(p, i, masterSteps, gmPresent) == AfterMessage(AfterUpdate(p, masterSteps), i)
  {
    if p.selected && p.updtInfo {
      var q := InfoPass(p, i, masterSteps, gmPresent);
      var r := InfoPass(q, i, masterSteps, gmPresent);
      assert r == AfterUpdate(p, masterSteps);
      RunMessage(r, i, masterSteps, gmPresent);
      assert RunInfo(q, i, masterSteps, gmPresent) == RunInfo(r, i, masterSteps, gmPresent);
    } else if p.state == Current {
      RunMessage(p, i, masterSteps, gmPresent);
    }
  }

  // ----- all reachable states of one bridge

  datatype Event =
    | Run(port: nat)
    | SelectNow
    | Heard(port: nat, message: Announce)
    | Link(port: nat, enabled: bool)
    | Time(port: nat, timers: Timers)

  /** Anything that happens to a bridge; events for ports it does not have are ignored. */
  function Apply(b: Bridge, e: Event): Bridge {
    match e
    case Run(i) => if i < |b.ports| then RunPort(b, i) else b
    case SelectNow => RunSelection(b)
    case Heard(i, a) => if i < |b.ports| then ReceiveAnnounce(b, i, a) else b
    case Link(i, on) => if i < |b.ports| then b.(ports := b.ports[i := b.ports[i].(enabled := on)]) else b
    case Time(i, t) => if i < |b.ports| then b.(ports := b.ports[i := b.ports[i].(timers := t)]) else b
  }

  function ApplyAll(b: Bridge, es: seq<Event>): Bridge {
    if es == [] then b else Apply(ApplyAll(b, es[..|es| - 1]), es[|es| - 1])
  }

  /** The information of a port fits its state, and a port that asks for a selection is not
      released from the last one. */
  ghost predicate Consistent(p: Port) {
    && (p.state == Begin || Settled(p))
    && (p.state == Current ==> p.infoIs == InfoMine || p.infoIs == InfoReceived)
    && (p.state == Aged ==> p.infoIs == InfoAged)
    && (p.state == Disabled || p.state == Begin ==> p.infoIs == InfoDisabled)
    && !(p.reselect && p.selected)
  }

  ghost predicate AllConsistent(b: Bridge) {
    forall i :: 0 <= i < |b.ports| ==> Consistent(b.ports[i])
  }

  /** The same for the states in the middle of a run. */
  ghost predicate Underway(p: Port) {
    && (p.state in {Current, Receive, Repeated, Inferior} ==> p.infoIs == InfoMine || p.infoIs == InfoReceived)
    && (p.state == Update ==> p.infoIs == InfoMine)
    && (p.state == Superior ==> p.infoIs == InfoReceived)
    && (p.state == Aged ==> p.infoIs == InfoAged)
    && (p.state == Disabled || p.state == Begin ==> p.infoIs == InfoDisabled)
    && !(p.reselect && p.selected)
  }

  lemma {:induction false} RunConsistent(p: Port, i: nat, masterSteps: nat, gmPresent: bool)
    requires Underway(p)
    ensures Consistent(RunInfo(p, i, masterSteps, gmPresent))
    decreases InfoMeasure(p)
  {
    InfoPassDecreases(p, i, masterSteps, gmPresent);
    var q := InfoPass(p, i, masterSteps, gmPresent);
    if q.state != p.state {
      RunConsistent(q, i, masterSteps, gmPresent);
    } else {
      RunSettles(p, i, masterSteps, gmPresent);
    }
  }

  lemma SelectionConsistent(b: Bridge)
    requires AllConsistent(b)
    ensures AllConsistent(RunSelection(b))
  {
    var d := DisableRoles(b).(selection := RoleSelection);
    forall i | 0 <= i < |d.ports|
      ensures Consistent(d.ports[i])
    {
      assert Consistent(b.ports[i]);
    }
    SelectConsistent(d);
    SelectConsistent(b);
  }

  lemma SelectConsistent(b: Bridge)
    requires AllConsistent(b)
    ensures AllConsistent(SelectRoles(b))
  {
    forall i | 0 <= i < |b.ports|
      ensures |SelectRoles(b).ports| == |b.ports| && Consistent(SelectRoles(b).ports[i])
    {
      SelectedPort(b, i);
      assert Consistent(b.ports[i]);
    }
    if b.ports == [] {
      SelectedCount(b);
    }
  }

  lemma SelectedCount(b: Bridge)
    ensures |SelectRoles(b).ports| == |b.ports|
  {
  }

  /** What a port keeps across a role selection, which also answers its request. */
  ghost predicate Carried(p: Port, r: Port) {
    KeepsInfo(p, r) && !r.reselect && r.selected
  }

  lemma SelectedPort(b: Bridge, i: nat)
    requires i < |b.ports|
    ensures |SelectRoles(b).ports| == |b.ports|
    ensures Carried(b.ports[i], SelectRoles(b).ports[i])
  {
    var c := b.(ports := SetReselect(b.ports, false));
    UpdtKeeps(c, i);
    assert SelectRoles(b).ports[i] == UpdtRoles(c).ports[i].(selected := true);
  }

  /** Over every sequence of runs, selections, messages, link changes and time. */
  lemma {:induction false} AlwaysConsistent(b: Bridge, es: seq<Event>)
    requires AllConsistent(b)
    ensures AllConsistent(ApplyAll(b, es))
    decreases |es|
  {
    if es != [] {
      var c := ApplyAll(b, es[..|es| - 1]);
      AlwaysConsistent(b, es[..|es| - 1]);
      match es[|es| - 1]
      case Run(i) =>
        if i < |c.ports| { RunConsistent(c.ports[i], i, c.masterSteps, c.gmPresent); }
      case SelectNow => SelectionConsistent(c);
      case Heard(i, a) =>
      case Link(i, on) =>
      case Time(i, t) =>
    }
  }
}
