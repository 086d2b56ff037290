/**
 What a run of the PortAnnounceInformation machine does to the fields of a port, in full:
 receipt timeouts included (ptp/gptpstatmch.c).
 */
module AnnounceRuns {
  import opened Priority
  import opened BestMaster
  import opened AnnounceInfo

  /** The vector of the message a port holds. */
  function HeldMessage(p: Port, i: nat): Vector {
    Vector(p.received.root, p.received.steps, p.received.source, p.received.sourcePort, (i + 1) % 256)
  }

  /** One run of an enabled port in CURRENT that has nothing to take over and no message: it
      ages exactly if it holds received information and announces stopped, or syncs did while
      there is a grandmaster; otherwise nothing changes. */
  lemma AgesExactly(p: Port, i: nat, masterSteps: nat, gmPresent: bool)
    requires p.enabled && p.state == Current && !p.rcvdMsg && !p.updtInfo
    ensures RunInfo(p, i, masterSteps, gmPresent) ==
      if p.infoIs == InfoReceived
         && (p.timers.announce >= p.timers.announceLimit || (gmPresent && p.timers.sync >= p.timers.syncLimit))
      then p.(state := Aged, infoIs := InfoAged, reselect := true, selected := false)
      else p
  {
    var q := InfoPass(p, i, masterSteps, gmPresent);
    if q.state != p.state {
      assert InfoPass(q, i, masterSteps, gmPresent) == q;
      assert RunInfo(q, i, masterSteps, gmPresent) == q;
    }
  }

  /** What a message, if there is one, does to a port that takes it. */
  ghost predicate Taken(p: Port, i: nat, r: Port) {
    var m := HeldMessage(p, i);
    && !r.rcvdMsg && r.state == p.state && r.updtInfo == p.updtInfo && r.portSteps == p.portSteps
    && r.portPriority == (if p.rcvdMsg && Less(m, p.portPriority) then m else p.portPriority)
    && r.messagePriority == (if p.rcvdMsg then m else p.messagePriority)
    && r.infoIs == (if p.rcvdMsg && Less(m, p.portPriority) then InfoReceived else p.infoIs)
    && r.reselect == (p.reselect || (p.rcvdMsg && Less(m, p.portPriority)))
    && r.selected == (p.selected && !(p.rcvdMsg && Less(m, p.portPriority)))
    && r.timers == (if p.rcvdMsg && AtMost(m, p.portPriority) then p.timers.(announce := 0) else p.timers)
    && (r.rcvdInfo == SuperiorInfo <==> if p.rcvdMsg then Less(m, p.portPriority) else p.rcvdInfo == SuperiorInfo)
    && (r.rcvdInfo == RepeatedInfo <==> if p.rcvdMsg then m == p.portPriority else p.rcvdInfo == RepeatedInfo)
    && Apart(p, r)
  }

  /** What no run touches. */
  ghost predicate Apart(p: Port, r: Port) {
    && r.enabled == p.enabled && r.role == p.role && r.received == p.received
    && r.masterPriority == p.masterPriority && r.gmPathPriority == p.gmPathPriority
  }

  lemma MessageTaken(p: Port, i: nat)
    requires p.state == Current && !p.updtInfo
    ensures Taken(p, i, AfterMessage(p, i))
  {
  }

  /** A message is taken on the way through RECEIVE. */
  lemma MessagePasses(p: Port, i: nat, masterSteps: nat, gmPresent: bool)
    requires p.enabled && p.state == Current && !p.updtInfo && p.rcvdMsg
    ensures RunInfo(p, i, masterSteps, gmPresent) == RunInfo(AfterMessage(p, i), i, masterSteps, gmPresent)
  {
    var received := InfoPass(p, i, masterSteps, gmPresent);
    assert received == EnterInfo(p, i, masterSteps, Receive);
    var compared := InfoPass(received, i, masterSteps, gmPresent);
    assert InfoPass(compared, i, masterSteps, gmPresent) == AfterMessage(p, i);
    assert RunInfo(p, i, masterSteps, gmPresent) == RunInfo(received, i, masterSteps, gmPresent);
    assert RunInfo(received, i, masterSteps, gmPresent) == RunInfo(compared, i, masterSteps, gmPresent);
  }

  /** A selected update is taken over on the way through UPDATE. */
  lemma TakesUpdate(p: Port, i: nat, masterSteps: nat, gmPresent: bool)
    requires p.enabled && (p.state == Current || p.state == Aged) && p.selected && p.updtInfo
    ensures RunInfo(p, i, masterSteps, gmPresent) ==
      RunInfo(p.(state := Current, portPriority := p.masterPriority, portSteps := masterSteps, updtInfo := false,
                 infoIs := InfoMine), i, masterSteps, gmPresent)
  {
    var q := InfoPass(p, i, masterSteps, gmPresent);
    var r := InfoPass(q, i, masterSteps, gmPresent);
    assert RunInfo(p, i, masterSteps, gmPresent) == RunInfo(q, i, masterSteps, gmPresent);
    assert RunInfo(q, i, masterSteps, gmPresent) == RunInfo(r, i, masterSteps, gmPresent);
  }

  /** The whole run of a port in CURRENT without a pending update: it takes its message, and
      then ages exactly if what it holds by then has expired. A superior message of a master
      whose syncs have stopped is taken and aged in the same run. */
  lemma RunTakes(p: Port, i: nat, masterSteps: nat, gmPresent: bool) returns (q: Port)
    requires p.enabled && p.state == Current && !p.updtInfo
    ensures Taken(p, i, q)
    ensures RunInfo(p, i, masterSteps, gmPresent) ==
      if q.infoIs == InfoReceived
         && (q.timers.announce >= q.timers.announceLimit || (gmPresent && q.timers.sync >= q.timers.syncLimit))
      then q.(state := Aged, infoIs := InfoAged, reselect := true, selected := false)
      else q
  {
    q := AfterMessage(p, i);
    MessageTaken(p, i);
    if p.rcvdMsg { MessagePasses(p, i, masterSteps, gmPresent); }
    AgesExactly(q, i, masterSteps, gmPresent);
  }

  /** A port that waits for its update to be selected holds still, and so does an aged one. */
  lemma RunWaits(p: Port, i: nat, masterSteps: nat, gmPresent: bool)
    requires p.enabled && !(p.selected && p.updtInfo) && (p.state == Aged || (p.state == Current && p.updtInfo))
    ensures RunInfo(p, i, masterSteps, gmPresent) == p
  {
  }

  /** Becoming enabled and disabled: an enabled port ages and asks for a selection; one that is
      not drops its message and its information and asks for a selection, once. */
  lemma RunEnables(p: Port, i: nat, masterSteps: nat, gmPresent: bool)
    ensures p.enabled && p.state == Disabled ==>
      RunInfo(p, i, masterSteps, gmPresent) ==
        p.(state := Aged, infoIs := InfoAged, reselect := true, selected := false)
    ensures !p.enabled ==>
      RunInfo(p, i, masterSteps, gmPresent) ==
        if p.state == Disabled then p
        else p.(state := Disabled, rcvdMsg := false, infoIs := InfoDisabled, reselect := true, selected := false,
                portPriority := NOTHING, timers := p.timers.(announce := 0))
  {
    var q := InfoPass(p, i, masterSteps, gmPresent);
    if q.state != p.state {
      assert p.enabled && p.state == Disabled ==> InfoPass(q, i, masterSteps, gmPresent) == q;
      assert !p.enabled ==> InfoPass(q, i, masterSteps, gmPresent) == q;
      assert (p.enabled && p.state == Disabled) || !p.enabled ==> RunInfo(q, i, masterSteps, gmPresent) == q;
    }
  }

  // ----- hearing an announce

  /** The tests of a received announce: not from this bridge, at most 255 steps from its root,
      and this bridge is not on its path. */
  ghost predicate Passes(a: Announce, self: nat) {
    a.source != self && a.steps <= 255 && forall k :: 0 <= k < |a.path| ==> a.path[k] != self
  }

  /** A frame goes to its port only, and the bridge takes over its path if the port is the
      slave. */
  lemma ReceivesExactly(b: Bridge, i: nat, a: Announce)
    requires i < |b.ports|
    ensures var r, p, ok := ReceiveAnnounce(b, i, a), b.ports[i], b.ports[i].enabled && Passes(a, b.system.source);
      && r == b.(ports := r.ports, pathTrace := if ok && p.role == Slave then a.path else b.pathTrace)
      && |r.ports| == |b.ports| && (forall k :: 0 <= k < |b.ports| && k != i ==> r.ports[k] == b.ports[k])
      && r.ports[i] == p.(received := a, rcvdMsg := ok)
  {
    assert b.system.source in a.path <==> exists k :: 0 <= k < |a.path| && a.path[k] == b.system.source;
  }

  /** From the frame to the port's information: a port in CURRENT that hears an announce and then
      runs takes it exactly if the announce passes the tests and is better than what the port
      holds. One that is no worse restarts the receipt timeout; any other leaves the information
      to its timeouts. */
  lemma HearsExactly(b: Bridge, i: nat, a: Announce)
    requires i < |b.ports| && b.ports[i].enabled && b.ports[i].state == Current && !b.ports[i].updtInfo
    ensures var r, p := RunPort(ReceiveAnnounce(b, i, a), i), b.ports[i];
      var m := Vector(a.root, a.steps, a.source, a.sourcePort, (i + 1) % 256);
      var better := Passes(a, b.system.source) && Less(m, p.portPriority);
      var silent := if Passes(a, b.system.source) && AtMost(m, p.portPriority) then 0 else p.timers.announce;
      var aged := (better || p.infoIs == InfoReceived)
                  && (silent >= p.timers.announceLimit || (b.gmPresent && p.timers.sync >= p.timers.syncLimit));
      && |r.ports| == |b.ports|
      && r.ports[i].portPriority == (if better then m else p.portPriority)
      && r.ports[i].infoIs == (if aged then InfoAged else if better then InfoReceived else p.infoIs)
      && r.ports[i].state == (if aged then Aged else Current)
      && r.ports[i].timers == p.timers.(announce := silent) && !r.ports[i].rcvdMsg && !r.ports[i].updtInfo
      && (r.ports[i].reselect <==> p.reselect || better || aged)
      && (r.ports[i].selected <==> p.selected && !better && !aged)
  {
    ReceivesExactly(b, i, a);
    var heard := ReceiveAnnounce(b, i, a).ports[i];
    var q := RunTakes(heard, i, b.masterSteps, b.gmPresent);
  }
}
