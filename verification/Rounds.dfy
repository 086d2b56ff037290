/**
 Synchronous rounds of the network: every master port announces, every frame is delivered,
 every port machine runs, every bridge selects, in any order within these four parts. Such a
 round is a deterministic function of the state it starts in.
 */
module Rounds {
  import opened Priority
  import opened BestMaster
  import opened AnnounceInfo
  import opened Network
  import opened NetworkSafety
  import opened Wrappers

  datatype Round = Round(sends: seq<Action>, delivers: seq<Action>, runs: seq<Action>, selects: seq<Action>)

  function ActionsOf(r: Round): seq<Action> {
    r.sends + r.delivers + r.runs + r.selects
  }

  ghost predicate Quiet(n: Net) {
    forall b, i :: 0 <= b < |n.wires| && 0 <= i < |n.wires[b]| ==> n.wires[b][i] == []
  }

  /** Every port sends, all frames arrive, every machine runs and every bridge selects. */
  ghost predicate FullRound(t: Topology, n: Net, r: Round) {
    && (forall k :: 0 <= k < |r.sends| ==> r.sends[k].Send?)
    && (forall b, i :: 0 <= b < |t.peers| && 0 <= i < |t.peers[b]| ==> Send(b, i) in r.sends)
    && (forall k :: 0 <= k < |r.delivers| ==> r.delivers[k].Deliver?)
    && Quiet(Steps(t, n, r.sends + r.delivers))
    && (forall k :: 0 <= k < |r.runs| ==> r.runs[k].RunMachine?)
    && (forall b, i :: 0 <= b < |t.peers| && 0 <= i < |t.peers[b]| ==> RunMachine(b, i) in r.runs)
    && (forall k :: 0 <= k < |r.selects| ==> r.selects[k].Select?)
    && (forall b :: 0 <= b < |t.peers| ==> Select(b) in r.selects)
  }

  lemma {:induction false} StepsConcat(t: Topology, n: Net, xs: seq<Action>, ys: seq<Action>)
    ensures Steps(t, n, xs + ys) == Steps(t, Steps(t, n, xs), ys)
    decreases |ys|
  {
    if ys == [] {
      assert xs + ys == xs;
    } else {
      assert (xs + ys)[..|xs + ys| - 1] == xs + ys[..|ys| - 1];
      StepsConcat(t, n, xs, ys[..|ys| - 1]);
    }
  }

  lemma {:induction false} StepsKeep(t: Topology, n: Net, es: seq<Action>)
    requires NetOk(t, n)
    ensures NetOk(t, Steps(t, n, es))
    decreases |es|
  {
    if es != [] {
      StepsKeep(t, n, es[..|es| - 1]);
      StepSafe(t, Steps(t, n, es[..|es| - 1]), es[|es| - 1]);
    }
  }

  // ----- announcing

  /** What the peer of a port announces to it. */
  function Offered(t: Topology, n: Net, e: nat, j: nat): Option<Announce>
    requires e < |t.peers| && j < |t.peers[e]|
  {
    match t.peers[e][j]
    case Open => None
    case To(c, k) =>
      if c < |n.bridges| && k < |n.bridges[c].ports| && n.bridges[c].ports[k].role == Master
      then Some(AnnounceOf(n.bridges[c], k))
      else None
  }

  /** A wire carries nothing but this announcement. */
  ghost predicate Carries(o: Option<Announce>, q: seq<Announce>) {
    forall x :: x in q ==> o == Some(x)
  }

  /** The peer of the port had its turn. */
  ghost predicate HasSent(t: Topology, es: seq<Action>, e: nat, j: nat)
    requires e < |t.peers| && j < |t.peers[e]|
  {
    t.peers[e][j].To? && Send(t.peers[e][j].bridge, t.peers[e][j].port) in es
  }

  lemma {:induction false} Announced(t: Topology, n: Net, es: seq<Action>)
    requires ValidTopology(t) && Shaped(t, n) && Quiet(n) && forall k :: 0 <= k < |es| ==> es[k].Send?
    ensures var m := Steps(t, n, es);
      && Shaped(t, m) && m.bridges == n.bridges
      && (forall e, j :: 0 <= e < |t.peers| && 0 <= j < |t.peers[e]| ==> Carries(Offered(t, n, e, j), m.wires[e][j]))
      && (forall e, j :: 0 <= e < |t.peers| && 0 <= j < |t.peers[e]| ==>
           (HasSent(t, es, e, j) && Offered(t, n, e, j).Some? ==> m.wires[e][j] != []))
    decreases |es|
  {
    if es != [] {
      var before, a := es[..|es| - 1], es[|es| - 1];
      Announced(t, n, before);
      SendOnce(t, n, Steps(t, n, before), a.bridge, a.port);
      assert es == before + [a];
    }
  }

  /** One announcement: it reaches the wire of the peer, and no other. */
  lemma SendOnce(t: Topology, n: Net, m: Net, b: nat, i: nat)
    requires ValidTopology(t) && Shaped(t, n) && Shaped(t, m) && m.bridges == n.bridges
    ensures var r := Step(t, m, Send(b, i));
      && Shaped(t, r) && r.bridges == n.bridges
      && (forall e, j :: 0 <= e < |t.peers| && 0 <= j < |t.peers[e]| ==>
            r.wires[e][j] == m.wires[e][j]
              + (if t.peers[e][j] == To(b, i) && Offered(t, n, e, j).Some? then [Offered(t, n, e, j).value] else []))
  {
    var r := Step(t, m, Send(b, i));
    forall e, j | 0 <= e < |t.peers| && 0 <= j < |t.peers[e]|
      ensures r.wires[e][j] == m.wires[e][j]
        + (if t.peers[e][j] == To(b, i) && Offered(t, n, e, j).Some? then [Offered(t, n, e, j).value] else [])
    {
      assert ValidPeer(t, e, j);
      if b < |t.peers| && i < |t.peers[b]| {
        assert ValidPeer(t, b, i);
      }
    }
  }

  // ----- hearing

  /** A port that got an announcement. */
  function HearPort(p: Port, o: Option<Announce>, system: Vector): Port {
    match o
    case None => p
    case Some(a) => p.(received := a, rcvdMsg := p.enabled && Qualified(a, system))
  }

  function HearPorts(ports: seq<Port>, inbox: seq<Option<Announce>>, system: Vector): (r: seq<Port>)
    requires |inbox| == |ports|
    ensures |r| == |ports|
  {
    seq(|ports|, i requires 0 <= i < |ports| => HearPort(ports[i], inbox[i], system))
  }

  /** The port whose path trace the bridge takes over. */
  predicate SlavePort(b: Bridge) {
    b.gm.PathGm? && b.gm.port < |b.ports| && b.ports[b.gm.port].role == Slave
  }

  function HeardPath(b: Bridge, inbox: seq<Option<Announce>>): seq<nat>
    requires |inbox| == |b.ports|
  {
    if SlavePort(b) && inbox[b.gm.port].Some? && b.ports[b.gm.port].enabled
      && Qualified(inbox[b.gm.port].value, b.system)
    then inbox[b.gm.port].value.path
    else b.pathTrace
  }

  function Hear(b: Bridge, inbox: seq<Option<Announce>>): Bridge
    requires |inbox| == |b.ports|
  {
    b.(ports := HearPorts(b.ports, inbox, b.system), pathTrace := HeardPath(b, inbox))
  }

  /** Only the port of the grandmaster is a slave. */
  ghost predicate OneSlavePort(b: Bridge) {
    forall i :: 0 <= i < |b.ports| && b.ports[i].role == Slave ==> b.gm == PathGm(i)
  }

  /** A bridge `c` in the middle of the deliveries that make `b` hear its inbox: `w` is left of
      the frames `q`. */
  ghost predicate Hearing(b: Bridge, c: Bridge, inbox: seq<Option<Announce>>, q: seq<seq<Announce>>,
                          w: seq<seq<Announce>>)
    requires |inbox| == |b.ports| == |q| == |w|
  {
    && |c.ports| == |b.ports| && c == b.(ports := c.ports, pathTrace := c.pathTrace)
    && (forall j :: 0 <= j < |w| ==> |w[j]| <= |q[j]| && Carries(inbox[j], w[j]))
    && (forall j :: 0 <= j < |w| ==>
          c.ports[j] == if |w[j]| < |q[j]| then HearPort(b.ports[j], inbox[j], b.system) else b.ports[j])
    && c.pathTrace == if SlavePort(b) && |w[b.gm.port]| < |q[b.gm.port]| then HeardPath(b, inbox) else b.pathTrace
  }

  lemma HearOnce(b: Bridge, c: Bridge, inbox: seq<Option<Announce>>, q: seq<seq<Announce>>, w: seq<seq<Announce>>,
                 i: nat)
    requires |inbox| == |b.ports| == |q| == |w| && Hearing(b, c, inbox, q, w) && i < |w| && w[i] != []
    requires OneSlavePort(b)
    ensures Hearing(b, ReceiveAnnounce(c, i, w[i][0]), inbox, q, w[i := w[i][1..]])
  {
    assert w[i][0] in w[i] && inbox[i] == Some(w[i][0]);
    var r := ReceiveAnnounce(c, i, w[i][0]);
    assert r.ports[i] == HearPort(b.ports[i], inbox[i], b.system);
  }

  lemma HeardAll(b: Bridge, c: Bridge, inbox: seq<Option<Announce>>, q: seq<seq<Announce>>, w: seq<seq<Announce>>)
    requires |inbox| == |b.ports| == |q| == |w| && Hearing(b, c, inbox, q, w)
    requires forall j :: 0 <= j < |w| ==> w[j] == [] && (inbox[j].Some? ==> q[j] != [])
    ensures c == Hear(b, inbox)
  {
    assert c.ports == HearPorts(b.ports, inbox, b.system);
  }

  /** What all ports of a bridge are offered. */
  function Inbox(t: Topology, n: Net, e: nat): (r: seq<Option<Announce>>)
    requires e < |t.peers|
    ensures |r| == |t.peers[e]|
  {
    seq(|t.peers[e]|, j requires 0 <= j < |t.peers[e]| => Offered(t, n, e, j))
  }

  ghost predicate AllHearing(t: Topology, n: Net, m: Net, q: seq<seq<seq<Announce>>>)
    requires Shaped(t, n) && |q| == |t.peers| && forall e :: 0 <= e < |q| ==> |q[e]| == |t.peers[e]|
  {
    Shaped(t, m) && forall e :: 0 <= e < |t.peers| ==>
      Hearing(n.bridges[e], m.bridges[e], Inbox(t, n, e), q[e], m.wires[e])
  }

  lemma {:induction false} Delivered(t: Topology, n: Net, m: Net, es: seq<Action>)
    requires ValidTopology(t) && Shaped(t, n) && Shaped(t, m) && m.bridges == n.bridges
    requires forall e :: 0 <= e < |n.bridges| ==> OneSlavePort(n.bridges[e])
    requires forall e, j :: 0 <= e < |t.peers| && 0 <= j < |t.peers[e]| ==> Carries(Offered(t, n, e, j), m.wires[e][j])
    requires forall k :: 0 <= k < |es| ==> es[k].Deliver?
    ensures AllHearing(t, n, Steps(t, m, es), m.wires)
    decreases |es|
  {
    if es != [] {
      var before, a := es[..|es| - 1], es[|es| - 1];
      Delivered(t, n, m, before);
      DeliverOnce(t, n, Steps(t, m, before), m.wires, a.bridge, a.port);
    }
  }

  lemma DeliverOnce(t: Topology, n: Net, m: Net, q: seq<seq<seq<Announce>>>, b: nat, i: nat)
    requires Shaped(t, n) && |q| == |t.peers| && (forall e :: 0 <= e < |q| ==> |q[e]| == |t.peers[e]|)
    requires AllHearing(t, n, m, q) && forall e :: 0 <= e < |n.bridges| ==> OneSlavePort(n.bridges[e])
    ensures AllHearing(t, n, Step(t, m, Deliver(b, i)), q)
  {
    if HasPort(m, b, i) && m.wires[b][i] != [] {
      HearOnce(n.bridges[b], m.bridges[b], Inbox(t, n, b), q[b], m.wires[b], i);
      var r := Step(t, m, Deliver(b, i));
      assert r.wires[b] == m.wires[b][i := m.wires[b][i][1..]];
      assert r.bridges[b] == ReceiveAnnounce(m.bridges[b], i, m.wires[b][i][0]);
      assert forall e :: 0 <= e < |t.peers| && e != b ==> r.wires[e] == m.wires[e] && r.bridges[e] == m.bridges[e];
    }
  }

  // ----- running

  function RunPorts(b: Bridge): Bridge {
    b.(ports := RanPorts(b.ports, b.masterSteps, b.gmPresent))
  }

  function RanPorts(ports: seq<Port>, masterSteps: nat, gmPresent: bool): (r: seq<Port>)
    ensures |r| == |ports|
  {
    seq(|ports|, i requires 0 <= i < |ports| => RunInfo(ports[i], i, masterSteps, gmPresent))
  }

  /** A second run has nothing to do. */
  lemma RunTwice(p: Port, i: nat, masterSteps: nat, gmPresent: bool)
    ensures RunInfo(RunInfo(p, i, masterSteps, gmPresent), i, masterSteps, gmPresent) ==
      RunInfo(p, i, masterSteps, gmPresent)
  {
    RunSettles(p, i, masterSteps, gmPresent);
  }

  /** A bridge `c` in which some machines of `b` have run: those in `done` for sure. */
  ghost predicate Running(b: Bridge, c: Bridge, done: set<nat>) {
    && |c.ports| == |b.ports| && c == b.(ports := c.ports)
    && forall i :: 0 <= i < |b.ports| ==>
         c.ports[i] == RunInfo(b.ports[i], i, b.masterSteps, b.gmPresent) || (c.ports[i] == b.ports[i] && i !in done)
  }

  lemma RunOnce(b: Bridge, c: Bridge, done: set<nat>, i: nat)
    requires Running(b, c, done) && i < |b.ports|
    ensures Running(b, RunPort(c, i), done + {i})
  {
    RunTwice(b.ports[i], i, b.masterSteps, b.gmPresent);
  }

  ghost function RunBy(es: seq<Action>, b: nat): set<nat> {
    set a | a in es && a.RunMachine? && a.bridge == b :: a.port
  }

  lemma RunByStep(es: seq<Action>, a: Action, b: nat)
    requires a.RunMachine?
    ensures RunBy(es + [a], b) == RunBy(es, b) + (if a.bridge == b then {a.port} else {})
  {
  }

  /** One more machine runs. */
  lemma MachineRuns(t: Topology, n: Net, m: Net, es: seq<Action>, a: Action)
    requires Shaped(t, n) && Shaped(t, m) && m.wires == n.wires && a.RunMachine?
    requires forall e :: 0 <= e < |t.peers| ==> Running(n.bridges[e], m.bridges[e], RunBy(es, e))
    ensures var r := Step(t, m, a);
      && Shaped(t, r) && r.wires == n.wires
      && forall e :: 0 <= e < |t.peers| ==> Running(n.bridges[e], r.bridges[e], RunBy(es + [a], e))
  {
    var r := Step(t, m, a);
    forall e | 0 <= e < |t.peers|
      ensures Running(n.bridges[e], r.bridges[e], RunBy(es + [a], e))
    {
      RunByStep(es, a, e);
      if e == a.bridge && HasPort(m, e, a.port) {
        RunOnce(n.bridges[e], m.bridges[e], RunBy(es, e), a.port);
      }
    }
  }

  lemma {:induction false} MachinesRan(t: Topology, n: Net, es: seq<Action>)
    requires Shaped(t, n) && forall k :: 0 <= k < |es| ==> es[k].RunMachine?
    ensures var m := Steps(t, n, es);
      && Shaped(t, m) && m.wires == n.wires
      && forall e :: 0 <= e < |t.peers| ==> Running(n.bridges[e], m.bridges[e], RunBy(es, e))
    decreases |es|
  {
    if es != [] {
      var before, a := es[..|es| - 1], es[|es| - 1];
      MachinesRan(t, n, before);
      MachineRuns(t, n, Steps(t, n, before), before, a);
      assert es == before + [a];
    }
  }

  lemma RanAll(b: Bridge, c: Bridge, done: set<nat>)
    requires Running(b, c, done) && forall i :: 0 <= i < |b.ports| ==> i in done
    ensures c == RunPorts(b)
  {
    assert c.ports == RanPorts(b.ports, b.masterSteps, b.gmPresent);
  }

  // ----- selecting

  lemma SelectsNoReselect(b: Bridge, i: nat)
    requires i < |b.ports|
    ensures |SelectRoles(b).ports| == |b.ports| && !SelectRoles(b).ports[i].reselect
  {
    SelectedPort(b, i);
  }

  /** A second selection has nothing to do. */
  lemma SelectTwice(b: Bridge)
    ensures RunSelection(RunSelection(b)) == RunSelection(b)
  {
    var d := if b.selection == InitBridge then DisableRoles(b).(selection := RoleSelection) else b;
    if AnyReselect(d.ports) {
      forall i | 0 <= i < |d.ports|
        ensures |SelectRoles(d).ports| == |d.ports| && !SelectRoles(d).ports[i].reselect
      {
        SelectsNoReselect(d, i);
      }
    }
  }

  lemma {:induction false} Selected(t: Topology, n: Net, es: seq<Action>)
    requires Shaped(t, n) && forall k :: 0 <= k < |es| ==> es[k].Select?
    ensures var m := Steps(t, n, es);
      && |m.bridges| == |n.bridges| && m.wires == n.wires
      && forall e :: 0 <= e < |t.peers| ==>
           m.bridges[e] == RunSelection(n.bridges[e]) || (m.bridges[e] == n.bridges[e] && Select(e) !in es)
    decreases |es|
  {
    if es != [] {
      var before, a := es[..|es| - 1], es[|es| - 1];
      Selected(t, n, before);
      assert es == before + [a];
      if a.bridge < |n.bridges| {
        SelectTwice(n.bridges[a.bridge]);
      }
    }
  }

  // ----- the round as a function

  function RoundBridge(t: Topology, n: Net, e: nat): Bridge
    requires Shaped(t, n) && e < |t.peers|
  {
    RunSelection(RunPorts(Hear(n.bridges[e], Inbox(t, n, e))))
  }

  lemma SlaveIsGm(t: Topology, n: Net)
    requires NetOk(t, n)
    ensures forall e :: 0 <= e < |n.bridges| ==> OneSlavePort(n.bridges[e])
  {
    forall e, i | 0 <= e < |n.bridges| && 0 <= i < |n.bridges[e].ports| && n.bridges[e].ports[i].role == Slave
      ensures n.bridges[e].gm == PathGm(i)
    {
      var b := n.bridges[e];
      assert BridgeOk(t.ids, e, b);
      assert PortOk(t.ids, e, b.gm != LastGm, b.gm == PathGm(i), GmVector(b).root, b.masterSteps, b.ports[i]);
    }
  }

  lemma AllHeard(t: Topology, n: Net, q: seq<seq<seq<Announce>>>, m: Net)
    requires Shaped(t, n) && |q| == |t.peers| && (forall e :: 0 <= e < |q| ==> |q[e]| == |t.peers[e]|)
    requires AllHearing(t, n, m, q) && Quiet(m)
    requires forall e, j :: 0 <= e < |t.peers| && 0 <= j < |t.peers[e]| ==>
      (Offered(t, n, e, j).Some? ==> q[e][j] != [])
    ensures forall e :: 0 <= e < |t.peers| ==> m.bridges[e] == Hear(n.bridges[e], Inbox(t, n, e))
  {
    forall e | 0 <= e < |t.peers|
      ensures m.bridges[e] == Hear(n.bridges[e], Inbox(t, n, e))
    {
      forall j | 0 <= j < |t.peers[e]|
        ensures m.wires[e][j] == [] && (Inbox(t, n, e)[j].Some? ==> q[e][j] != [])
      {
      }
      HeardAll(n.bridges[e], m.bridges[e], Inbox(t, n, e), q[e], m.wires[e]);
    }
  }

  /** In a full round, whoever has something to announce does. */
  lemma AllAnnounced(t: Topology, n: Net, r: Round, e: nat, j: nat)
    requires ValidTopology(t) && Shaped(t, n) && Quiet(n) && FullRound(t, n, r) && e < |t.peers| && j < |t.peers[e]|
    requires Offered(t, n, e, j).Some?
    ensures HasSent(t, r.sends, e, j)
  {
    assert ValidPeer(t, e, j);
  }

  /** The sends and deliveries of a round make every bridge hear its inbox. */
  lemma RoundHeard(t: Topology, n: Net, r: Round)
    requires NetOk(t, n) && Quiet(n) && FullRound(t, n, r)
    ensures var m := Steps(t, n, r.sends + r.delivers);
      Shaped(t, m) && forall e :: 0 <= e < |t.peers| ==> m.bridges[e] == Hear(n.bridges[e], Inbox(t, n, e))
  {
    var q := Steps(t, n, r.sends);
    StepsConcat(t, n, r.sends, r.delivers);
    SlaveIsGm(t, n);
    HeardFrom(t, n, q, r);
  }

  lemma HeardFrom(t: Topology, n: Net, q: Net, r: Round)
    requires ValidTopology(t) && Shaped(t, n) && Quiet(n) && FullRound(t, n, r) && q == Steps(t, n, r.sends)
    requires forall e :: 0 <= e < |n.bridges| ==> OneSlavePort(n.bridges[e])
    requires Quiet(Steps(t, q, r.delivers))
    ensures var m := Steps(t, q, r.delivers);
      Shaped(t, m) && forall e :: 0 <= e < |t.peers| ==> m.bridges[e] == Hear(n.bridges[e], Inbox(t, n, e))
  {
    Announced(t, n, r.sends);
    forall e, j | 0 <= e < |t.peers| && 0 <= j < |t.peers[e]| && Offered(t, n, e, j).Some?
      ensures q.wires[e][j] != []
    {
      AllAnnounced(t, n, r, e, j);
    }
    Delivered(t, n, q, r.delivers);
    AllHeard(t, n, q.wires, Steps(t, q, r.delivers));
  }

  /** The runs and selections that follow. */
  lemma RoundSelected(t: Topology, m: Net, runs: seq<Action>, selects: seq<Action>)
    requires ValidTopology(t) && Shaped(t, m)
    requires forall k :: 0 <= k < |runs| ==> runs[k].RunMachine?
    requires forall b, i :: 0 <= b < |t.peers| && 0 <= i < |t.peers[b]| ==> RunMachine(b, i) in runs
    requires forall k :: 0 <= k < |selects| ==> selects[k].Select?
    requires forall b :: 0 <= b < |t.peers| ==> Select(b) in selects
    ensures var r := Steps(t, Steps(t, m, runs), selects);
      && |r.bridges| == |t.peers| && r.wires == m.wires
      && forall e :: 0 <= e < |t.peers| ==> r.bridges[e] == RunSelection(RunPorts(m.bridges[e]))
  {
    var p := Steps(t, m, runs);
    MachinesRan(t, m, runs);
    Selected(t, p, selects);
    forall e | 0 <= e < |t.peers|
      ensures p.bridges[e] == RunPorts(m.bridges[e])
    {
      forall i | 0 <= i < |m.bridges[e].ports|
        ensures i in RunBy(runs, e)
      {
        assert RunMachine(e, i) in runs;
      }
      RanAll(m.bridges[e], p.bridges[e], RunBy(runs, e));
    }
  }

  /** Whatever its order, a round takes every bridge where the function says. */
  lemma RoundClosed(t: Topology, n: Net, r: Round)
    requires NetOk(t, n) && Quiet(n) && FullRound(t, n, r)
    ensures var m := Steps(t, n, ActionsOf(r));
      NetOk(t, m) && Quiet(m) && forall e :: 0 <= e < |t.peers| ==> m.bridges[e] == RoundBridge(t, n, e)
  {
    var heard := Steps(t, n, r.sends + r.delivers);
    StepsConcat(t, n, r.sends + r.delivers, r.runs);
    StepsConcat(t, n, r.sends + r.delivers + r.runs, r.selects);
    RoundHeard(t, n, r);
    RoundSelected(t, heard, r.runs, r.selects);
    StepsKeep(t, n, ActionsOf(r));
  }

  // ----- there always is a round

  function PortsOf(b: nat, k: nat): seq<(nat, nat)> {
    if k == 0 then [] else PortsOf(b, k - 1) + [(b, k - 1)]
  }

  function PortsUpTo(t: Topology, m: nat): seq<(nat, nat)>
    requires m <= |t.peers|
  {
    if m == 0 then [] else PortsUpTo(t, m - 1) + PortsOf(m - 1, |t.peers[m - 1]|)
  }

  lemma {:induction false} PortListed(b: nat, k: nat, i: nat)
    requires i < k
    ensures (b, i) in PortsOf(b, k)
  {
    if i < k - 1 {
      PortListed(b, k - 1, i);
    }
  }

  lemma {:induction false} AllListed(t: Topology, m: nat, b: nat, i: nat)
    requires m <= |t.peers| && b < m && i < |t.peers[b]|
    ensures (b, i) in PortsUpTo(t, m)
  {
    if b < m - 1 {
      AllListed(t, m - 1, b, i);
    } else {
      PortListed(b, |t.peers[b]|, i);
    }
  }

  function Length(q: seq<seq<Announce>>): nat {
    if q == [] then 0 else |q[0]| + Length(q[1..])
  }

  function Frames(wires: seq<seq<seq<Announce>>>): nat {
    if wires == [] then 0 else Length(wires[0]) + Frames(wires[1..])
  }

  lemma {:induction false} ShorterWire(q: seq<seq<Announce>>, i: nat, w: seq<Announce>)
    requires i < |q| && |w| < |q[i]|
    ensures Length(q[i := w]) < Length(q)
  {
    if i > 0 {
      assert q[i := w][1..] == q[1..][i - 1 := w];
      ShorterWire(q[1..], i - 1, w);
    } else {
      assert q[0 := w][1..] == q[1..];
    }
  }

  lemma {:induction false} FewerFrames(wires: seq<seq<seq<Announce>>>, b: nat, q: seq<seq<Announce>>)
    requires b < |wires| && Length(q) < Length(wires[b])
    ensures Frames(wires[b := q]) < Frames(wires)
  {
    if b > 0 {
      assert wires[b := q][1..] == wires[1..][b - 1 := q];
      FewerFrames(wires[1..], b - 1, q);
    } else {
      assert wires[0 := q][1..] == wires[1..];
    }
  }

  /** Delivering frame by frame empties the wires. */
  lemma {:induction false} Drains(t: Topology, n: Net) returns (es: seq<Action>)
    requires Shaped(t, n)
    ensures (forall k :: 0 <= k < |es| ==> es[k].Deliver?) && Quiet(Steps(t, n, es))
    decreases Frames(n.wires)
  {
    if Quiet(n) {
      es := [];
    } else {
      var b, i :| 0 <= b < |n.wires| && 0 <= i < |n.wires[b]| && n.wires[b][i] != [];
      var a := Deliver(b, i);
      var m := Step(t, n, a);
      assert m.wires == n.wires[b := n.wires[b][i := n.wires[b][i][1..]]];
      ShorterWire(n.wires[b], i, n.wires[b][i][1..]);
      FewerFrames(n.wires, b, n.wires[b][i := n.wires[b][i][1..]]);
      var rest := Drains(t, m);
      es := [a] + rest;
      assert [a][..0] == [];
      assert Steps(t, n, [a]) == m;
      StepsConcat(t, n, [a], rest);
    }
  }

  /** A full round exists in every state without frames under way. */
  lemma RoundExists(t: Topology, n: Net) returns (r: Round)
    requires ValidTopology(t) && Shaped(t, n) && Quiet(n)
    ensures FullRound(t, n, r)
  {
    var ports := PortsUpTo(t, |t.peers|);
    var sends := seq(|ports|, x requires 0 <= x < |ports| => Send(ports[x].0, ports[x].1));
    var runs := seq(|ports|, x requires 0 <= x < |ports| => RunMachine(ports[x].0, ports[x].1));
    var selects := seq(|t.peers|, x requires 0 <= x < |t.peers| => Select(x));
    forall b, i | 0 <= b < |t.peers| && 0 <= i < |t.peers[b]|
      ensures Send(b, i) in sends && RunMachine(b, i) in runs
    {
      AllListed(t, |t.peers|, b, i);
      var x :| 0 <= x < |ports| && ports[x] == (b, i);
      assert sends[x] == Send(b, i) && runs[x] == RunMachine(b, i);
    }
    forall b | 0 <= b < |t.peers|
      ensures Select(b) in selects
    {
      assert selects[b] == Select(b);
    }
    Announced(t, n, sends);
    var delivers := Drains(t, Steps(t, n, sends));
    StepsConcat(t, n, sends, delivers);
    r := Round(sends, delivers, runs, selects);
  }
}
