/**
 The spreading of the best root over the network, hop by hop and round by round.
 */
module HopCount {
  import opened Priority
  import opened BestMaster
  import opened AnnounceInfo
  import opened Network
  import opened NetworkSafety
  import opened Rounds
  import opened Wrappers
  import opened Convergence

  /** `root` has the least identity, and `dist` counts the hops to it over live links. */
  ghost predicate IsHops(t: Topology, up: seq<seq<bool>>, root: nat, dist: seq<nat>) {
    && |dist| == |t.ids| == |t.peers| == |up| && root < |dist| && dist[root] == 0
    && (forall e :: 0 <= e < |dist| && e != root ==>
         dist[e] >= 1 && t.ids[root] < t.ids[e] && HasParent(t, up, dist, e))
    && (forall e, j :: 0 <= e < |dist| && 0 <= j < |t.peers[e]| && LiveLink(t, up, e, j) ==>
         dist[e] <= dist[t.peers[e][j].bridge] + 1)
  }

  /** A live link leads one hop closer to the root. */
  ghost predicate Closer(t: Topology, up: seq<seq<bool>>, dist: seq<nat>, e: nat, j: nat)
    requires |dist| == |t.peers| == |up| && e < |dist| && j < |t.peers[e]|
  {
    LiveLink(t, up, e, j) && dist[t.peers[e][j].bridge] + 1 == dist[e]
  }

  ghost predicate HasParent(t: Topology, up: seq<seq<bool>>, dist: seq<nat>, e: nat)
    requires |dist| == |t.peers| == |up| && e < |dist|
  {
    exists j :: 0 <= j < |t.peers[e]| && Closer(t, up, dist, e, j)
  }

  /** The bridge has the root at the right distance. */
  ghost predicate Adopted(b: Bridge, root: nat, steps: nat) {
    GmVector(b).root == root && b.masterSteps == steps
  }

  /** No bridge claims to be closer to the root than it is. */
  ghost predicate NoShortcut(t: Topology, n: Net, root: nat, dist: seq<nat>)
    requires |dist| == |n.bridges| && root < |t.ids|
  {
    forall e :: 0 <= e < |dist| ==> GmVector(n.bridges[e]).root == t.ids[root] ==> n.bridges[e].masterSteps >= dist[e]
  }

  lemma LeastId(t: Topology, up: seq<seq<bool>>, root: nat, dist: seq<nat>)
    requires IsHops(t, up, root, dist)
    ensures forall c :: 0 <= c < |t.ids| ==> t.ids[root] <= t.ids[c]
  {
  }

  lemma LeastRoot(t: Topology, up: seq<seq<bool>>, n: Net, root: nat, dist: seq<nat>, e: nat)
    requires NetOk(t, n) && IsHops(t, up, root, dist) && e < |dist| && n.bridges[e].gm != LastGm
    ensures t.ids[root] <= GmVector(n.bridges[e]).root
  {
    assert BridgeOk(t.ids, e, n.bridges[e]);
  }

  /** What a port holds is no better than what its peer announces now. */
  lemma HeldAtMost(t: Topology, n: Net, e: nat, j: nat)
    requires NetOk(t, n) && e < |t.peers| && j < |t.peers[e]| && n.bridges[e].ports[j].infoIs == InfoReceived
    ensures t.peers[e][j].To? && t.peers[e][j].bridge < |n.bridges|
    ensures var c, p := n.bridges[t.peers[e][j].bridge], n.bridges[e].ports[j];
      PairAtMost(GmVector(c).root, c.masterSteps, p.portPriority.root, p.portPriority.steps)
  {
    assert EndOk(t, n, e, j) && ValidPeer(t, e, j);
  }

  /** What a port holds about the root after a round was announced to it by a peer that had
      that root, at a distance no larger. */
  lemma HeldBound(t: Topology, up: seq<seq<bool>>, n: Net, root: nat, dist: seq<nat>, e: nat, j: nat, q: Port)
    requires RestNet(t, up, n) && IsHops(t, up, root, dist) && e < |dist| && j < |t.peers[e]|
    requires j < |RoundBridge(t, n, e).ports| && q == RoundBridge(t, n, e).ports[j]
    requires q.infoIs == InfoReceived && q.portPriority.root == t.ids[root]
    ensures LiveLink(t, up, e, j)
    ensures var c := n.bridges[t.peers[e][j].bridge];
      GmVector(c).root == t.ids[root] && c.masterSteps <= q.portPriority.steps
  {
    ReceivedFrom(t, up, n, e, j);
    if n.bridges[e].ports[j].infoIs == InfoReceived {
      HeldAtMost(t, n, e, j);
    }
    assert ValidPeer(t, e, j);
    LeastRoot(t, up, n, root, dist, t.peers[e][j].bridge);
  }

  /** The port of a grandmaster that is the best root. */
  lemma WinnerHolds(ids: seq<nat>, self: nat, b: Bridge, root: nat)
    requires self < |ids| && root < |ids| && BridgeOk(ids, self, b) && b.gm.PathGm? && GmVector(b).root == ids[root]
    requires forall c :: 0 <= c < |ids| ==> ids[root] <= ids[c]
    ensures var k := b.gm.port;
      && k < |b.ports| && b.ports[k].infoIs == InfoReceived && b.ports[k].portPriority.root == ids[root]
      && b.ports[k].portPriority.steps + 1 <= b.masterSteps
  {
    GmReceived(ids, self, b);
    SanePort(ids, self, b, b.gm.port);
  }

  lemma OwnRoot(ids: seq<nat>, self: nat, b: Bridge)
    requires self < |ids| && BridgeOk(ids, self, b)
    ensures b.gm == SystemGm ==> GmVector(b).root == ids[self] && b.masterSteps == 0
  {
  }

  /** The distance of a bridge after a round, from that of the peer it follows. */
  lemma ShortcutFree(t: Topology, up: seq<seq<bool>>, n: Net, root: nat, dist: seq<nat>, e: nat, r: Bridge)
    requires RestNet(t, up, n) && IsHops(t, up, root, dist) && e < |dist| && NoShortcut(t, n, root, dist)
    requires r == RoundBridge(t, n, e) && |r.ports| == |t.peers[e]| && BridgeOk(t.ids, e, r) && r.gm != LastGm
    requires GmVector(r).root == t.ids[root]
    ensures r.masterSteps >= dist[e]
    ensures r.gm.PathGm? ==> FollowsLive(t, up, n, root, e, r)
  {
    if r.gm.PathGm? {
      LeastId(t, up, root, dist);
      WinnerHolds(t.ids, e, r, root);
      HeldBound(t, up, n, root, dist, e, r.gm.port, r.ports[r.gm.port]);
    } else {
      OwnRoot(t.ids, e, r);
    }
  }

  /** The bridge follows a live peer that had the root before. */
  ghost predicate FollowsLive(t: Topology, up: seq<seq<bool>>, n: Net, root: nat, e: nat, r: Bridge)
    requires root < |t.ids| && e < |t.peers| && |n.bridges| == |t.peers|
  {
    && r.gm.PathGm? && LiveLink(t, up, e, r.gm.port)
    && GmVector(n.bridges[t.peers[e][r.gm.port].bridge]).root == t.ids[root]
    && n.bridges[t.peers[e][r.gm.port].bridge].masterSteps + 1 <= r.masterSteps
  }

  // ----- one round of the network

  /** The state `m` follows `n` by a round. */
  ghost predicate RoundOf(t: Topology, up: seq<seq<bool>>, n: Net, m: Net) {
    && RestNet(t, up, n) && RestNet(t, up, m)
    && (forall e :: 0 <= e < |t.peers| ==> m.bridges[e] == RoundBridge(t, n, e))
    && (forall e :: 0 <= e < |t.peers| ==> AtMost(GmVector(m.bridges[e]), GmVector(n.bridges[e])))
  }

  lemma {:induction false} StepsNeverWorse(t: Topology, n: Net, es: seq<Action>)
    requires NetOk(t, n)
    ensures NetOk(t, Steps(t, n, es))
    ensures forall e :: 0 <= e < |t.peers| ==> AtMost(GmVector(Steps(t, n, es).bridges[e]), GmVector(n.bridges[e]))
    decreases |es|
  {
    if es != [] {
      var before := es[..|es| - 1];
      var m := Steps(t, n, before);
      StepsNeverWorse(t, n, before);
      StepSafe(t, m, es[|es| - 1]);
      forall e | 0 <= e < |t.peers|
        ensures AtMost(GmVector(Steps(t, n, es).bridges[e]), GmVector(n.bridges[e]))
      {
        AtMostTransitive(GmVector(Steps(t, n, es).bridges[e]), GmVector(m.bridges[e]), GmVector(n.bridges[e]));
      }
    }
  }

  lemma FullRoundOf(t: Topology, up: seq<seq<bool>>, n: Net, r: Round)
    requires RestNet(t, up, n) && FullRound(t, n, r)
    ensures RoundOf(t, up, n, Steps(t, n, ActionsOf(r)))
  {
    RoundRest(t, up, n, r);
    StepsNeverWorse(t, n, ActionsOf(r));
  }

  lemma RoundNoShortcut(t: Topology, up: seq<seq<bool>>, n: Net, m: Net, root: nat, dist: seq<nat>)
    requires RoundOf(t, up, n, m) && IsHops(t, up, root, dist) && NoShortcut(t, n, root, dist)
    ensures NoShortcut(t, m, root, dist)
  {
    forall e | 0 <= e < |dist| && GmVector(m.bridges[e]).root == t.ids[root]
      ensures m.bridges[e].masterSteps >= dist[e]
    {
      assert BridgeOk(t.ids, e, m.bridges[e]) && RestBridge(m.bridges[e]);
      ShortcutFree(t, up, n, root, dist, e, m.bridges[e]);
    }
  }

  /** The root is known at most `x` hops away. */
  ghost predicate Within(t: Topology, n: Net, root: nat, dist: seq<nat>, x: nat)
    requires |dist| == |n.bridges| && root < |t.ids|
  {
    forall e :: 0 <= e < |dist| ==> GmVector(n.bridges[e]).root == t.ids[root] ==> dist[e] <= x
  }

  lemma RoundWithin(t: Topology, up: seq<seq<bool>>, n: Net, m: Net, root: nat, dist: seq<nat>, x: nat)
    requires RoundOf(t, up, n, m) && IsHops(t, up, root, dist) && NoShortcut(t, n, root, dist)
    requires Within(t, n, root, dist, x)
    ensures Within(t, m, root, dist, x + 1)
  {
    forall e | 0 <= e < |dist| && GmVector(m.bridges[e]).root == t.ids[root]
      ensures dist[e] <= x + 1
    {
      var r := m.bridges[e];
      assert BridgeOk(t.ids, e, r) && RestBridge(r);
      ShortcutFree(t, up, n, root, dist, e, r);
      if !r.gm.PathGm? {
        OwnRoot(t.ids, e, r);
      }
    }
  }

  /** Once adopted, the root stays. */
  lemma StaysAdopted(t: Topology, up: seq<seq<bool>>, n: Net, m: Net, root: nat, dist: seq<nat>, e: nat)
    requires RoundOf(t, up, n, m) && IsHops(t, up, root, dist) && NoShortcut(t, n, root, dist)
    requires e < |dist| && Adopted(n.bridges[e], t.ids[root], dist[e])
    ensures Adopted(m.bridges[e], t.ids[root], dist[e])
  {
    RoundNoShortcut(t, up, n, m, root, dist);
    assert RestBridge(m.bridges[e]) && RestBridge(n.bridges[e]);
    LeastRoot(t, up, m, root, dist, e);
    NoBetter(t, n, m, e);
  }

  lemma NoBetter(t: Topology, n: Net, m: Net, e: nat)
    requires NetOk(t, n) && NetOk(t, m) && e < |t.peers| && n.bridges[e].gm != LastGm && m.bridges[e].gm != LastGm
    requires AtMost(GmVector(m.bridges[e]), GmVector(n.bridges[e]))
    ensures PairAtMost(GmVector(m.bridges[e]).root, m.bridges[e].masterSteps, GmVector(n.bridges[e]).root,
      n.bridges[e].masterSteps)
  {
    assert BridgeOk(t.ids, e, m.bridges[e]) && BridgeOk(t.ids, e, n.bridges[e]);
  }

  lemma LeastAt(t: Topology, up: seq<seq<bool>>, n: Net, root: nat, dist: seq<nat>, c: nat)
    requires RestNet(t, up, n) && IsHops(t, up, root, dist) && NoShortcut(t, n, root, dist) && c < |dist|
    ensures t.ids[root] <= GmVector(n.bridges[c]).root
    ensures GmVector(n.bridges[c]).root == t.ids[root] ==> n.bridges[c].masterSteps >= dist[c]
  {
    assert RestBridge(n.bridges[c]);
    LeastRoot(t, up, n, root, dist, c);
  }

  // ----- taking the root over

  /** A bridge that has the root offers it across every link that leads away from it. */
  lemma OffersRoot(t: Topology, up: seq<seq<bool>>, n: Net, root: nat, dist: seq<nat>, e: nat, j: nat)
    requires RestNet(t, up, n) && IsHops(t, up, root, dist) && NoShortcut(t, n, root, dist)
    requires e < |dist| && j < |t.peers[e]| && Closer(t, up, dist, e, j)
    requires Adopted(n.bridges[t.peers[e][j].bridge], t.ids[root], dist[t.peers[e][j].bridge])
    ensures Offered(t, n, e, j) == Some(AnnounceOf(n.bridges[t.peers[e][j].bridge], t.peers[e][j].port))
  {
    var c, k := t.peers[e][j].bridge, t.peers[e][j].port;
    assert ValidPeer(t, e, j);
    assert n.bridges[c].ports[k].enabled && RestBridge(n.bridges[c]) && BridgeOk(t.ids, c, n.bridges[c]);
    LeastAt(t, up, n, root, dist, e);
    if n.bridges[c].ports[k].infoIs == InfoReceived {
      HeldAtMost(t, n, c, k);
    }
    AwayPort(t.ids, c, n.bridges[c], k, t.ids[root], dist[c]);
  }

  /** A port whose information, if any, is worse than what the bridge would announce is a
      master port. */
  lemma AwayPort(ids: seq<nat>, self: nat, b: Bridge, k: nat, root: nat, steps: nat)
    requires self < |ids| && BridgeOk(ids, self, b) && RestBridge(b) && k < |b.ports| && b.ports[k].enabled
    requires Adopted(b, root, steps)
    requires b.ports[k].infoIs == InfoReceived ==>
      PairLess(root, steps, b.ports[k].portPriority.root, b.ports[k].portPriority.steps)
    ensures b.ports[k].role == Master
  {
    GmReceived(ids, self, b);
    assert Sane(b.ports[k]) && RestPort(b.ports[k], b.gm == PathGm(k), GmVector(b));
  }

  /** A bridge at rest that holds, in whatever way, something as good as (root, steps) for
      `steps` less than its distance has adopted the root already. */
  lemma HeldGood(t: Topology, up: seq<seq<bool>>, n: Net, root: nat, dist: seq<nat>, e: nat, j: nat, steps: nat)
    requires RestNet(t, up, n) && IsHops(t, up, root, dist) && NoShortcut(t, n, root, dist)
    requires e < |dist| && j < |t.peers[e]| && n.bridges[e].ports[j].enabled && steps + 1 == dist[e] && steps <= 255
    requires var h := Held(n.bridges[e].ports[j]); PairAtMost(h.root, h.steps, t.ids[root], steps)
    ensures Adopted(n.bridges[e], t.ids[root], dist[e])
  {
    LeastAt(t, up, n, root, dist, e);
    LeastId(t, up, root, dist);
    assert RestBridge(n.bridges[e]) && BridgeOk(t.ids, e, n.bridges[e]);
    HeldGoodBridge(t.ids, e, n.bridges[e], j, t.ids[root], steps);
  }

  lemma HeldGoodBridge(ids: seq<nat>, self: nat, b: Bridge, j: nat, root: nat, steps: nat)
    requires self < |ids| && BridgeOk(ids, self, b) && RestBridge(b) && j < |b.ports| && b.ports[j].enabled
    requires steps <= 255
    requires root <= GmVector(b).root && (GmVector(b).root == root ==> b.masterSteps >= steps + 1)
    requires forall c :: 0 <= c < |ids| ==> root <= ids[c]
    requires var h := Held(b.ports[j]); PairAtMost(h.root, h.steps, root, steps)
    ensures Adopted(b, root, steps + 1)
  {
    if b.ports[j].infoIs == InfoReceived && !b.ports[j].updtInfo {
      SanePort(ids, self, b, j);
      HeldPort(ids, self, b, j, root, steps);
    } else {
      HeldMine(ids, self, b, j);
    }
  }

  /** Held information that is not received is the bridge's own announcement. */
  lemma HeldMine(ids: seq<nat>, self: nat, b: Bridge, j: nat)
    requires self < |ids| && BridgeOk(ids, self, b) && RestBridge(b) && j < |b.ports| && b.ports[j].enabled
    requires !(b.ports[j].infoIs == InfoReceived && !b.ports[j].updtInfo)
    ensures Held(b.ports[j]).root == GmVector(b).root && Held(b.ports[j]).steps == b.masterSteps
  {
    assert RestPort(b.ports[j], b.gm == PathGm(j), GmVector(b)) && Sane(b.ports[j]);
  }

  lemma HeldPort(ids: seq<nat>, self: nat, b: Bridge, j: nat, root: nat, steps: nat)
    requires self < |ids| && BridgeOk(ids, self, b) && RestBridge(b) && j < |b.ports|
    requires b.ports[j].infoIs == InfoReceived
    requires steps <= 255 && root <= GmVector(b).root && b.ports[j].portPriority.root in ids
    requires forall c :: 0 <= c < |ids| ==> root <= ids[c]
    requires PairAtMost(b.ports[j].portPriority.root, b.ports[j].portPriority.steps, root, steps)
    ensures GmVector(b).root == root && b.masterSteps <= steps + 1
  {
    assert RestPort(b.ports[j], b.gm == PathGm(j), GmVector(b));
  }

  /** The selection after a better message. */
  lemma TakesOver(t: Topology, e: nat, b: Bridge, inbox: seq<Option<Announce>>, j: nat, root: nat, r: Bridge)
    requires ValidTopology(t) && e < |t.ids| && |inbox| == |b.ports| && RestBridge(b) && j < |b.ports|
    requires b.system == SystemVector(t.ids[e]) && r == RunSelection(Ran(b, inbox))
    requires Accepts(b.ports[j], inbox[j], b.system) && Less(MessageVector(inbox[j].value, j), Held(b.ports[j]))
    requires inbox[j].value.root in t.ids && inbox[j].value.root != t.ids[e]
    ensures AtMost(GmVector(r), OneStepFurther(MessageVector(inbox[j].value, j)))
  {
    var p := Ran(b, inbox);
    RanBridge(b, inbox);
    RanPort(b, inbox, j);
    assert p.ports[j].reselect;
    SelectionCases(p);
    SelectionAtRest(p, j);
    ClocksDiffer(t, e, inbox[j].value.root);
  }

  /** A closer peer that has the root, and its announcement. */
  ghost predicate Herald(t: Topology, up: seq<seq<bool>>, n: Net, root: nat, dist: seq<nat>, e: nat, j: nat)
    requires |dist| == |t.peers| == |up| == |n.bridges| && e < |dist| && j < |t.peers[e]| && root < |t.ids|
  {
    && Closer(t, up, dist, e, j) && t.peers[e][j].bridge < |dist|
    && Adopted(n.bridges[t.peers[e][j].bridge], t.ids[root], dist[t.peers[e][j].bridge])
  }

  lemma Heralds(t: Topology, up: seq<seq<bool>>, n: Net, root: nat, dist: seq<nat>, e: nat, j: nat)
    requires RestNet(t, up, n) && IsHops(t, up, root, dist) && NoShortcut(t, n, root, dist)
    requires e < |dist| && j < |t.peers[e]| && Herald(t, up, n, root, dist, e, j)
    ensures var c := n.bridges[t.peers[e][j].bridge];
      Offered(t, n, e, j) ==
        Some(Announce(t.ids[root], dist[e] - 1, WireSource(ClockOf(c.system.root)), t.peers[e][j].port + 1,
          c.pathTrace))
    ensures n.bridges[t.peers[e][j].bridge].system == SystemVector(t.ids[t.peers[e][j].bridge])
    ensures n.bridges[e].system == SystemVector(t.ids[e]) && t.ids[root] != t.ids[e] && t.ids[root] in t.ids
    ensures RestBridge(n.bridges[e])
  {
    OffersRoot(t, up, n, root, dist, e, j);
    assert ValidPeer(t, e, j);
    assert BridgeOk(t.ids, e, n.bridges[e]) && BridgeOk(t.ids, t.peers[e][j].bridge, n.bridges[t.peers[e][j].bridge]);
  }

  /** A bridge whose grandmaster is at least this good has adopted the root. */
  lemma GoodIsAdopted(t: Topology, up: seq<seq<bool>>, m: Net, root: nat, dist: seq<nat>, e: nat, v: Vector)
    requires RestNet(t, up, m) && IsHops(t, up, root, dist) && NoShortcut(t, m, root, dist) && e < |dist|
    requires v.root == t.ids[root] && v.steps == dist[e] && AtMost(GmVector(m.bridges[e]), v)
    ensures Adopted(m.bridges[e], t.ids[root], dist[e])
  {
    assert RestBridge(m.bridges[e]) && BridgeOk(t.ids, e, m.bridges[e]);
    LeastRoot(t, up, m, root, dist, e);
  }

  /** A bridge that hears of the root from a closer peer has it after the round. */
  lemma AdoptsAccepted(t: Topology, up: seq<seq<bool>>, n: Net, m: Net, root: nat, dist: seq<nat>, e: nat, j: nat)
    requires RoundOf(t, up, n, m) && IsHops(t, up, root, dist) && NoShortcut(t, n, root, dist)
    requires e < |dist| && j < |t.peers[e]| && Herald(t, up, n, root, dist, e, j)
    requires Accepts(n.bridges[e].ports[j], Offered(t, n, e, j), n.bridges[e].system)
    ensures Adopted(m.bridges[e], t.ids[root], dist[e])
  {
    Heralds(t, up, n, root, dist, e, j);
    var v := MessageVector(Offered(t, n, e, j).value, j);
    if Less(v, Held(n.bridges[e].ports[j])) {
      RoundTakes(t, n, m.bridges[e], e, j, v);
      AdoptsBetter(t, up, n, m, root, dist, e, OneStepFurther(v));
    } else {
      AdoptsSame(t, up, n, m, root, dist, e, j, v);
    }
  }

  lemma RoundTakes(t: Topology, n: Net, r: Bridge, e: nat, j: nat, v: Vector)
    requires ValidTopology(t) && Shaped(t, n) && e < |t.peers| && j < |t.peers[e]| && r == RoundBridge(t, n, e)
    requires RestBridge(n.bridges[e]) && n.bridges[e].system == SystemVector(t.ids[e])
    requires Accepts(n.bridges[e].ports[j], Offered(t, n, e, j), n.bridges[e].system)
    requires v == MessageVector(Offered(t, n, e, j).value, j)
    requires Less(v, Held(n.bridges[e].ports[j])) && v.root in t.ids && v.root != t.ids[e]
    ensures AtMost(GmVector(r), OneStepFurther(v)) && OneStepFurther(v).steps == v.steps + 1
  {
    TakesOver(t, e, n.bridges[e], Inbox(t, n, e), j, v.root, r);
  }

  lemma AdoptsBetter(t: Topology, up: seq<seq<bool>>, n: Net, m: Net, root: nat, dist: seq<nat>, e: nat, w: Vector)
    requires RoundOf(t, up, n, m) && IsHops(t, up, root, dist) && NoShortcut(t, n, root, dist)
    requires e < |dist| && w.root == t.ids[root] && w.steps == dist[e] && AtMost(GmVector(m.bridges[e]), w)
    ensures Adopted(m.bridges[e], t.ids[root], dist[e])
  {
    RoundNoShortcut(t, up, n, m, root, dist);
    GoodIsAdopted(t, up, m, root, dist, e, w);
  }

  lemma AdoptsSame(t: Topology, up: seq<seq<bool>>, n: Net, m: Net, root: nat, dist: seq<nat>, e: nat, j: nat,
                   v: Vector)
    requires RoundOf(t, up, n, m) && IsHops(t, up, root, dist) && NoShortcut(t, n, root, dist)
    requires e < |dist| && j < |t.peers[e]| && n.bridges[e].ports[j].enabled && 1 <= dist[e] <= 256
    requires v.root == t.ids[root] && v.steps == dist[e] - 1 && !Less(v, Held(n.bridges[e].ports[j]))
    ensures Adopted(m.bridges[e], t.ids[root], dist[e])
  {
    NotLess(v, Held(n.bridges[e].ports[j]));
    HeldGood(t, up, n, root, dist, e, j, dist[e] - 1);
    StaysAdopted(t, up, n, m, root, dist, e);
  }

  lemma NotLess(a: Vector, b: Vector)
    requires !Less(a, b)
    ensures PairAtMost(b.root, b.steps, a.root, a.steps)
  {
  }

  // ----- exactly when

  /** The guards of `qualifyAnnounce` for the announcement of a closer peer: its source is not
      taken for ours, it is not too far from the root, and we are not on its path. */
  predicate Lets(t: Topology, n: Net, dist: seq<nat>, e: nat, j: nat)
    requires |dist| == |t.ids| == |t.peers| == |n.bridges| && e < |dist| && j < |t.peers[e]|
  {
    && t.peers[e][j].To? && t.peers[e][j].bridge < |dist|
    && WireSource(ClockOf(t.ids[t.peers[e][j].bridge])) != ClockOf(t.ids[e])
    && dist[e] <= 256
    && ClockOf(t.ids[e]) !in n.bridges[t.peers[e][j].bridge].pathTrace
  }

  lemma LetsAccepts(t: Topology, up: seq<seq<bool>>, n: Net, root: nat, dist: seq<nat>, e: nat, j: nat)
    requires RestNet(t, up, n) && IsHops(t, up, root, dist) && NoShortcut(t, n, root, dist)
    requires e < |dist| && j < |t.peers[e]| && Herald(t, up, n, root, dist, e, j)
    ensures Accepts(n.bridges[e].ports[j], Offered(t, n, e, j), n.bridges[e].system) <==> Lets(t, n, dist, e, j)
    ensures Offered(t, n, e, j).Some? && Offered(t, n, e, j).value.path == n.bridges[t.peers[e][j].bridge].pathTrace
  {
    Heralds(t, up, n, root, dist, e, j);
  }

  /** The root itself, always. */
  lemma RootSelf(t: Topology, up: seq<seq<bool>>, n: Net, root: nat, dist: seq<nat>)
    requires RestNet(t, up, n) && IsHops(t, up, root, dist)
    ensures Adopted(n.bridges[root], t.ids[root], 0) && n.bridges[root].gm == SystemGm
    ensures n.bridges[root].pathTrace == [ClockOf(t.ids[root])]
  {
    var b := n.bridges[root];
    assert BridgeOk(t.ids, root, b) && RestBridge(b);
    LeastRoot(t, up, n, root, dist, root);
    assert Adopted(b, t.ids[root], 0);
    if b.gm.PathGm? {
      WinnerHolds(t.ids, root, b, root);
    }
  }

  /** The grandmaster's port of a bridge that has the root leads to a herald. */
  lemma FollowsHerald(t: Topology, up: seq<seq<bool>>, n: Net, root: nat, dist: seq<nat>, e: nat)
    requires RestNet(t, up, n) && IsHops(t, up, root, dist) && NoShortcut(t, n, root, dist)
    requires e < |dist| && e != root && Adopted(n.bridges[e], t.ids[root], dist[e])
    ensures n.bridges[e].gm.PathGm? && n.bridges[e].gm.port < |t.peers[e]|
    ensures Herald(t, up, n, root, dist, e, n.bridges[e].gm.port) && SlavePort(n.bridges[e])
  {
    var b := n.bridges[e];
    assert BridgeOk(t.ids, e, b) && RestBridge(b);
    OwnRoot(t.ids, e, b);
    WinnerHolds(t.ids, e, b, root);
    var k := b.gm.port;
    HeldAtMost(t, n, e, k);
    assert LiveLink(t, up, e, k) && ValidPeer(t, e, k);
    LeastAt(t, up, n, root, dist, t.peers[e][k].bridge);
    assert RestPort(b.ports[k], true, GmVector(b));
  }

  /** Whoever adopts the root in a round heard of it from a herald. */
  lemma AdoptedHow(t: Topology, up: seq<seq<bool>>, n: Net, m: Net, root: nat, dist: seq<nat>, e: nat) returns (j: nat)
    requires RoundOf(t, up, n, m) && IsHops(t, up, root, dist) && NoShortcut(t, n, root, dist)
    requires e < |dist| && Adopted(m.bridges[e], t.ids[root], dist[e]) && !Adopted(n.bridges[e], t.ids[root], dist[e])
    ensures j < |t.peers[e]| && Herald(t, up, n, root, dist, e, j)
    ensures Accepts(n.bridges[e].ports[j], Offered(t, n, e, j), n.bridges[e].system)
  {
    RootSelf(t, up, n, root, dist);
    assert e != root;
    RoundNoShortcut(t, up, n, m, root, dist);
    FollowsHerald(t, up, m, root, dist, e);
    j := m.bridges[e].gm.port;
    WinnerHadHeard(t, up, n, root, dist, e, j, m.bridges[e]);
  }

  /** What the port that won in a round had heard. */
  lemma WinnerHadHeard(t: Topology, up: seq<seq<bool>>, n: Net, root: nat, dist: seq<nat>, e: nat, j: nat, r: Bridge)
    requires RestNet(t, up, n) && IsHops(t, up, root, dist) && NoShortcut(t, n, root, dist)
    requires e < |dist| && e != root && r == RoundBridge(t, n, e) && BridgeOk(t.ids, e, r) && r.gm == PathGm(j)
    requires Adopted(r, t.ids[root], dist[e]) && !Adopted(n.bridges[e], t.ids[root], dist[e])
    ensures j < |t.peers[e]| && Herald(t, up, n, root, dist, e, j)
    ensures Accepts(n.bridges[e].ports[j], Offered(t, n, e, j), n.bridges[e].system)
  {
    var b, inbox := n.bridges[e], Inbox(t, n, e);
    assert RestBridge(b);
    LeastId(t, up, root, dist);
    WinnerHolds(t.ids, e, r, root);
    GmReceived(t.ids, e, r);
    assert |r.ports| == |t.peers[e]|;
    HeldBound(t, up, n, root, dist, e, j, r.ports[j]);
    assert ValidPeer(t, e, j);
    LeastAt(t, up, n, root, dist, t.peers[e][j].bridge);
    HeldAfter(b, inbox, j);
    RanPort(b, inbox, j);
    if !Convergence.Ran(b, inbox).ports[j].reselect {
      HeldGood(t, up, n, root, dist, e, j, dist[e] - 1);
    }
  }

  /** A bridge that has not adopted the root does so in a round exactly if some herald's
      announcement passes the guards of qualifyAnnounce. */
  lemma AdoptsExactly(t: Topology, up: seq<seq<bool>>, n: Net, m: Net, root: nat, dist: seq<nat>, e: nat)
    requires RoundOf(t, up, n, m) && IsHops(t, up, root, dist) && NoShortcut(t, n, root, dist)
    requires e < |dist| && !Adopted(n.bridges[e], t.ids[root], dist[e])
    ensures Adopted(m.bridges[e], t.ids[root], dist[e]) <==>
      exists j :: 0 <= j < |t.peers[e]| && Herald(t, up, n, root, dist, e, j) && Lets(t, n, dist, e, j)
  {
    if Adopted(m.bridges[e], t.ids[root], dist[e]) {
      var j := AdoptedHow(t, up, n, m, root, dist, e);
      LetsAccepts(t, up, n, root, dist, e, j);
    } else if j :| 0 <= j < |t.peers[e]| && Herald(t, up, n, root, dist, e, j) && Lets(t, n, dist, e, j) {
      LetsAccepts(t, up, n, root, dist, e, j);
      AdoptsAccepted(t, up, n, m, root, dist, e, j);
    }
  }
}
