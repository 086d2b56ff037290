/**
 Why a bridge may need more rounds than hops: path traces go stale. On a line of four bridges
 the last one, once followed by its neighbour, is on the path that the neighbour still
 announces in the round after it turned to the best root, and so ignores it.
 */
module StalePath {
  import opened Priority
  import opened BestMaster
  import opened AnnounceInfo
  import opened Network
  import opened NetworkSafety
  import opened Rounds
  import opened Wrappers
  import opened Convergence
  import opened HopCount
  import opened Spreading
  import opened OnTime

  /** The best root at one end, the second best at the other. */
  const LINE := Topology([1, 3, 4, 2], [[To(1, 0)], [To(0, 0), To(2, 0)], [To(1, 1), To(3, 0)], [To(2, 1)]])
  const UP := [[true], [true, true], [true, true], [true]]
  const DIST := [0, 1, 2, 3]

  /** The start of the line: every port enabled, no receipt timeout in sight. */
  function StartPort(i: nat): Port {
    InitialPort(true, Timers(0, 9, 0, 9), i)
  }

  function StartBridge(id: nat, ports: nat): Bridge {
    Bridge(SystemVector(id), LastGm, NOTHING, true, 0, false, false, [ClockOf(id)], RoleSelection,
           seq(ports, i requires 0 <= i < ports => StartPort(i)))
  }

  const START :=
    Net([StartBridge(1, 1), StartBridge(3, 2), StartBridge(4, 2), StartBridge(2, 1)], [[[]], [[], []], [[], []], [[]]])

  lemma LineValid()
    ensures ValidTopology(LINE)
  {
    assert ClockOf(1) == 1 && ClockOf(2) == 2 && ClockOf(3) == 3 && ClockOf(4) == 4;
    assert ValidPeer(LINE, 0, 0) && ValidPeer(LINE, 1, 0) && ValidPeer(LINE, 1, 1) && ValidPeer(LINE, 2, 0)
           && ValidPeer(LINE, 2, 1) && ValidPeer(LINE, 3, 0);
  }

  lemma LineLink(e: nat, j: nat)
    requires e < 4 && j < |LINE.peers[e]|
    ensures LINE.peers[e][j].To? && LINE.peers[e][j].bridge < 4
    ensures DIST[e] <= DIST[LINE.peers[e][j].bridge] + 1
    ensures Distinguishable(LINE, e, j)
  {
    assert ClockOf(1) == 1 && ClockOf(2) == 2 && ClockOf(3) == 3 && ClockOf(4) == 4;
    assert LINE.peers[0] == [To(1, 0)] && LINE.peers[1] == [To(0, 0), To(2, 0)];
    assert LINE.peers[2] == [To(1, 1), To(3, 0)] && LINE.peers[3] == [To(2, 1)];
  }

  lemma LineParent(e: nat)
    requires 1 <= e < 4
    ensures HasParent(LINE, UP, DIST, e)
  {
    assert Closer(LINE, UP, DIST, e, 0);
  }

  lemma LineHops()
    ensures IsHops(LINE, UP, 0, DIST)
  {
    forall e, j | 0 <= e < 4 && 0 <= j < |LINE.peers[e]|
      ensures DIST[e] <= DIST[LINE.peers[e][j].bridge] + 1
    {
      LineLink(e, j);
    }
    LineParent(1);
    LineParent(2);
    LineParent(3);
  }

  lemma StartPortTimely(i: nat)
    ensures StartPort(i).enabled && Timely(StartPort(i)) && StartPort(i).timers == Timers(0, 9, 0, 9)
  {
    var z := PoweredUp(true, Timers(0, 9, 0, 9));
    var d := InfoPass(z, i, 0, false);
    assert d == EnterDisabled(z);
    assert RunInfo(z, i, 0, false) == RunInfo(d, i, 0, false);
    var a := InfoPass(d, i, 0, false);
    assert RunInfo(a, i, 0, false) == a;
  }

  lemma BridgeStarts(id: nat, ports: nat)
    ensures InitialBridge(id, StartBridge(id, ports)) && |StartBridge(id, ports).ports| == ports
    ensures forall i :: 0 <= i < ports ==> StartBridge(id, ports).ports[i].enabled
  {
    forall i | 0 <= i < ports
      ensures StartPort(i).enabled && Timely(StartPort(i)) && StartPort(i).timers == Timers(0, 9, 0, 9)
    {
      StartPortTimely(i);
    }
  }

  /** The line is a network that starts. */
  lemma LineStarts()
    ensures Starts(LINE, UP, START)
  {
    LineValid();
    LineInitial();
    forall e | 0 <= e < 4
      ensures LINE.peers[e] != []
    {
      assert |LINE.peers[e]| >= 1;
    }
  }

  lemma LineInitial()
    ensures Initial(LINE, START) && EnabledAs(START, UP)
  {
    BridgeStarts(1, 1);
    BridgeStarts(3, 2);
    BridgeStarts(4, 2);
    BridgeStarts(2, 1);
    LineEnabled();
  }

  lemma LineEnabled()
    ensures EnabledAs(START, UP)
  {
    BridgeStarts(1, 1);
    BridgeStarts(3, 2);
    BridgeStarts(4, 2);
    BridgeStarts(2, 1);
  }

  // ----- a network that has selected once and heard nothing

  ghost predicate Silent(t: Topology, up: seq<seq<bool>>, n: Net) {
    && RestNet(t, up, n) && (forall e :: 0 <= e < |t.peers| ==> n.bridges[e].gm == SystemGm)
    && (forall e, j :: 0 <= e < |t.peers| && 0 <= j < |t.peers[e]| ==> n.bridges[e].ports[j].infoIs != InfoReceived)
  }

  /** The announcement across a live link between bridges that are their own grandmasters. */
  lemma OwnOffer(t: Topology, up: seq<seq<bool>>, n: Net, e: nat, j: nat)
    requires RestNet(t, up, n) && e < |t.peers| && j < |t.peers[e]| && LiveLink(t, up, e, j)
    requires var c, k := n.bridges[t.peers[e][j].bridge], t.peers[e][j].port;
      c.gm == SystemGm && (c.ports[k].infoIs == InfoReceived ==>
        PairLess(t.ids[t.peers[e][j].bridge], 0, c.ports[k].portPriority.root, c.ports[k].portPriority.steps))
    ensures var i := t.ids[t.peers[e][j].bridge];
      Offered(t, n, e, j) == Some(Announce(i, 0, WireSource(ClockOf(i)), t.peers[e][j].port + 1, [ClockOf(i)]))
  {
    assert ValidPeer(t, e, j);
    var c, k := t.peers[e][j].bridge, t.peers[e][j].port;
    assert BridgeOk(t.ids, c, n.bridges[c]) && RestBridge(n.bridges[c]);
    OwnRoot(t.ids, c, n.bridges[c]);
    AwayPort(t.ids, c, n.bridges[c], k, t.ids[c], 0);
  }

  lemma RoundPorts(t: Topology, n: Net, e: nat)
    requires ValidTopology(t) && Shaped(t, n) && e < |t.peers| && RestBridge(n.bridges[e])
    ensures |RoundBridge(t, n, e).ports| == |t.peers[e]|
  {
    var p := Convergence.Ran(n.bridges[e], Inbox(t, n, e));
    SelectionCases(p);
    SelectedCount(p);
  }

  /** A bridge that newly follows a port has its vector from what the port holds. */
  lemma NewWinner(b: Bridge, inbox: seq<Option<Announce>>, r: Bridge, k: nat)
    requires |inbox| == |b.ports| && RestBridge(b) && b.gm == SystemGm && r == RunSelection(Convergence.Ran(b, inbox))
    requires r.gm == PathGm(k)
    requires k < |b.ports|
    ensures |r.ports| == |b.ports| && GmVector(r) == OneStepFurther(r.ports[k].portPriority)
  {
    var p := Convergence.Ran(b, inbox);
    RanBridge(b, inbox);
    SelectionCases(p);
    SelectionAtRest(p, k);
  }

  /** In the round after, a bridge that follows a port follows what it just heard there. */
  lemma WinnerHeard(t: Topology, up: seq<seq<bool>>, n: Net, e: nat, r: Bridge, k: nat)
    requires Silent(t, up, n) && e < |t.peers| && r == RoundBridge(t, n, e) && BridgeOk(t.ids, e, r)
    requires r.gm == PathGm(k)
    ensures k < |t.peers[e]| && LiveLink(t, up, e, k) && t.peers[e][k].bridge < |t.ids|
    ensures GmVector(r).root == t.ids[t.peers[e][k].bridge]
  {
    assert RestBridge(n.bridges[e]);
    GmReceived(t.ids, e, r);
    RoundPorts(t, n, e);
    ReceivedFrom(t, up, n, e, k);
    NewWinner(n.bridges[e], Inbox(t, n, e), r, k);
    assert ValidPeer(t, e, k);
    assert BridgeOk(t.ids, t.peers[e][k].bridge, n.bridges[t.peers[e][k].bridge]);
    OwnRoot(t.ids, t.peers[e][k].bridge, n.bridges[t.peers[e][k].bridge]);
  }

  /** And it is at least as good as what it heard on any other live port. */
  lemma HeardBound(t: Topology, up: seq<seq<bool>>, n: Net, e: nat, j: nat, r: Bridge)
    requires Silent(t, up, n) && e < |t.peers| && j < |t.peers[e]| && LiveLink(t, up, e, j) && r == RoundBridge(t, n, e)
    requires t.ids[t.peers[e][j].bridge] < t.ids[e] && Distinguishable(t, e, j)
    ensures GmVector(r).root <= t.ids[t.peers[e][j].bridge]
  {
    OwnOffer(t, up, n, e, j);
    assert ValidPeer(t, e, j);
    var c := t.peers[e][j].bridge;
    DistinctClocks(t, c, e);
    assert BridgeOk(t.ids, e, n.bridges[e]) && RestBridge(n.bridges[e]);
    OwnRoot(t.ids, e, n.bridges[e]);
    HeldMine(t.ids, e, n.bridges[e], j);
    assert t.ids[c] in t.ids;
    RoundTakes(t, n, r, e, j, MessageVector(Offered(t, n, e, j).value, j));
  }

  // ----- a better neighbour further away

  /** `c` is a neighbour of `b` across its port `j`, better than `b` and than all other
      neighbours of `b`, and itself has no live neighbour but `b`. */
  ghost predicate Tempts(t: Topology, up: seq<seq<bool>>, b: nat, j: nat, c: nat) {
    && |t.ids| == |t.peers| && b < |t.peers| && c < |t.peers| && j < |t.peers[b]|
    && LiveLink(t, up, b, j) && t.peers[b][j].bridge == c && t.ids[c] < t.ids[b]
    && (forall k :: 0 <= k < |t.peers[b]| && k != j && LiveLink(t, up, b, k) ==> Worse(t, b, k, c))
    && (forall k :: 0 <= k < |t.peers[c]| && LiveLink(t, up, c, k) ==> t.peers[c][k].bridge == b)
  }

  /** The peer of a port has a worse identity than `c`. */
  ghost predicate Worse(t: Topology, b: nat, k: nat, c: nat)
    requires |t.ids| == |t.peers| && b < |t.peers| && k < |t.peers[b]| && c < |t.peers|
  {
    t.peers[b][k].To? && t.peers[b][k].bridge < |t.ids| && t.ids[c] < t.ids[t.peers[b][k].bridge]
  }

  /** In the second round `b` follows `c`. */
  lemma FollowsTempter(t: Topology, up: seq<seq<bool>>, n: Net, m: Net, b: nat, j: nat, c: nat)
    requires Silent(t, up, n) && RoundOf(t, up, n, m) && Tempts(t, up, b, j, c) && Distinguishable(t, b, j)
    ensures m.bridges[b].gm == PathGm(j) && GmVector(m.bridges[b]).root == t.ids[c]
  {
    HeardBound(t, up, n, b, j, m.bridges[b]);
    NotOwn(t, up, m, b, c);
    FollowsNeighbour(t, up, n, b, m.bridges[b]);
    OnlyTempter(t, up, b, j, c, m.bridges[b].gm.port, GmVector(m.bridges[b]).root);
  }

  /** No other neighbour of `b` is as good as `c`. */
  lemma OnlyTempter(t: Topology, up: seq<seq<bool>>, b: nat, j: nat, c: nat, k: nat, root: nat)
    requires Tempts(t, up, b, j, c) && k < |t.peers[b]| && LiveLink(t, up, b, k) && t.peers[b][k].bridge < |t.ids|
    requires root == t.ids[t.peers[b][k].bridge] && root <= t.ids[c]
    ensures k == j && root == t.ids[c]
  {
  }

  lemma FollowsNeighbour(t: Topology, up: seq<seq<bool>>, n: Net, e: nat, r: Bridge)
    requires Silent(t, up, n) && e < |t.peers| && r == RoundBridge(t, n, e) && BridgeOk(t.ids, e, r) && RestBridge(r)
    requires r.gm != SystemGm
    ensures r.gm.PathGm? && r.gm.port < |t.peers[e]| && LiveLink(t, up, e, r.gm.port)
    ensures t.peers[e][r.gm.port].bridge < |t.ids| && GmVector(r).root == t.ids[t.peers[e][r.gm.port].bridge]
  {
    WinnerHeard(t, up, n, e, r, r.gm.port);
  }

  /** And `c` keeps to itself. */
  lemma TempterStays(t: Topology, up: seq<seq<bool>>, n: Net, m: Net, b: nat, j: nat, c: nat)
    requires Silent(t, up, n) && RoundOf(t, up, n, m) && Tempts(t, up, b, j, c)
    ensures m.bridges[c].gm == SystemGm
  {
    var r := m.bridges[c];
    assert BridgeOk(t.ids, c, r) && RestBridge(r);
    if r.gm.PathGm? {
      WinnerHeard(t, up, n, c, r, r.gm.port);
    }
  }

  /** What `c` goes on announcing to `b`. */
  lemma TempterOffers(t: Topology, up: seq<seq<bool>>, n: Net, b: nat, j: nat, c: nat)
    requires RestNet(t, up, n) && Tempts(t, up, b, j, c)
    requires n.bridges[b].gm == PathGm(j) && GmVector(n.bridges[b]).root == t.ids[c] && n.bridges[c].gm == SystemGm
    ensures Offered(t, n, b, j) ==
      Some(Announce(t.ids[c], 0, WireSource(ClockOf(t.ids[c])), t.peers[b][j].port + 1, [ClockOf(t.ids[c])]))
  {
    assert ValidPeer(t, b, j);
    assert BridgeOk(t.ids, b, n.bridges[b]);
    if n.bridges[c].ports[t.peers[b][j].port].infoIs == InfoReceived {
      HeldAtMost(t, n, c, t.peers[b][j].port);
    }
    OwnOffer(t, up, n, b, j);
  }

  lemma OwnAccepted(p: Port, o: Option<Announce>, self: nat, id: nat, port: nat)
    requires p.enabled && o == Some(Announce(id, 0, WireSource(ClockOf(id)), port, [ClockOf(id)]))
    requires ClockOf(id) != ClockOf(self) && WireSource(ClockOf(id)) != ClockOf(self)
    ensures Accepts(p, o, SystemVector(self))
  {
  }

  lemma StaleAccepted(t: Topology, n: Net, b: nat, j: nat, c: nat)
    requires ValidTopology(t) && b < |t.ids| && c < |t.ids| && b != c && j < |t.peers[b]| && Distinguishable(t, b, j)
    requires b < |n.bridges| && j < |n.bridges[b].ports| && n.bridges[b].ports[j].enabled
    requires n.bridges[b].system == SystemVector(t.ids[b]) && t.peers[b][j].bridge == c
    requires Offered(t, n, b, j) ==
      Some(Announce(t.ids[c], 0, WireSource(ClockOf(t.ids[c])), t.peers[b][j].port + 1, [ClockOf(t.ids[c])]))
    ensures Accepts(n.bridges[b].ports[j], Offered(t, n, b, j), n.bridges[b].system)
  {
    DistinctClocks(t, b, c);
    OwnAccepted(n.bridges[b].ports[j], Offered(t, n, b, j), t.ids[b], t.ids[c], t.peers[b][j].port + 1);
  }

  lemma HearsStalePath(t: Topology, up: seq<seq<bool>>, n: Net, b: nat, j: nat, c: nat)
    requires RestNet(t, up, n) && Tempts(t, up, b, j, c) && Distinguishable(t, b, j)
    requires n.bridges[b].gm == PathGm(j) && GmVector(n.bridges[b]).root == t.ids[c] && n.bridges[c].gm == SystemGm
    ensures RestBridge(n.bridges[b]) && SlavePort(n.bridges[b])
    ensures Accepts(n.bridges[b].ports[j], Offered(t, n, b, j), n.bridges[b].system)
    ensures Offered(t, n, b, j).value.path == [ClockOf(t.ids[c])]
  {
    TempterOffers(t, up, n, b, j, c);
    FollowingSlave(t, up, n, b, j);
    StaleAccepted(t, n, b, j, c);
  }

  /** In the third round `b` takes over the path trace of `c`. */
  lemma TakesStalePath(t: Topology, up: seq<seq<bool>>, n: Net, m: Net, b: nat, j: nat, c: nat)
    requires RoundOf(t, up, n, m) && Tempts(t, up, b, j, c) && Distinguishable(t, b, j)
    requires n.bridges[b].gm == PathGm(j) && GmVector(n.bridges[b]).root == t.ids[c] && n.bridges[c].gm == SystemGm
    ensures m.bridges[b].pathTrace == [ClockOf(t.ids[c])]
  {
    HearsStalePath(t, up, n, b, j, c);
    NotOwn(t, up, m, b, c);
    RoundPath(t, n, b, j, m.bridges[b]);
  }

  lemma RoundPath(t: Topology, n: Net, b: nat, j: nat, r: Bridge)
    requires ValidTopology(t) && Shaped(t, n) && b < |t.peers| && r == RoundBridge(t, n, b) && r.gm != SystemGm
    requires RestBridge(n.bridges[b]) && SlavePort(n.bridges[b]) && n.bridges[b].gm == PathGm(j)
    requires Accepts(n.bridges[b].ports[j], Offered(t, n, b, j), n.bridges[b].system)
    ensures r.pathTrace == Offered(t, n, b, j).value.path
  {
    PathHeard(t, b, n.bridges[b], Inbox(t, n, b), r);
  }

  lemma NotOwn(t: Topology, up: seq<seq<bool>>, m: Net, b: nat, c: nat)
    requires RestNet(t, up, m) && b < |t.ids| && c < |t.ids| && t.ids[c] < t.ids[b]
    requires GmVector(m.bridges[b]).root <= t.ids[c]
    ensures m.bridges[b].gm != SystemGm && BridgeOk(t.ids, b, m.bridges[b]) && RestBridge(m.bridges[b])
  {
    assert BridgeOk(t.ids, b, m.bridges[b]);
    OwnRoot(t.ids, b, m.bridges[b]);
  }

  lemma FollowingSlave(t: Topology, up: seq<seq<bool>>, n: Net, b: nat, j: nat)
    requires RestNet(t, up, n) && b < |t.peers| && n.bridges[b].gm == PathGm(j)
    ensures RestBridge(n.bridges[b]) && SlavePort(n.bridges[b]) && n.bridges[b].ports[j].enabled
    ensures n.bridges[b].system == SystemVector(t.ids[b])
  {
    assert BridgeOk(t.ids, b, n.bridges[b]) && RestBridge(n.bridges[b]);
    GmReceived(t.ids, b, n.bridges[b]);
    assert Sane(n.bridges[b].ports[j]) && RestPort(n.bridges[b].ports[j], true, GmVector(n.bridges[b]));
  }

  // ----- a bridge that is late

  /** The states after one, two, three and four rounds. */
  lemma FourRounds(t: Topology, up: seq<seq<bool>>, n: Net, rs: seq<Round>, root: nat, dist: seq<nat>)
    requires Starts(t, up, n) && AllFull(t, n, rs) && |rs| == 4 && IsHops(t, up, root, dist) && Passable(t, up, dist)
    ensures Silent(t, up, AfterRounds(t, n, rs[..1]))
    ensures RoundOf(t, up, AfterRounds(t, n, rs[..1]), AfterRounds(t, n, rs[..2]))
    ensures RoundOf(t, up, AfterRounds(t, n, rs[..2]), AfterRounds(t, n, rs[..3]))
    ensures RoundOf(t, up, AfterRounds(t, n, rs[..3]), AfterRounds(t, n, rs))
    ensures var m := AfterRounds(t, n, rs[..3]); NoShortcut(t, m, root, dist) && Within(t, m, root, dist, 2)
  {
    assert rs[..3][..2] == rs[..2] && rs[..2][..1] == rs[..1];
    LastRound(t, up, n, rs, root, dist);
    LastRound(t, up, n, rs[..3], root, dist);
    LastRound(t, up, n, rs[..2], root, dist);
    FirstSilent(t, up, n, rs[..1]);
    Converges(t, up, n, rs[..3], root, dist);
  }

  lemma FirstSilent(t: Topology, up: seq<seq<bool>>, n: Net, rs: seq<Round>)
    requires Starts(t, up, n) && AllFull(t, n, rs) && |rs| == 1
    ensures Silent(t, up, AfterRounds(t, n, rs))
  {
    assert rs[..0] == [];
    FirstRound(t, up, n, rs[0]);
  }

  lemma LastRound(t: Topology, up: seq<seq<bool>>, n: Net, rs: seq<Round>, root: nat, dist: seq<nat>)
    requires Starts(t, up, n) && AllFull(t, n, rs) && |rs| >= 2 && IsHops(t, up, root, dist) && Passable(t, up, dist)
    ensures AllFull(t, n, rs[..|rs| - 1])
    ensures RoundOf(t, up, AfterRounds(t, n, rs[..|rs| - 1]), AfterRounds(t, n, rs))
  {
    Converges(t, up, n, rs[..|rs| - 1], root, dist);
    FullRoundOf(t, up, AfterRounds(t, n, rs[..|rs| - 1]), rs[|rs| - 1]);
  }

  /** A bridge three hops from the best root that tempts its only neighbour has, in every run,
      not adopted the root after four rounds: in the fourth it is on the path its neighbour
      announces. */
  lemma TempterIsLate(t: Topology, up: seq<seq<bool>>, n: Net, rs: seq<Round>, root: nat, dist: seq<nat>, b: nat,
                      j: nat, c: nat)
    requires Starts(t, up, n) && AllFull(t, n, rs) && |rs| == 4 && IsHops(t, up, root, dist) && Passable(t, up, dist)
    requires Tempts(t, up, b, j, c) && dist[c] == 3
    ensures RestNet(t, up, AfterRounds(t, n, rs)) && !Adopted(AfterRounds(t, n, rs).bridges[c], t.ids[root], dist[c])
  {
    FourRounds(t, up, n, rs, root, dist);
    var n1, n2 := AfterRounds(t, n, rs[..1]), AfterRounds(t, n, rs[..2]);
    var n3, n4 := AfterRounds(t, n, rs[..3]), AfterRounds(t, n, rs);
    assert Distinguishable(t, b, j);
    FollowsTempter(t, up, n1, n2, b, j, c);
    TempterStays(t, up, n1, n2, b, j, c);
    TakesStalePath(t, up, n2, n3, b, j, c);
    Ignored(t, up, n3, n4, root, dist, b, j, c);
  }

  lemma Ignored(t: Topology, up: seq<seq<bool>>, n: Net, m: Net, root: nat, dist: seq<nat>, b: nat, j: nat, c: nat)
    requires RoundOf(t, up, n, m) && IsHops(t, up, root, dist) && NoShortcut(t, n, root, dist)
    requires Within(t, n, root, dist, 2)
    requires Tempts(t, up, b, j, c) && dist[c] == 3 && n.bridges[b].pathTrace == [ClockOf(t.ids[c])]
    ensures !Adopted(m.bridges[c], t.ids[root], dist[c])
  {
    if Adopted(m.bridges[c], t.ids[root], dist[c]) {
      var k := AdoptedHow(t, up, n, m, root, dist, c);
      LetsAccepts(t, up, n, root, dist, c, k);
      assert false;
    }
  }

  // ----- the line

  /** The line is such a network, with its last two bridges. */
  lemma LineTempts()
    ensures Tempts(LINE, UP, 2, 1, 3)
  {
    assert Worse(LINE, 2, 0, 3);
    assert LINE.peers[2] == [To(1, 1), To(3, 0)] && LINE.peers[3] == [To(2, 1)];
  }

  lemma LinePassable()
    ensures Passable(LINE, UP, DIST)
  {
    forall e, j | 0 <= e < 4 && 0 <= j < |LINE.peers[e]|
      ensures Distinguishable(LINE, e, j)
    {
      LineLink(e, j);
    }
  }

  /** Its last bridge, three hops away, has not adopted the best root after four rounds. */
  lemma LineIsLate(rs: seq<Round>)
    requires AllFull(LINE, START, rs) && |rs| == 4
    ensures var m := AfterRounds(LINE, START, rs); |m.bridges| == 4 && !Adopted(m.bridges[3], 1, 3)
  {
    LineStarts();
    LineHops();
    LinePassable();
    LineTempts();
    TempterIsLate(LINE, UP, START, rs, 0, DIST, 2, 1, 3);
  }

  /** So in every such run some bridge that was next did not hear a closer neighbour. */
  lemma LineNotClear(rs: seq<Round>)
    requires AllFull(LINE, START, rs) && |rs| == 4
    ensures !AlwaysClear(LINE, UP, START, rs, DIST)
  {
    LineStarts();
    LineHops();
    LineIsLate(rs);
    OnTimeExactly(LINE, UP, START, rs, 0, DIST);
  }
}
