/**
 The best root spreads over the network: a bridge `d` hops away takes it over after at least
 d + 1 and at most 2d rounds (the first of which is the first selection of every bridge), with
 stepsRemoved d, and its path trace follows within another round.
 */
module Spreading {
  import opened Priority
  import opened BestMaster
  import opened AnnounceInfo
  import opened Network
  import opened NetworkSafety
  import opened Rounds
  import opened Wrappers
  import opened Convergence
  import opened HopCount

  /** Every live link lets announcements of the root through: the source identity on the wire
      is not mistaken for the receiver's own, and no bridge is too far away. */
  ghost predicate Passable(t: Topology, up: seq<seq<bool>>, dist: seq<nat>)
    requires |dist| == |t.ids| == |t.peers| == |up|
  {
    && (forall e :: 0 <= e < |dist| ==> dist[e] <= 256)
    && (forall e, j :: 0 <= e < |dist| && 0 <= j < |t.peers[e]| && LiveLink(t, up, e, j) ==> Distinguishable(t, e, j))
  }

  ghost predicate Distinguishable(t: Topology, e: nat, j: nat)
    requires e < |t.ids| == |t.peers| && j < |t.peers[e]|
  {
    t.peers[e][j].To? && t.peers[e][j].bridge < |t.ids|
    && WireSource(ClockOf(t.ids[t.peers[e][j].bridge])) != ClockOf(t.ids[e])
  }

  /** After `x` rounds. */
  ghost predicate Spread(t: Topology, n: Net, root: nat, dist: seq<nat>, x: nat)
    requires |dist| == |n.bridges| && root < |t.ids|
  {
    forall e :: 0 <= e < |dist| ==>
      && (2 * dist[e] <= x ==> Adopted(n.bridges[e], t.ids[root], dist[e]))
      && (2 * dist[e] + 1 <= x ==> n.bridges[e].pathTrace == [ClockOf(t.ids[root])])
  }

  /** The path trace of a bridge that hears a path on its slave port. */
  lemma PathHeard(t: Topology, e: nat, b: Bridge, inbox: seq<Option<Announce>>, r: Bridge)
    requires |inbox| == |b.ports| && RestBridge(b) && SlavePort(b) && r == RunSelection(Convergence.Ran(b, inbox))
    requires r.gm != SystemGm
    requires Accepts(b.ports[b.gm.port], inbox[b.gm.port], b.system)
    ensures r.pathTrace == inbox[b.gm.port].value.path
  {
    RanBridge(b, inbox);
    PathKept(Convergence.Ran(b, inbox), r);
  }

  lemma PathKept(p: Bridge, r: Bridge)
    requires p.selection == RoleSelection && r == RunSelection(p) && r.gm != SystemGm
    requires forall i :: 0 <= i < |p.ports| ==> Timely(p.ports[i]) && !p.ports[i].rcvdMsg
    ensures r.pathTrace == p.pathTrace
  {
    SelectionCases(p);
    if AnyReselect(p.ports) {
      var i :| 0 <= i < |p.ports| && p.ports[i].reselect;
      SelectionAtRest(p, i);
    }
  }

  /** A bridge that has the root takes over the path trace of the herald it follows. */
  lemma PathFollows(t: Topology, up: seq<seq<bool>>, n: Net, m: Net, root: nat, dist: seq<nat>, e: nat, path: seq<nat>)
    requires RoundOf(t, up, n, m) && IsHops(t, up, root, dist) && NoShortcut(t, n, root, dist)
    requires e < |dist| && e != root && Adopted(n.bridges[e], t.ids[root], dist[e])
    requires forall j :: 0 <= j < |t.peers[e]| && Herald(t, up, n, root, dist, e, j) ==>
      Lets(t, n, dist, e, j) && n.bridges[t.peers[e][j].bridge].pathTrace == path
    ensures m.bridges[e].pathTrace == path
  {
    FollowsHerald(t, up, n, root, dist, e);
    var k := n.bridges[e].gm.port;
    LetsAccepts(t, up, n, root, dist, e, k);
    StaysAdopted(t, up, n, m, root, dist, e);
    RoundNoShortcut(t, up, n, m, root, dist);
    FollowsHerald(t, up, m, root, dist, e);
    assert RestBridge(n.bridges[e]);
    PathHeard(t, e, n.bridges[e], Inbox(t, n, e), m.bridges[e]);
  }

  /** Two rounds carry the root one hop, and its path trace with it. */
  lemma HeraldLets(t: Topology, up: seq<seq<bool>>, n: Net, root: nat, dist: seq<nat>, x: nat, e: nat, j: nat)
    requires RestNet(t, up, n) && IsHops(t, up, root, dist) && Passable(t, up, dist) && Spread(t, n, root, dist, x)
    requires e < |dist| && e != root && j < |t.peers[e]| && Closer(t, up, dist, e, j) && 2 * dist[e] <= x + 1
    ensures Herald(t, up, n, root, dist, e, j) && Lets(t, n, dist, e, j)
    ensures n.bridges[t.peers[e][j].bridge].pathTrace == [ClockOf(t.ids[root])]
  {
    assert Distinguishable(t, e, j);
    DistinctClocks(t, e, root);
  }

  lemma AdoptsInTime(t: Topology, up: seq<seq<bool>>, n: Net, m: Net, root: nat, dist: seq<nat>, x: nat, e: nat)
    requires RoundOf(t, up, n, m) && IsHops(t, up, root, dist) && NoShortcut(t, n, root, dist) && Passable(t, up, dist)
    requires Spread(t, n, root, dist, x) && e < |dist| && 2 * dist[e] <= x + 1
    ensures Adopted(m.bridges[e], t.ids[root], dist[e])
  {
    if e == root {
      RootSelf(t, up, m, root, dist);
    } else {
      assert HasParent(t, up, dist, e);
      var j :| 0 <= j < |t.peers[e]| && Closer(t, up, dist, e, j);
      HeraldLets(t, up, n, root, dist, x, e, j);
      LetsAccepts(t, up, n, root, dist, e, j);
      AdoptsAccepted(t, up, n, m, root, dist, e, j);
    }
  }

  lemma PathInTime(t: Topology, up: seq<seq<bool>>, n: Net, m: Net, root: nat, dist: seq<nat>, x: nat, e: nat)
    requires RoundOf(t, up, n, m) && IsHops(t, up, root, dist) && NoShortcut(t, n, root, dist) && Passable(t, up, dist)
    requires Spread(t, n, root, dist, x) && e < |dist| && 2 * dist[e] <= x
    ensures m.bridges[e].pathTrace == [ClockOf(t.ids[root])]
  {
    if e == root {
      RootSelf(t, up, m, root, dist);
    } else {
      forall j | 0 <= j < |t.peers[e]| && Herald(t, up, n, root, dist, e, j)
        ensures Lets(t, n, dist, e, j) && n.bridges[t.peers[e][j].bridge].pathTrace == [ClockOf(t.ids[root])]
      {
        HeraldLets(t, up, n, root, dist, x, e, j);
      }
      PathFollows(t, up, n, m, root, dist, e, [ClockOf(t.ids[root])]);
    }
  }

  lemma SpreadGrows(t: Topology, up: seq<seq<bool>>, n: Net, m: Net, root: nat, dist: seq<nat>, x: nat)
    requires RoundOf(t, up, n, m) && IsHops(t, up, root, dist) && NoShortcut(t, n, root, dist) && Passable(t, up, dist)
    requires Spread(t, n, root, dist, x)
    ensures Spread(t, m, root, dist, x + 1)
  {
    forall e | 0 <= e < |dist|
      ensures 2 * dist[e] <= x + 1 ==> Adopted(m.bridges[e], t.ids[root], dist[e])
      ensures 2 * dist[e] + 1 <= x + 1 ==> m.bridges[e].pathTrace == [ClockOf(t.ids[root])]
    {
      if 2 * dist[e] <= x + 1 { AdoptsInTime(t, up, n, m, root, dist, x, e); }
      if 2 * dist[e] <= x { PathInTime(t, up, n, m, root, dist, x, e); }
    }
  }

  // ----- rounds from the start

  function AfterRounds(t: Topology, n: Net, rs: seq<Round>): Net {
    if rs == [] then n else Steps(t, AfterRounds(t, n, rs[..|rs| - 1]), ActionsOf(rs[|rs| - 1]))
  }

  ghost predicate AllFull(t: Topology, n: Net, rs: seq<Round>)
    decreases |rs|
  {
    rs == [] || (AllFull(t, n, rs[..|rs| - 1]) && FullRound(t, AfterRounds(t, n, rs[..|rs| - 1]), rs[|rs| - 1]))
  }

  /** A network that starts: sound identities and links, every bridge with a port, nothing
      selected yet. */
  ghost predicate Starts(t: Topology, up: seq<seq<bool>>, n: Net) {
    ValidTopology(t) && Initial(t, n) && EnabledAs(n, up) && forall e :: 0 <= e < |t.peers| ==> t.peers[e] != []
  }

  lemma SpreadFirst(t: Topology, up: seq<seq<bool>>, n: Net, r: Round, root: nat, dist: seq<nat>)
    requires Starts(t, up, n) && FullRound(t, n, r) && IsHops(t, up, root, dist)
    ensures var m := Steps(t, n, ActionsOf(r));
      RestNet(t, up, m) && NoShortcut(t, m, root, dist) && Within(t, m, root, dist, 0) && Spread(t, m, root, dist, 1)
  {
    FirstRound(t, up, n, r);
    var m := Steps(t, n, ActionsOf(r));
    RootSelf(t, up, m, root, dist);
    forall e | 0 <= e < |dist| && e != root
      ensures GmVector(m.bridges[e]).root != t.ids[root]
    {
      assert BridgeOk(t.ids, e, m.bridges[e]);
      OwnRoot(t.ids, e, m.bridges[e]);
    }
  }

  /** What every run keeps, whatever its links let through. */
  lemma {:induction false} RunKeeps(t: Topology, up: seq<seq<bool>>, n: Net, rs: seq<Round>, root: nat, dist: seq<nat>)
    requires Starts(t, up, n) && AllFull(t, n, rs) && rs != [] && IsHops(t, up, root, dist)
    ensures var m := AfterRounds(t, n, rs);
      RestNet(t, up, m) && NoShortcut(t, m, root, dist) && Within(t, m, root, dist, |rs| - 1)
    ensures |rs| >= 2 ==> RoundOf(t, up, AfterRounds(t, n, rs[..|rs| - 1]), AfterRounds(t, n, rs))
    decreases |rs|
  {
    var before, r := rs[..|rs| - 1], rs[|rs| - 1];
    if before == [] {
      SpreadFirst(t, up, n, r, root, dist);
    } else {
      RunKeeps(t, up, n, before, root, dist);
      var p, m := AfterRounds(t, n, before), AfterRounds(t, n, rs);
      FullRoundOf(t, up, p, r);
      RoundNoShortcut(t, up, p, m, root, dist);
      RoundWithin(t, up, p, m, root, dist, |before| - 1);
    }
  }

  /** In every run of synchronous rounds, on any topology, after x rounds:
      every bridge up to x / 2 hops from the best root has adopted it at its hop distance,
      no bridge x or more hops away knows it yet, and nobody claims to be closer than it is. */
  lemma {:induction false} Converges(t: Topology, up: seq<seq<bool>>, n: Net, rs: seq<Round>, root: nat, dist: seq<nat>)
    requires Starts(t, up, n) && AllFull(t, n, rs) && rs != [] && IsHops(t, up, root, dist) && Passable(t, up, dist)
    ensures var m := AfterRounds(t, n, rs);
      && RestNet(t, up, m) && NoShortcut(t, m, root, dist) && Within(t, m, root, dist, |rs| - 1)
      && Spread(t, m, root, dist, |rs|)
    decreases |rs|
  {
    var before := rs[..|rs| - 1];
    RunKeeps(t, up, n, rs, root, dist);
    if before == [] {
      SpreadFirst(t, up, n, rs[0], root, dist);
    } else {
      Converges(t, up, n, before, root, dist);
      SpreadGrows(t, up, AfterRounds(t, n, before), AfterRounds(t, n, rs), root, dist, |before|);
    }
  }

  /** There are runs of every length. */
  lemma {:induction false} RoundsExist(t: Topology, up: seq<seq<bool>>, n: Net, x: nat) returns (rs: seq<Round>)
    requires Starts(t, up, n)
    ensures |rs| == x && AllFull(t, n, rs) && NetOk(t, AfterRounds(t, n, rs)) && Quiet(AfterRounds(t, n, rs))
  {
    if x == 0 {
      InitialOk(t, n);
      rs := [];
    } else {
      var before := RoundsExist(t, up, n, x - 1);
      var r := RoundExists(t, AfterRounds(t, n, before));
      RoundClosed(t, AfterRounds(t, n, before), r);
      rs := before + [r];
      assert rs[..x - 1] == before;
    }
  }
}
