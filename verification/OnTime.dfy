/**
 When the best root is on time, that is, when it reaches every bridge d hops away in the round
 after those d - 1 hops away: exactly if in every round some neighbour that is closer lets its
 announcement through.
 */
module OnTime {
  import opened Priority
  import opened BestMaster
  import opened AnnounceInfo
  import opened Network
  import opened NetworkSafety
  import opened Rounds
  import opened Wrappers
  import opened Convergence
  import opened HopCount
  import opened Spreading

  /** Every bridge less than `x` hops away has adopted the root. */
  ghost predicate Reached(t: Topology, n: Net, root: nat, dist: seq<nat>, x: nat)
    requires |dist| == |n.bridges| && root < |t.ids|
  {
    forall e :: 0 <= e < |dist| && dist[e] < x ==> Adopted(n.bridges[e], t.ids[root], dist[e])
  }

  /** Some closer neighbour is heard: the guards of `qualifyAnnounce` let its announcement in. */
  ghost predicate Hears(t: Topology, up: seq<seq<bool>>, n: Net, dist: seq<nat>, e: nat)
    requires |dist| == |t.ids| == |t.peers| == |up| == |n.bridges| && e < |dist|
  {
    exists j :: 0 <= j < |t.peers[e]| && Closer(t, up, dist, e, j) && Lets(t, n, dist, e, j)
  }

  /** Every bridge at distance `x` hears a closer neighbour. */
  ghost predicate Clear(t: Topology, up: seq<seq<bool>>, n: Net, dist: seq<nat>, x: nat)
    requires |dist| == |t.ids| == |t.peers| == |up| == |n.bridges|
  {
    forall e :: 0 <= e < |dist| && dist[e] == x ==> Hears(t, up, n, dist, e)
  }

  /** A neighbour that is heard and has the root passes it on. */
  lemma HearsAdopts(t: Topology, up: seq<seq<bool>>, n: Net, m: Net, root: nat, dist: seq<nat>, e: nat)
    requires RoundOf(t, up, n, m) && IsHops(t, up, root, dist) && NoShortcut(t, n, root, dist)
    requires e < |dist| && !Adopted(n.bridges[e], t.ids[root], dist[e]) && Reached(t, n, root, dist, dist[e])
    ensures Adopted(m.bridges[e], t.ids[root], dist[e]) <==> Hears(t, up, n, dist, e)
  {
    AdoptsExactly(t, up, n, m, root, dist, e);
    forall j | 0 <= j < |t.peers[e]| && Closer(t, up, dist, e, j) && Lets(t, n, dist, e, j)
      ensures Herald(t, up, n, root, dist, e, j)
    {
      assert Adopted(n.bridges[t.peers[e][j].bridge], t.ids[root], dist[t.peers[e][j].bridge]);
    }
  }

  /** One round: the root is on time at the next distance exactly if that distance is clear. */
  lemma RoundOnTime(t: Topology, up: seq<seq<bool>>, n: Net, m: Net, root: nat, dist: seq<nat>, x: nat)
    requires RoundOf(t, up, n, m) && IsHops(t, up, root, dist) && NoShortcut(t, n, root, dist)
    requires x >= 1 && Within(t, n, root, dist, x - 1) && Reached(t, n, root, dist, x)
    ensures Reached(t, m, root, dist, x + 1) <==> Clear(t, up, n, dist, x)
  {
    forall e | 0 <= e < |dist| && dist[e] <= x
      ensures Adopted(m.bridges[e], t.ids[root], dist[e]) <==> dist[e] < x || Hears(t, up, n, dist, e)
    {
      if dist[e] < x {
        StaysAdopted(t, up, n, m, root, dist, e);
      } else {
        HearsAdopts(t, up, n, m, root, dist, e);
      }
    }
  }

  // ----- whole runs

  /** After every round of the run the root has come one hop further. */
  ghost predicate AlwaysOnTime(t: Topology, n: Net, rs: seq<Round>, root: nat, dist: seq<nat>)
    requires |dist| == |t.peers| && root < |t.ids|
    decreases |rs|
  {
    rs == [] || (AlwaysOnTime(t, n, rs[..|rs| - 1], root, dist)
      && OnTimeAfter(t, AfterRounds(t, n, rs), root, dist, |rs|))
  }

  ghost predicate OnTimeAfter(t: Topology, n: Net, root: nat, dist: seq<nat>, x: nat)
    requires root < |t.ids|
  {
    |n.bridges| == |dist| && Reached(t, n, root, dist, x)
  }

  /** Before every round the distance that is next was clear. */
  ghost predicate AlwaysClear(t: Topology, up: seq<seq<bool>>, n: Net, rs: seq<Round>, dist: seq<nat>)
    requires |dist| == |t.ids| == |t.peers| == |up|
    decreases |rs|
  {
    |rs| <= 1 || (AlwaysClear(t, up, n, rs[..|rs| - 1], dist)
      && ClearAfter(t, up, AfterRounds(t, n, rs[..|rs| - 1]), dist, |rs| - 1))
  }

  ghost predicate ClearAfter(t: Topology, up: seq<seq<bool>>, n: Net, dist: seq<nat>, x: nat)
    requires |dist| == |t.ids| == |t.peers| == |up|
  {
    |n.bridges| == |dist| && Clear(t, up, n, dist, x)
  }

  /** In every run on any topology: the best root spreads one hop in every round exactly if in
      every round each bridge that is next hears a closer neighbour. */
  lemma {:induction false} OnTimeExactly(t: Topology, up: seq<seq<bool>>, n: Net, rs: seq<Round>, root: nat,
                                         dist: seq<nat>)
    requires Starts(t, up, n) && AllFull(t, n, rs) && rs != [] && IsHops(t, up, root, dist)
    ensures AlwaysOnTime(t, n, rs, root, dist) <==> AlwaysClear(t, up, n, rs, dist)
    decreases |rs|
  {
    if |rs| == 1 {
      FirstOnTime(t, up, n, rs, root, dist);
    } else {
      OnTimeExactly(t, up, n, rs[..|rs| - 1], root, dist);
      if AlwaysOnTime(t, n, rs[..|rs| - 1], root, dist) {
        LastOnTime(t, up, n, rs, root, dist);
      }
    }
  }

  lemma FirstOnTime(t: Topology, up: seq<seq<bool>>, n: Net, rs: seq<Round>, root: nat, dist: seq<nat>)
    requires Starts(t, up, n) && AllFull(t, n, rs) && |rs| == 1 && IsHops(t, up, root, dist)
    ensures AlwaysOnTime(t, n, rs, root, dist) && AlwaysClear(t, up, n, rs, dist)
  {
    RunKeeps(t, up, n, rs, root, dist);
    RootReached(t, up, AfterRounds(t, n, rs), root, dist);
    assert rs[..|rs| - 1] == [];
    assert AlwaysOnTime(t, n, [], root, dist);
  }

  lemma RootReached(t: Topology, up: seq<seq<bool>>, n: Net, root: nat, dist: seq<nat>)
    requires RestNet(t, up, n) && IsHops(t, up, root, dist)
    ensures OnTimeAfter(t, n, root, dist, 1)
  {
    RootSelf(t, up, n, root, dist);
  }

  /** After the rounds `rs` the root is on time again exactly if the next distance was clear. */
  lemma LastOnTime(t: Topology, up: seq<seq<bool>>, n: Net, rs: seq<Round>, root: nat, dist: seq<nat>)
    requires Starts(t, up, n) && AllFull(t, n, rs) && |rs| >= 2 && IsHops(t, up, root, dist)
    requires OnTimeAfter(t, AfterRounds(t, n, rs[..|rs| - 1]), root, dist, |rs| - 1)
    ensures OnTimeAfter(t, AfterRounds(t, n, rs), root, dist, |rs|) <==>
      ClearAfter(t, up, AfterRounds(t, n, rs[..|rs| - 1]), dist, |rs| - 1)
  {
    RunKeeps(t, up, n, rs, root, dist);
    RunKeeps(t, up, n, rs[..|rs| - 1], root, dist);
    RoundOnTime(t, up, AfterRounds(t, n, rs[..|rs| - 1]), AfterRounds(t, n, rs), root, dist, |rs| - 1);
  }

  /** A neighbour that has the root is let through. */
  ghost predicate Passed(t: Topology, up: seq<seq<bool>>, n: Net, root: nat, dist: seq<nat>, e: nat)
    requires |dist| == |t.ids| == |t.peers| == |up| && e < |dist| && root < |t.ids|
  {
    && |n.bridges| == |dist|
    && exists j :: 0 <= j < |t.peers[e]| && Herald(t, up, n, root, dist, e, j) && Lets(t, n, dist, e, j)
  }

  /** The same before one of the rounds behind the first. */
  ghost predicate EverPassed(t: Topology, up: seq<seq<bool>>, n: Net, rs: seq<Round>, root: nat, dist: seq<nat>, e: nat)
    requires |dist| == |t.ids| == |t.peers| == |up| && e < |dist| && root < |t.ids|
    decreases |rs|
  {
    |rs| >= 2 && (EverPassed(t, up, n, rs[..|rs| - 1], root, dist, e)
                  || Passed(t, up, AfterRounds(t, n, rs[..|rs| - 1]), root, dist, e))
  }

  lemma PassedStep(t: Topology, up: seq<seq<bool>>, n: Net, m: Net, root: nat, dist: seq<nat>, e: nat)
    requires RoundOf(t, up, n, m) && IsHops(t, up, root, dist) && NoShortcut(t, n, root, dist) && e < |dist|
    ensures Adopted(m.bridges[e], t.ids[root], dist[e]) <==>
      Adopted(n.bridges[e], t.ids[root], dist[e]) || Passed(t, up, n, root, dist, e)
  {
    if Adopted(n.bridges[e], t.ids[root], dist[e]) {
      StaysAdopted(t, up, n, m, root, dist, e);
    } else {
      AdoptsExactly(t, up, n, m, root, dist, e);
    }
  }

  /** One bridge: it has adopted the root exactly if some neighbour that had it was let through
      before one of the rounds. */
  lemma {:induction false} AdoptedExactly(t: Topology, up: seq<seq<bool>>, n: Net, rs: seq<Round>, root: nat,
                                          dist: seq<nat>, e: nat)
    requires Starts(t, up, n) && AllFull(t, n, rs) && rs != [] && IsHops(t, up, root, dist) && e < |dist| && e != root
    ensures RestNet(t, up, AfterRounds(t, n, rs))
    ensures Adopted(AfterRounds(t, n, rs).bridges[e], t.ids[root], dist[e]) <==> EverPassed(t, up, n, rs, root, dist, e)
    decreases |rs|
  {
    RunKeeps(t, up, n, rs, root, dist);
    var before := rs[..|rs| - 1];
    if before != [] {
      AdoptedExactly(t, up, n, before, root, dist, e);
      RunKeeps(t, up, n, before, root, dist);
      PassedStep(t, up, AfterRounds(t, n, before), AfterRounds(t, n, rs), root, dist, e);
    }
  }
}
