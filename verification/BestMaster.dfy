/**
 Best master selection of IEEE 802.1AS section 10.3.12 (ptp/gptpstatmch.c): how a bridge
 derives the grandmaster, the master vectors and the port roles from the information its
 ports hold.
 */
module BestMaster {
  import opened Priority

  datatype InfoState =
    | Begin | Disabled | Aged | Update | Superior | Repeated | Inferior | Current | Receive

  datatype InfoIs = InfoDisabled | InfoReceived | InfoAged | InfoMine

  datatype Role = RoleDisabled | Master | Slave | Passive

  datatype RcvdInfo = SuperiorInfo | RepeatedInfo | InferiorInfo

  datatype Selection = InitBridge | RoleSelection

  /** The logical content of an announce frame: the vector of its sender and the path trace. */
  datatype Announce = Announce(root: nat, steps: nat, source: nat, sourcePort: nat, path: seq<nat>)

  /** Ticks since the last announce and sync, with the receipt timeouts in ticks. */
  datatype Timers = Timers(announce: nat, announceLimit: nat, sync: nat, syncLimit: nat) {
    predicate AnnounceExpired() {
      announce >= announceLimit
    }
    predicate SyncExpired() {
      sync >= syncLimit
    }
  }

  /** The announce variables of a port. `enabled` stands for the conjunction of portEnabled,
      pttPortEnabled and asCapable, in which alone they occur here. */
  datatype Port = Port(
    enabled: bool, state: InfoState, infoIs: InfoIs, role: Role,
    portPriority: Vector, messagePriority: Vector, masterPriority: Vector, gmPathPriority: Vector,
    portSteps: nat, reselect: bool, selected: bool, updtInfo: bool, rcvdMsg: bool,
    received: Announce, rcvdInfo: RcvdInfo, timers: Timers)

  /** What `ptp->gmPriority` points to. */
  datatype Gm = LastGm | SystemGm | PathGm(port: nat)

  datatype Bridge = Bridge(
    system: Vector, gm: Gm, lastGm: Vector, gmPresent: bool, masterSteps: nat, grandMaster: bool,
    newMaster: bool, pathTrace: seq<nat>, selection: Selection, ports: seq<Port>)

  /** The vector behind the pointer. */
  function Deref(gm: Gm, system: Vector, lastGm: Vector, ports: seq<Port>): Vector {
    match gm
    case LastGm => lastGm
    case SystemGm => system
    case PathGm(i) => if i < |ports| then ports[i].gmPathPriority else lastGm
  }

  function GmVector(b: Bridge): Vector {
    Deref(b.gm, b.system, b.lastGm, b.ports)
  }

  /** `set_port_number`: only the low byte of the 1-based number is kept. */
  function PortNumber(i: nat): nat {
    (i + 1) % 256
  }

  function OneStepFurther(v: Vector): Vector {
    v.(steps := (v.steps + 1) % 65536)
  }

  // ----- updtRolesTree

  /** The information of a port is used unless its announces stopped, or its syncs did while
      there is a grandmaster. */
  predicate Usable(p: Port, gmPresent: bool) {
    !p.timers.AnnounceExpired() && (!gmPresent || !p.timers.SyncExpired())
  }

  /** The path vector of a port; a sync counter that ran out starts again. */
  function WithPath(p: Port, gmPresent: bool): Port {
    p.(gmPathPriority := if Usable(p, gmPresent) then OneStepFurther(p.portPriority) else NOTHING,
       timers := if !Usable(p, gmPresent) && p.timers.SyncExpired() then p.timers.(sync := 0) else p.timers)
  }

  function WithPaths(ports: seq<Port>, gmPresent: bool): (r: seq<Port>)
    ensures |r| == |ports|
  {
    seq(|ports|, i requires 0 <= i < |ports| => WithPath(ports[i], gmPresent))
  }

  /** A path is a candidate unless it leads back to ourselves. */
  predicate Foreign(system: Vector, p: Port) {
    ClockOf(p.gmPathPriority.root) != ClockOf(system.root)
  }

  /** The winner among the system vector and the paths of the first `n` ports. */
  function Best(system: Vector, ports: seq<Port>, n: nat): (g: Gm)
    requires n <= |ports|
    ensures g == SystemGm || (g.PathGm? && g.port < n)
  {
    if n == 0 then SystemGm
    else
      var g := Best(system, ports, n - 1);
      if Foreign(system, ports[n - 1])
         && Compare(Deref(g, system, system, ports), ports[n - 1].gmPathPriority) == ReplacePresentMaster
      then PathGm(n - 1)
      else g
  }

  /** stepsRemoved of what the bridge announces: one more than the last message of the winning
      port says. */
  function MasterSteps(g: Gm, ports: seq<Port>): nat {
    if g.PathGm? && g.port < |ports| then (ports[g.port].messagePriority.steps + 1) % 65536 else 0
  }

  /** The vector a port would announce. */
  function MasterVector(gm: Vector, system: Vector, i: nat): Vector {
    gm.(source := system.source, sourcePort := PortNumber(i), rxPort := PortNumber(i))
  }

  /** The role of a port, given its master vector and whether its path won. */
  function RoleFor(p: Port, isGm: bool, master: Vector): Role {
    match p.infoIs
    case InfoDisabled => RoleDisabled
    case InfoAged => Master
    case InfoMine => Master
    case InfoReceived =>
      if isGm then Slave
      else if Compare(p.portPriority, master) == ReplacePresentMaster then Master
      else Passive
  }

  /** Whether the port must take over its master vector. */
  function UpdateFor(p: Port, isGm: bool, master: Vector, masterSteps: nat): bool {
    match p.infoIs
    case InfoDisabled => p.updtInfo
    case InfoAged => true
    case InfoMine => p.updtInfo || p.portSteps != masterSteps || Compare(p.portPriority, master) != IsPresentMaster
    case InfoReceived => !isGm && Compare(p.portPriority, master) == ReplacePresentMaster
  }

  function AssignRole(p: Port, isGm: bool, master: Vector, masterSteps: nat): Port {
    p.(masterPriority := master, role := RoleFor(p, isGm, master), updtInfo := UpdateFor(p, isGm, master, masterSteps))
  }

  function AssignRoles(ports: seq<Port>, g: Gm, gm: Vector, system: Vector, masterSteps: nat): (r: seq<Port>)
    ensures |r| == |ports|
  {
    seq(|ports|, i requires 0 <= i < |ports| =>
      AssignRole(ports[i], g == PathGm(i), MasterVector(gm, system, i), masterSteps))
  }

  function UpdtRoles(b: Bridge): Bridge {
    var paths := WithPaths(b.ports, b.gmPresent);
    var g := Best(b.system, paths, |paths|);
    var gm := Deref(g, b.system, b.system, paths);
    var steps := MasterSteps(g, paths);
    b.(lastGm := GmVector(b), gm := g, masterSteps := steps,
       ports := AssignRoles(paths, g, gm, b.system, steps),
       gmPresent := Priority1(gm.root) != 255,
       pathTrace := if g == SystemGm then [ClockOf(b.system.root)] else b.pathTrace,
       grandMaster := g == SystemGm,
       newMaster := b.newMaster || gm != GmVector(b))
  }

  /** The winner of the comparison: no candidate is better, the system vector wins a tie, and
      among equal paths the lowest port. */
  ghost predicate Wins(g: Gm, system: Vector, ports: seq<Port>, n: nat)
    requires n <= |ports|
  {
    var gm := Deref(g, system, system, ports);
    && (g == SystemGm || (g.PathGm? && g.port < n && Foreign(system, ports[g.port])))
    && AtMost(gm, system) && (gm == system ==> g == SystemGm)
    && (forall i :: 0 <= i < n && Foreign(system, ports[i]) ==>
          AtMost(gm, ports[i].gmPathPriority)
          && (gm == ports[i].gmPathPriority && g.PathGm? ==> g.port <= i))
  }

  lemma {:induction false} BestWins(system: Vector, ports: seq<Port>, n: nat)
    requires n <= |ports|
    ensures Wins(Best(system, ports, n), system, ports, n)
  {
    if n > 0 {
      BestWins(system, ports, n - 1);
    }
  }

  /** At most one vector wins in this sense. */
  lemma WinnerUnique(g: Gm, h: Gm, system: Vector, ports: seq<Port>, n: nat)
    requires n <= |ports| && Wins(g, system, ports, n) && Wins(h, system, ports, n)
    ensures g == h
  {
    var gv, hv := Deref(g, system, system, ports), Deref(h, system, system, ports);
    assert AtMost(gv, hv) && AtMost(hv, gv);
  }

  /** The role a port must have, from the information it holds. */
  ghost predicate RightRole(p: Port, isGm: bool) {
    match p.infoIs
    case InfoDisabled => p.role == RoleDisabled
    case InfoAged => p.role == Master && p.updtInfo
    case InfoMine => p.role == Master && (p.portPriority != p.masterPriority ==> p.updtInfo)
    case InfoReceived =>
      && (p.role == Slave <==> isGm)
      && (p.role == Master <==> !isGm && Less(p.masterPriority, p.portPriority))
      && (p.role == Passive <==> !isGm && !Less(p.masterPriority, p.portPriority))
      && (p.updtInfo <==> p.role == Master)
  }

  /** The selection without its bookkeeping: the winner and its vector. */
  function Winner(b: Bridge): Gm {
    var paths := WithPaths(b.ports, b.gmPresent);
    Best(b.system, paths, |paths|)
  }

  function WinnerVector(b: Bridge): Vector {
    Deref(Winner(b), b.system, b.system, WithPaths(b.ports, b.gmPresent))
  }

  lemma AssignRight(p: Port, isGm: bool, master: Vector, masterSteps: nat)
    ensures var q := AssignRole(p, isGm, master, masterSteps);
      && RightRole(q, isGm)
      && q == p.(masterPriority := master, role := q.role, updtInfo := q.updtInfo)
  {
  }

  /** What the selection does to one port. */
  lemma PortSelected(b: Bridge, i: nat)
    requires i < |b.ports|
    ensures |UpdtRoles(b).ports| == |b.ports|
    ensures UpdtRoles(b).gm == Winner(b)
    ensures UpdtRoles(b).ports[i] ==
      AssignRole(WithPath(b.ports[i], b.gmPresent), Winner(b) == PathGm(i), MasterVector(WinnerVector(b), b.system, i),
                 UpdtRoles(b).masterSteps)
  {
  }

  /** The information of a port that a computation of roles does not touch. */
  ghost predicate KeepsInfo(p: Port, r: Port) {
    && r.enabled == p.enabled && r.state == p.state && r.infoIs == p.infoIs
    && r.portPriority == p.portPriority && r.messagePriority == p.messagePriority && r.portSteps == p.portSteps
    && r.rcvdMsg == p.rcvdMsg && r.received == p.received && r.timers.announce == p.timers.announce
    && r.timers.announceLimit == p.timers.announceLimit && r.timers.syncLimit == p.timers.syncLimit
    && r.timers.sync <= p.timers.sync
  }

  lemma AssignKeeps(p: Port, isGm: bool, master: Vector, masterSteps: nat)
    ensures var r := AssignRole(p, isGm, master, masterSteps);
      KeepsInfo(p, r) && r.reselect == p.reselect && r.selected == p.selected
  {
  }

  lemma UpdtKeeps(b: Bridge, i: nat)
    requires i < |b.ports|
    ensures |UpdtRoles(b).ports| == |b.ports|
    ensures var p, r := b.ports[i], UpdtRoles(b).ports[i];
      KeepsInfo(p, r) && r.reselect == p.reselect && r.selected == p.selected
  {
    PortSelected(b, i);
    AssignKeeps(WithPath(b.ports[i], b.gmPresent), Winner(b) == PathGm(i), MasterVector(WinnerVector(b), b.system, i),
                UpdtRoles(b).masterSteps);
  }

  lemma WinsSamePaths(g: Gm, system: Vector, ports: seq<Port>, others: seq<Port>)
    requires |ports| == |others| && Wins(g, system, ports, |ports|)
    requires forall i :: 0 <= i < |ports| ==> others[i].gmPathPriority == ports[i].gmPathPriority
    ensures Wins(g, system, others, |others|)
    ensures Deref(g, system, system, others) == Deref(g, system, system, ports)
  {
    forall i | 0 <= i < |others| && Foreign(system, others[i])
      ensures Foreign(system, ports[i])
    {
    }
  }

  /** The selected grandmaster wins over the paths as they are kept in the ports, and it is
      what `gmPriority` points to. */
  lemma GmSelected(b: Bridge)
    ensures var r := UpdtRoles(b);
      && r.gm == Winner(b) && GmVector(r) == WinnerVector(b)
      && Wins(r.gm, b.system, r.ports, |r.ports|)
      && (r.newMaster <==> b.newMaster || GmVector(r) != GmVector(b))
  {
    var paths := WithPaths(b.ports, b.gmPresent);
    BestWins(b.system, paths, |paths|);
    var r := UpdtRoles(b);
    forall i | 0 <= i < |paths|
      ensures r.ports[i].gmPathPriority == paths[i].gmPathPriority
    {
      PortSelected(b, i);
      AssignRight(paths[i], Winner(b) == PathGm(i), MasterVector(WinnerVector(b), b.system, i), r.masterSteps);
    }
    WinsSamePaths(Winner(b), b.system, paths, r.ports);
  }

  /** What the selection establishes for every port: its path is its information one step
      further, its master vector is the grandmaster's as this bridge would announce it, and
      it has the role these two vectors call for. */
  lemma RolesSelected(b: Bridge, i: nat)
    requires i < |b.ports|
    ensures var r := UpdtRoles(b);
      && |r.ports| == |b.ports|
      && r.ports[i].gmPathPriority ==
           (if Usable(b.ports[i], b.gmPresent) then OneStepFurther(b.ports[i].portPriority) else NOTHING)
      && r.ports[i].portPriority == b.ports[i].portPriority && r.ports[i].infoIs == b.ports[i].infoIs
      && r.ports[i].masterPriority == MasterVector(GmVector(r), b.system, i)
      && RightRole(r.ports[i], r.gm == PathGm(i))
  {
    GmSelected(b);
    PortSelected(b, i);
    AssignRight(WithPath(b.ports[i], b.gmPresent), Winner(b) == PathGm(i), MasterVector(WinnerVector(b), b.system, i),
                UpdtRoles(b).masterSteps);
  }

  /** The paths in the raw counters: a port's information one step further unless its
      announces have stopped, or its syncs have while there is a grandmaster. Those that have
      stopped are counted anew when they cost the port its path. */
  lemma PathsExactly(b: Bridge, i: nat)
    requires i < |b.ports|
    ensures |UpdtRoles(b).ports| == |b.ports|
    ensures var p, r := b.ports[i], UpdtRoles(b).ports[i];
      var current := p.timers.announce < p.timers.announceLimit
                    && (!b.gmPresent || p.timers.sync < p.timers.syncLimit);
      && r.gmPathPriority == (if current then p.portPriority.(steps := (p.portPriority.steps + 1) % 65536) else NOTHING)
      && r.timers == (if !current && p.timers.sync >= p.timers.syncLimit then p.timers.(sync := 0) else p.timers)
  {
    PortSelected(b, i);
  }

  /** A path that has expired never wins. */
  lemma ExpiredLoses(b: Bridge, i: nat)
    requires i < |b.ports| && b.system.root < ROOTS
    requires var t := b.ports[i].timers;
      t.announce >= t.announceLimit || (b.gmPresent && t.sync >= t.syncLimit)
    ensures UpdtRoles(b).gm != PathGm(i)
  {
    PathsExactly(b, i);
    GmSelected(b);
  }

  /** The roles and vectors in raw fields: what the bridge would announce on the port, and when
      exactly it must take that over. */
  lemma PortExactly(b: Bridge, i: nat)
    requires i < |b.ports|
    ensures |UpdtRoles(b).ports| == |b.ports|
    ensures var p, r, gm, steps := b.ports[i], UpdtRoles(b).ports[i], GmVector(UpdtRoles(b)), UpdtRoles(b).masterSteps;
      && r.masterPriority == Vector(gm.root, gm.steps, b.system.source, (i + 1) % 256, (i + 1) % 256)
      && (r.role == RoleDisabled <==> p.infoIs == InfoDisabled)
      && (r.role == Slave <==> p.infoIs == InfoReceived && UpdtRoles(b).gm == PathGm(i))
      && (r.role == Passive <==>
            p.infoIs == InfoReceived && UpdtRoles(b).gm != PathGm(i) && !Less(r.masterPriority, p.portPriority))
      && (r.updtInfo <==>
            match p.infoIs
            case InfoDisabled => p.updtInfo
            case InfoAged => true
            case InfoMine => p.updtInfo || p.portSteps != steps || p.portPriority != r.masterPriority
            case InfoReceived => UpdtRoles(b).gm != PathGm(i) && Less(r.masterPriority, p.portPriority))
  {
    GmSelected(b);
    PortSelected(b, i);
  }

  /** What the selection records in the bridge: there is a grandmaster unless its priority1 is
      255, and the bridge is it exactly if its own vector won. */
  lemma BridgeExactly(b: Bridge)
    ensures var r := UpdtRoles(b);
      && r.system == b.system && r.selection == b.selection && r.lastGm == GmVector(b)
      && r.masterSteps ==
           (if r.gm.PathGm? && r.gm.port < |b.ports| then (b.ports[r.gm.port].messagePriority.steps + 1) % 65536 else 0)
      && (GmVector(r).root < ROOTS ==>
            (r.gmPresent <==> GmVector(r).root < 0xFF00_0000_0000_0000_0000_0000_0000))
      && (r.grandMaster <==> r.gm == SystemGm)
      && r.pathTrace == (if r.gm == SystemGm then [b.system.root % 0x1_0000_0000_0000_0000] else b.pathTrace)
      && (r.newMaster <==> b.newMaster || GmVector(r) != GmVector(b))
  {
    GmSelected(b);
    if GmVector(UpdtRoles(b)).root < ROOTS { Priority1Present(GmVector(UpdtRoles(b)).root); }
  }

  lemma Priority1Present(root: nat)
    requires root < ROOTS
    ensures Priority1(root) == 255 <==> 0xFF00_0000_0000_0000_0000_0000_0000 <= root
  {
  }

  /** No more than one port is the slave, it is the port of the winning path, and there is
      none when the bridge itself wins. */
  lemma OneSlave(b: Bridge, i: nat)
    requires i < |b.ports|
    ensures |UpdtRoles(b).ports| == |b.ports|
    ensures UpdtRoles(b).ports[i].role == Slave <==>
      UpdtRoles(b).gm == PathGm(i) && b.ports[i].infoIs == InfoReceived
  {
    RolesSelected(b, i);
  }

  // ----- PortRoleSelection

  /** `updtRoleDisabledTree`. */
  function DisableRoles(b: Bridge): Bridge {
    b.(ports := NoRoles(b.ports), lastGm := NOTHING, gm := LastGm, pathTrace := [ClockOf(b.system.root)])
  }

  function NoRoles(ports: seq<Port>): (r: seq<Port>)
    ensures |r| == |ports|
  {
    seq(|ports|, i requires 0 <= i < |ports| => ports[i].(role := RoleDisabled))
  }

  function SetReselect(ports: seq<Port>, flag: bool): (r: seq<Port>)
    ensures |r| == |ports|
  {
    seq(|ports|, i requires 0 <= i < |ports| => ports[i].(reselect := flag))
  }

  function SetSelected(ports: seq<Port>): (r: seq<Port>)
    ensures |r| == |ports|
  {
    seq(|ports|, i requires 0 <= i < |ports| => ports[i].(selected := true))
  }

  predicate AnyReselect(ports: seq<Port>) {
    exists i :: 0 <= i < |ports| && ports[i].reselect
  }

  /** One role selection: the requests are cleared, the roles computed, the ports released. */
  function SelectRoles(b: Bridge): Bridge {
    var r := UpdtRoles(b.(ports := SetReselect(b.ports, false)));
    r.(ports := SetSelected(r.ports))
  }

  /** `PortRoleSelection_StateMachine`: leaving INIT_BRIDGE, and selecting when any port asks. */
  function RunSelection(b: Bridge): Bridge {
    var r := if b.selection == InitBridge then DisableRoles(b).(selection := RoleSelection) else b;
    if AnyReselect(r.ports) then SelectRoles(r) else r
  }

  // ----- when a selection happens, and what its flags do

  lemma {:induction false} BestSamePaths(system: Vector, ports: seq<Port>, others: seq<Port>, n: nat)
    requires n <= |ports| == |others|
    requires forall k :: 0 <= k < |ports| ==> others[k].gmPathPriority == ports[k].gmPathPriority
    ensures Best(system, others, n) == Best(system, ports, n)
  {
    if n > 0 {
      BestSamePaths(system, ports, others, n - 1);
    }
  }

  lemma FlagsWinner(b: Bridge, c: Bridge)
    requires c == b.(ports := SetReselect(b.ports, false))
    ensures Winner(c) == Winner(b) && WinnerVector(c) == WinnerVector(b) && GmVector(c) == GmVector(b)
    ensures MasterSteps(Winner(c), WithPaths(c.ports, c.gmPresent)) ==
      MasterSteps(Winner(b), WithPaths(b.ports, b.gmPresent))
  {
    var paths := WithPaths(b.ports, b.gmPresent);
    BestSamePaths(b.system, paths, WithPaths(c.ports, b.gmPresent), |paths|);
  }

  lemma FlagsPort(p: Port, gmPresent: bool, isGm: bool, master: Vector, masterSteps: nat)
    ensures AssignRole(WithPath(p.(reselect := false), gmPresent), isGm, master, masterSteps) ==
      AssignRole(WithPath(p, gmPresent), isGm, master, masterSteps).(reselect := false)
  {
  }

  /** The flags of the ports play no part in the computation of roles. */
  lemma FlagsApart(b: Bridge, i: nat)
    requires i < |b.ports|
    ensures var r, u := UpdtRoles(b.(ports := SetReselect(b.ports, false))), UpdtRoles(b);
      && |r.ports| == |u.ports| == |b.ports| && r == u.(ports := r.ports)
      && r.ports[i] == u.ports[i].(reselect := false)
  {
    var c := b.(ports := SetReselect(b.ports, false));
    FlagsWinner(b, c);
    PortSelected(b, i);
    PortSelected(c, i);
    FlagsPort(b.ports[i], b.gmPresent, Winner(b) == PathGm(i), MasterVector(WinnerVector(b), b.system, i),
              UpdtRoles(b).masterSteps);
  }

  /** A bridge selects exactly when some port asks for it, which answers and releases all
      ports; a selection is the computation of roles, with these flags. */
  lemma SelectsExactly(b: Bridge, i: nat)
    requires b.selection == RoleSelection && i < |b.ports|
    ensures (forall k :: 0 <= k < |b.ports| ==> !b.ports[k].reselect) ==> RunSelection(b) == b
    ensures (exists k :: 0 <= k < |b.ports| && b.ports[k].reselect) ==>
      var r, u := RunSelection(b), UpdtRoles(b);
      && |r.ports| == |u.ports| == |b.ports| && r == u.(ports := r.ports)
      && r.ports[i] == u.ports[i].(reselect := false, selected := true)
  {
    FlagsApart(b, i);
  }

  /** Leaving INIT_BRIDGE disables all roles and points the grandmaster at the empty vector. */
  lemma InitDisables(b: Bridge)
    requires b.selection == InitBridge && forall k :: 0 <= k < |b.ports| ==> !b.ports[k].reselect
    ensures var r := RunSelection(b);
      && r.selection == RoleSelection && r.gm == LastGm && GmVector(r) == NOTHING
      && r.pathTrace == [b.system.root % 0x1_0000_0000_0000_0000] && |r.ports| == |b.ports|
      && forall i :: 0 <= i < |b.ports| ==> r.ports[i] == b.ports[i].(role := RoleDisabled)
  {
  }
}
