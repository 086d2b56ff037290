/**
 One bridge as the program keeps it: an array of port structures updated in place, a pointer
 to the grandmaster's vector, and the state machines that run to a fixpoint
 (ptp/gptpstatmch.c). Every method is proved to compute the corresponding function.
 */
module GptpBridge {
  import opened Priority
  import opened BestMaster
  import opened AnnounceInfo

  class GptpBridge {
    const ports: array<Port>
    var system: Vector
    var gm: Gm
    var lastGm: Vector
    var gmPresent: bool
    var masterSteps: nat
    var grandMaster: bool
    var newMaster: bool
    var pathTrace: seq<nat>
    var selection: Selection

    constructor (b: Bridge)
      ensures State() == b && fresh(ports)
    {
      ports := new Port[|b.ports|](i requires 0 <= i < |b.ports| => b.ports[i]);
      system, gm, lastGm, gmPresent, masterSteps := b.system, b.gm, b.lastGm, b.gmPresent, b.masterSteps;
      grandMaster, newMaster, pathTrace, selection := b.grandMaster, b.newMaster, b.pathTrace, b.selection;
      new;
      assert ports[..] == b.ports;
    }

    ghost function State(): Bridge
      reads this, ports
    {
      Bridge(system, gm, lastGm, gmPresent, masterSteps, grandMaster, newMaster, pathTrace, selection, ports[..])
    }

    /** `*ptp->gmPriority`. */
    method ReadGm() returns (v: Vector)
      ensures v == GmVector(State())
    {
      match gm
      case LastGm => v := lastGm;
      case SystemGm => v := system;
      case PathGm(i) =>
        if i < ports.Length { v := ports[i].gmPathPriority; } else { v := lastGm; }
    }

    // ----- updtRolesTree, loop by loop

    /** Computes the path vectors. */
    method ComputePaths()
      modifies ports
      ensures ports[..] == WithPaths(old(ports[..]), gmPresent)
    {
      ghost var before := ports[..];
      for i := 0 to ports.Length
        invariant forall k :: 0 <= k < i ==> ports[k] == WithPath(before[k], gmPresent)
        invariant forall k :: i <= k < ports.Length ==> ports[k] == before[k]
      {
        var p := ports[i];
        var syncTimeout := p.timers.sync >= p.timers.syncLimit;
        var announceTimeout := p.timers.announce >= p.timers.announceLimit;
        if !announceTimeout && (!gmPresent || !syncTimeout) {
          ports[i] := p.(gmPathPriority := p.portPriority.(steps := (p.portPriority.steps + 1) % 65536));
        } else if syncTimeout {
          ports[i] := p.(gmPathPriority := NOTHING, timers := p.timers.(sync := 0));
        } else {
          ports[i] := p.(gmPathPriority := NOTHING);
        }
      }
    }

    /** Lets `gmPriority` point at the best of the system vector and the foreign paths. */
    method ChooseGm()
      modifies this`gm, this`masterSteps
      ensures gm == Best(system, ports[..], ports.Length)
      ensures masterSteps == MasterSteps(gm, ports[..])
    {
      gm, masterSteps := SystemGm, 0;
      for i := 0 to ports.Length
        invariant gm == Best(system, ports[..], i)
        invariant masterSteps == MasterSteps(gm, ports[..])
      {
        if ClockOf(system.root) != ClockOf(ports[i].gmPathPriority.root) {
          var present := ReadGm();
          if Compare(present, ports[i].gmPathPriority) == ReplacePresentMaster {
            gm, masterSteps := PathGm(i), (ports[i].messagePriority.steps + 1) % 65536;
          }
        }
      }
    }

    /** Computes the master vectors and assigns the roles. */
    method ComputeRoles()
      requires gm != LastGm
      modifies ports
      ensures ports[..] == AssignRoles(old(ports[..]), gm, old(GmVector(State())), system, masterSteps)
    {
      ghost var before := ports[..];
      ghost var vector := GmVector(State());
      for i := 0 to ports.Length
        invariant forall k :: 0 <= k < i ==>
          ports[k] == AssignRole(before[k], gm == PathGm(k), MasterVector(vector, system, k), masterSteps)
        invariant forall k :: i <= k < ports.Length ==> ports[k] == before[k]
        invariant GmVector(State()) == vector
      {
        var present := ReadGm();
        ComputeRole(i, present);
        Unread(before, ports[..]);
      }
    }

    /** The role of one port under a grandmaster `present`. */
    method ComputeRole(i: nat, present: Vector)
      requires gm != LastGm && i < ports.Length
      modifies ports
      ensures ports[..] == old(ports[..])[i :=
        AssignRole(old(ports[i]), gm == PathGm(i), MasterVector(present, system, i), masterSteps)]
    {
      var p := ports[i];
      var master := present.(source := system.source, sourcePort := PortNumber(i), rxPort := PortNumber(i));
      var role, update := RoleDisabled, p.updtInfo;
      match p.infoIs {
        case InfoDisabled =>
        case InfoAged =>
          role, update := Master, true;
        case InfoMine =>
          role := Master;
          if p.portSteps != masterSteps || Compare(p.portPriority, master) != IsPresentMaster { update := true; }
        case InfoReceived =>
          if gm == PathGm(i) {
            role, update := Slave, false;
          } else if Compare(p.portPriority, master) == ReplacePresentMaster {
            role, update := Master, true;
          } else {
            role, update := Passive, false;
          }
      }
      ports[i] := p.(masterPriority := master, role := role, updtInfo := update);
    }

    /** Roles are no part of what the grandmaster is read from. */
    lemma Unread(before: seq<Port>, after: seq<Port>)
      requires |before| == |after|
      ensures (forall k :: 0 <= k < |before| ==> after[k].gmPathPriority == before[k].gmPathPriority) ==>
        Deref(gm, system, lastGm, after) == Deref(gm, system, lastGm, before)
    {
    }

    /** Records what the choice of grandmaster means for the bridge. */
    method PublishGm()
      modifies this`gmPresent, this`pathTrace, this`grandMaster, this`newMaster
      ensures State() == Publish(old(State()))
    {
      var present := ReadGm();
      gmPresent := Priority1(present.root) != 255;
      if gm == SystemGm {
        pathTrace := [ClockOf(system.root)];
        grandMaster := true;
      } else {
        grandMaster := false;
      }
      if present != lastGm {
        newMaster := true;
      }
    }

    /** `updtRolesTree`. */
    method UpdtRolesTree()
      modifies this, ports
      ensures State() == UpdtRoles(old(State()))
    {
      ghost var before := State();
      lastGm := ReadGm();
      ComputePaths();
      ChooseGm();
      ComputeRoles();
      PublishIsUpdt(before, State());
      PublishGm();
    }

    // ----- PortRoleSelection

    /** `updtRoleDisabledTree`. */
    method UpdtRoleDisabledTree()
      modifies this, ports
      ensures State() == DisableRoles(old(State()))
    {
      ghost var before := ports[..];
      for i := 0 to ports.Length
        modifies ports
        invariant forall k :: 0 <= k < i ==> ports[k] == before[k].(role := RoleDisabled)
        invariant forall k :: i <= k < ports.Length ==> ports[k] == before[k]
      {
        ports[i] := ports[i].(role := RoleDisabled);
      }
      assert ports[..] == NoRoles(before);
      lastGm, gm, pathTrace := NOTHING, LastGm, [ClockOf(system.root)];
    }

    /** `clearReselectTree`. */
    method ClearReselectTree()
      modifies ports
      ensures ports[..] == SetReselect(old(ports[..]), false)
    {
      ghost var before := ports[..];
      for i := 0 to ports.Length
        invariant forall k :: 0 <= k < i ==> ports[k] == before[k].(reselect := false)
        invariant forall k :: i <= k < ports.Length ==> ports[k] == before[k]
      {
        ports[i] := ports[i].(reselect := false);
      }
    }

    /** `setSelectedTree`. */
    method SetSelectedTree()
      modifies ports
      ensures ports[..] == SetSelected(old(ports[..]))
    {
      ghost var before := ports[..];
      for i := 0 to ports.Length
        invariant forall k :: 0 <= k < i ==> ports[k] == before[k].(selected := true)
        invariant forall k :: i <= k < ports.Length ==> ports[k] == before[k]
      {
        ports[i] := ports[i].(selected := true);
      }
    }

    method SomePortReselects() returns (some: bool)
      ensures some == AnyReselect(ports[..])
    {
      for i := 0 to ports.Length
        invariant forall k :: 0 <= k < i ==> !ports[k].reselect
      {
        if ports[i].reselect {
          assert ports[..][i].reselect;
          return true;
        }
      }
      return false;
    }

    /** `PortRoleSelection_StateMachine`: the loop runs until the state does not change. */
    method PortRoleSelection()
      modifies this, ports
      ensures State() == RunSelection(old(State()))
    {
      var moved := true;
      while moved
        invariant moved ==> RunSelection(State()) == RunSelection(old(State()))
        invariant !moved ==> State() == RunSelection(old(State()))
        decreases moved, selection == InitBridge
      {
        var prev := selection;
        match selection {
          case InitBridge =>
            UpdtRoleDisabledTree();
            selection := RoleSelection;
          case RoleSelection =>
            var some := SomePortReselects();
            if some {
              ghost var before := State();
              ClearReselectTree();
              assert State() == before.(ports := SetReselect(before.ports, false));
              UpdtRolesTree();
              SetSelectedTree();
              assert State() == SelectRoles(before);
            }
        }
        moved := prev != selection;
      }
    }

    // ----- PortAnnounceInformation

    /** `PortAnnounceReceive_StateMachine` on a received announce. */
    method ReceiveMessage(i: nat, a: Announce)
      requires i < ports.Length
      modifies this`pathTrace, ports
      ensures State() == ReceiveAnnounce(old(State()), i, a)
    {
      var p := ports[i];
      var ok := false;
      if p.enabled {
        if a.source == system.source || a.steps > 255 {
          ok := false;
        } else {
          ok := true;
          for k := 0 to |a.path|
            invariant ok <==> system.source !in a.path[..k]
          {
            if a.path[k] == system.source { ok := false; }
          }
          assert a.path[..|a.path|] == a.path;
          if ok && p.role == Slave { pathTrace := a.path; }
        }
      }
      ports[i] := p.(received := a, rcvdMsg := ok);
      assert ports[..] == old(ports[..])[i := p.(received := a, rcvdMsg := ok)];
    }

    /** `PortAnnounceInformation_StateMachine_SetState`. */
    method SetInfoState(i: nat, s: InfoState)
      requires i < ports.Length
      modifies ports
      ensures ports[..] == old(ports[..])[i := EnterInfo(old(ports[i]), i, masterSteps, s)]
    {
      var p := ports[i];
      match s {
        case Begin =>
          p := p.(state := s, rcvdMsg := false, timers := p.timers.(announce := 0), infoIs := InfoDisabled,
                  reselect := true, selected := false, portPriority := NOTHING);
        case Disabled =>
          p := p.(state := s, rcvdMsg := false, timers := p.timers.(announce := 0), infoIs := InfoDisabled,
                  reselect := true, selected := false, portPriority := NOTHING);
        case Aged =>
          p := p.(state := s, infoIs := InfoAged, reselect := true, selected := false);
        case Update =>
          p := p.(state := s, portPriority := p.masterPriority, portSteps := masterSteps, updtInfo := false,
                  infoIs := InfoMine);
        case Superior =>
          p := p.(state := s, portPriority := p.messagePriority, timers := p.timers.(announce := 0),
                  infoIs := InfoReceived, reselect := true, selected := false, rcvdMsg := false);
        case Repeated =>
          p := p.(state := s, timers := p.timers.(announce := 0), rcvdMsg := false);
        case Inferior =>
          p := p.(state := s, rcvdMsg := false);
        case Current =>
          p := p.(state := s);
        case Receive =>
          var m := MessageVector(p.received, i);
          p := p.(state := s, messagePriority := m, rcvdInfo := RcvInfo(p.portPriority, m));
      }
      ports[i] := p;
    }

    /** `PortAnnounceInformation_StateMachine`: the loop runs until the state does not change,
        which it must. */
    method PortAnnounceInformation(i: nat)
      requires i < ports.Length
      modifies ports
      ensures State() == RunPort(old(State()), i)
    {
      ghost var start := ports[i];
      var moved := true;
      while moved
        invariant forall k :: 0 <= k < ports.Length && k != i ==> ports[k] == old(ports[k])
        invariant moved ==> RunInfo(ports[i], i, masterSteps, gmPresent) == RunInfo(start, i, masterSteps, gmPresent)
        invariant !moved ==> ports[i] == RunInfo(start, i, masterSteps, gmPresent)
        decreases moved, InfoMeasure(ports[i])
      {
        ghost var before := ports[i];
        InfoPassDecreases(before, i, masterSteps, gmPresent);
        var next := ChooseInfo(ports[i]);
        moved := next != ports[i].state;
        if moved {
          SetInfoState(i, next);
          assert ports[i] == InfoPass(before, i, masterSteps, gmPresent);
        }
      }
      assert ports[..] == old(ports[..])[i := RunInfo(start, i, masterSteps, gmPresent)];
    }

    /** The transition the program's `switch` selects. */
    method ChooseInfo(p: Port) returns (s: InfoState)
      ensures s == NextInfo(p, gmPresent)
    {
      s := p.state;
      if !p.enabled { return Disabled; }
      match p.state {
        case Begin => s := Disabled;
        case Disabled => s := Aged;
        case Aged =>
          if p.selected && p.updtInfo { s := Update; }
        case Update => s := Current;
        case Superior => s := Current;
        case Repeated => s := Current;
        case Inferior => s := Current;
        case Current =>
          if p.selected && p.updtInfo {
            s := Update;
          } else if p.rcvdMsg && !p.updtInfo {
            s := Receive;
          } else {
            var syncTimeout := p.timers.sync >= p.timers.syncLimit;
            var announceTimeout := p.timers.announce >= p.timers.announceLimit;
            if p.infoIs == InfoReceived && (announceTimeout || (syncTimeout && gmPresent))
               && !p.updtInfo && !p.rcvdMsg {
              s := Aged;
            }
          }
        case Receive =>
          if p.rcvdInfo == SuperiorInfo { s := Superior; }
          else if p.rcvdInfo == RepeatedInfo { s := Repeated; }
          else { s := Inferior; }
      }
    }
  }

  /** The last part of `updtRolesTree`. */
  function Publish(b: Bridge): Bridge {
    var present := GmVector(b);
    b.(gmPresent := Priority1(present.root) != 255,
       pathTrace := if b.gm == SystemGm then [ClockOf(b.system.root)] else b.pathTrace,
       grandMaster := b.gm == SystemGm,
       newMaster := b.newMaster || present != b.lastGm)
  }

  lemma PublishIsUpdt(b: Bridge, c: Bridge)
    requires var paths := WithPaths(b.ports, b.gmPresent);
      c == b.(lastGm := GmVector(b), gm := Winner(b), masterSteps := MasterSteps(Winner(b), paths),
              ports := AssignRoles(paths, Winner(b), WinnerVector(b), b.system, MasterSteps(Winner(b), paths)))
    ensures Publish(c) == UpdtRoles(b)
  {
    GmSelected(b);
    assert c.ports == UpdtRoles(b).ports;
    assert GmVector(c) == GmVector(UpdtRoles(b));
  }
}
