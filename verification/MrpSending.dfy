/**
 What the Applicant and Registrar of one MRP attribute let the outside see (msrp/vtss_msrp.c):
 which message each step sends, when it asks for an opportunity to send, and which indications
 it gives; and what that means over runs, how often a declaration is sent and when it is
 withdrawn.
 */
module MrpSending {
  import opened MrpMachine

  // ----- the messages

  /** The events at which a state sends as for tx! and txLA!. With the compiled table these are
      other events, one further for VN. */
  predicate ActsAsTx(t: Table, s: Applicant, e: Event) {
    match t
    case ByName => e == Tx
    case ByPosition => e == if s == VN then TxLa else TxLaf
  }

  predicate ActsAsTxLa(t: Table, s: Applicant, e: Event) {
    match t
    case ByName => e == TxLa
    case ByPosition => e == if s == VN then TxLaf else Flush
  }

  /** What the entry of the table sends. */
  lemma EntrySends(s: Applicant, e: Event)
    ensures var entry := AppTable(s, e);
      (if entry.App? then entry.send else Nothing) ==
        if e == Tx then
          match s
          case LA => SendLv
          case VN | AN => SendNew
          case VP | AA | AP => SendJoin
          case LO => SendState
          case _ => Nothing
        else if e == TxLa then
          match s
          case VN | AN => SendNew
          case AA | QA | AP | QP => SendJoin
          case VP => SendState
          case _ => Nothing
        else Nothing
  {
  }

  /** The column that an event meets in the compiled table; LeaveTimer stands for none. */
  function ColumnOf(s: Applicant, e: Event): Event {
    if Column(s, e) == [] then LeaveTimer else Column(s, e)[0]
  }

  lemma ColumnActs(s: Applicant, e: Event)
    ensures ActsAsTx(ByPosition, s, e) <==> ColumnOf(s, e) == Tx
    ensures ActsAsTxLa(ByPosition, s, e) <==> ColumnOf(s, e) == TxLa
    ensures e == RJoinIn || e == RIn ==> ColumnOf(s, e) != Tx && ColumnOf(s, e) != TxLa
  {
  }

  lemma MeetsColumn(t: Table, s: Applicant, e: Event) returns (f: Event)
    ensures Lookup(t, s, e) == AppTable(s, f) || (Lookup(t, s, e) == NoApp && f == LeaveTimer)
    ensures ActsAsTx(t, s, e) <==> f == Tx
    ensures ActsAsTxLa(t, s, e) <==> f == TxLa
    ensures t == ByName ==> f == e
    ensures e == RJoinIn || e == RIn ==> f != Tx && f != TxLa
  {
    if t == ByName {
      f := e;
    } else {
      f := ColumnOf(s, e);
      ColumnActs(s, e);
    }
  }

  /** The exceptions never change what is sent. */
  lemma ExceptSends(c: Config, s: Applicant, registered: bool, e: Event, entry: AppEntry)
    requires (e == RJoinIn || e == RIn) && entry.App? ==> entry.send == Nothing
    ensures var r := Except(c, s, registered, e, entry);
      (if r.App? then r.send else Nothing) == if entry.App? then entry.send else Nothing
  {
  }

  lemma StepSends(c: Config, s: Applicant, registered: bool, entry: AppEntry, fits: bool)
    ensures AppStep(c, s, registered, entry, fits).1.sent ==
      if !c.participant || entry.NoApp? then [] else MessageFor(entry.send, registered || !c.normalRegistration)
  {
  }

  /** A step sends at most one message, and which: a Leave exactly when a participant in LA
      transmits; a New exactly from VN and AN; a Join from the declaring states that still owe
      one, and from all of them but VP with a LeaveAll; the mere registration state from LO, and
      from VP with a LeaveAll. */
  lemma SendsExactly(t: Table, c: Config, m: Machine, e: Event, fits: bool)
    ensures var (r, effect) := Step(t, c, m, e, fits);
      var tx, txLa := ActsAsTx(t, m.app, e), ActsAsTxLa(t, m.app, e);
      effect.sent ==
        if !c.participant then []
        else if tx && m.app == LA then [ALv]
        else if (tx || txLa) && m.app in {VN, AN} then [ANew]
        else if (tx && m.app in {VP, AA, AP}) || (txLa && m.app in {AA, QA, AP, QP}) then
          [if r.reg == IN || !c.normalRegistration then AJoinIn else AJoinMt]
        else if (tx && m.app == LO) || (txLa && m.app == VP) then
          [if r.reg == IN || !c.normalRegistration then AIn else AMt]
        else []
  {
    var f := MeetsColumn(t, m.app, e);
    EntrySends(m.app, f);
    var reg := RegStep(c, m.reg, e).0;
    ExceptSends(c, m.app, reg == IN, e, Lookup(t, m.app, e));
    StepSends(c, m.app, reg == IN, Except(c, m.app, reg == IN, e, Lookup(t, m.app, e)), fits);
  }

  /** A message that does not fit leaves the state, to be sent at the opportunity it asks for. */
  lemma FullExactly(t: Table, c: Config, m: Machine, e: Event, fits: bool)
    ensures var (r, effect) := Step(t, c, m, e, fits);
      && (effect.full <==> effect.sent != [] && !fits)
      && (effect.full ==> r.app == m.app && effect.request)
  {
  }

  lemma EntryRequests(s: Applicant, e: Event)
    ensures AppTable(s, e).App? ==>
      (AppTable(s, e).request <==>
        (AppTable(s, e).state in {VN, AN, AA, LA, VP, AP, LO} && AppTable(s, e).state != s)
        || (e == TxLaf && s in {VN, VP}))
  {
  }

  lemma StepRequests(c: Config, s: Applicant, registered: bool, e: Event, entry: AppEntry, fits: bool)
    requires entry.App? ==> (entry.request <==>
      (entry.state in {VN, AN, AA, LA, VP, AP, LO} && entry.state != s) || (e == TxLaf && s in {VN, VP}))
    requires e == TxLaf && s in {VN, VP} ==> entry.App?
    ensures var (r, effect) := AppStep(c, s, registered, Except(c, s, registered, e, entry), fits);
      effect.request <==>
        c.participant && (effect.full || (r in {VN, AN, AA, LA, VP, AP, LO} && r != s) || (e == TxLaf && s in {VN, VP}))
  {
  }

  /** An opportunity is requested by a participant exactly on entry to VN, AN, AA, LA, VP, AP or
      LO, and when it stays in VN or VP because the PDU was full (Note 6 of Table 10.3). */
  lemma RequestsExactly(c: Config, m: Machine, e: Event, fits: bool)
    ensures var (r, effect) := Step(ByName, c, m, e, fits);
      effect.request <==>
        c.participant && (effect.full || (r.app in {VN, AN, AA, LA, VP, AP, LO} && r.app != m.app)
                          || (e == TxLaf && m.app in {VN, VP}))
  {
    EntryRequests(m.app, e);
    var reg := RegStep(c, m.reg, e).0;
    StepRequests(c, m.app, reg == IN, e, AppTable(m.app, e), fits);
  }

  // ----- the states

  /** What a state says about the declaration: observers and leavers do not declare; passive
      members have declared nothing yet, active ones have, new ones declare it as new. */
  datatype Part = Observer | Passive | Active | NewOne | Leaver

  function PartOf(s: Applicant): Part {
    match s
    case VO | AO | QO | LO => Observer
    case VP | AP | QP => Passive
    case AA | QA => Active
    case VN | AN => NewOne
    case LA => Leaver
  }

  /** And how many messages about it should still be seen on the wire. */
  function Owed(s: Applicant): nat {
    match s
    case VO | VP | VN | LO => 2
    case AO | AP | AA | AN | LA => 1
    case QO | QP | QA => 0
  }

  /** The applicant table in these terms, for the local requests. */
  lemma RequestsMove(s: Applicant)
    ensures AppTable(s, New).App? && AppTable(s, Join).App? && AppTable(s, Lv).App?
    ensures AppTable(s, New).state == if s == AN then AN else VN
    ensures var r := AppTable(s, Join).state;
      match PartOf(s)
      case Observer => PartOf(r) == Passive && Owed(r) == Owed(s)
      case Leaver => r == AA
      case _ => r == s
    ensures var r := AppTable(s, Lv).state;
      match PartOf(s)
      case Passive => PartOf(r) == Observer && Owed(r) == Owed(s) && r != LO
      case Active => r == LA
      case NewOne => r == LA
      case _ => r == s
  {
  }

  /** A received JoinIn counts as one message seen, unless the declaration is new or being
      withdrawn; a received In does so only for an active one, and a New never. */
  lemma JoinInsMove(s: Applicant)
    ensures AppTable(s, RNew).App? && AppTable(s, RNew).state == s
    ensures AppTable(s, RJoinIn).App?
    ensures var r := AppTable(s, RJoinIn).state;
      if PartOf(s) == NewOne || s == LA || s == LO then r == s
      else PartOf(r) == PartOf(s) && Owed(r) == (if Owed(s) == 0 then 0 else Owed(s) - 1)
    ensures AppTable(s, RIn).App? && AppTable(s, RIn).state == if s == AA then QA else s
  {
  }

  /** Messages of a peer that is not registered make a quiet state owe one again; so does the
      periodic event, for members. */
  lemma EmptiesMove(s: Applicant)
    ensures AppTable(s, RJoinMt).App? && AppTable(s, RMt).App? && AppTable(s, Periodic).App?
    ensures AppTable(s, RJoinMt).state ==
      if s == QA then AA else if s == QP then AP else if s == QO then AO else if s == LO then VO else s
    ensures AppTable(s, RMt).state ==
      if s == AO then LO
      else if s == QA then AA else if s == QP then AP else if s == QO then AO else if s == LO then VO else s
    ensures AppTable(s, Periodic).state == if s == QA then AA else if s == QP then AP else s
  {
  }

  /** Leaves make everybody owe two again. */
  lemma LeavesMove(s: Applicant, e: Event)
    requires e in {RLv, RLa, Redeclare}
    ensures AppTable(s, e).App? && AppTable(s, e).state ==
      match PartOf(s)
      case Observer => LO
      case Passive => VP
      case Active => VP
      case NewOne => VN
      case Leaver => LA
  {
  }

  /** A transmission: a message sent is one owed less, and its sender is active from then on. */
  lemma TxMoves(s: Applicant)
    ensures AppTable(s, Tx).App?
    ensures AppTable(s, Tx).state ==
      match s
      case VP => AA
      case AA => QA
      case AP => QA
      case VN => AN
      case AN => QA
      case LA => VO
      case LO => VO
      case _ => s
  {
  }

  /** With a LeaveAll of its own a member owes what it owes after its message, and everybody else
      asks again; without room everybody owes two. Other events are not for the applicant. */
  lemma LeaveAllsMove(s: Applicant)
    ensures AppTable(s, TxLa).App? && AppTable(s, TxLaf).App?
    ensures AppTable(s, TxLa).state ==
      match PartOf(s)
      case Observer => LO
      case Leaver => LO
      case NewOne => if s == VN then AN else QA
      case _ => if s == VP then AA else QA
    ensures AppTable(s, TxLaf).state ==
      match PartOf(s)
      case Observer => LO
      case Leaver => LO
      case NewOne => VN
      case _ => VP
  {
  }

  lemma OthersIgnored(s: Applicant, e: Event)
    requires e in {Flush, PeriodicTimer, PeriodicEnabled, PeriodicDisabled, LeaveTimer, LeaveAllTimer}
    ensures AppTable(s, e) == NoApp
  {
  }

  /** The exceptions: on a point-to-point link observers and passive members that owe two do not
      count a JoinIn, on any other an active one does not count an In; and a new declaration
      that is not registered is joined once more. Without participation the state moves all the
      same. */
  lemma StepMoves(c: Config, m: Machine, e: Event, fits: bool)
    ensures var (r, effect) := Step(ByName, c, m, e, fits);
      r.app ==
        if effect.full then m.app
        else if c.pointToPoint && e == RJoinIn && m.app in {VO, VP} then m.app
        else if !c.pointToPoint && e == RIn && m.app == AA then m.app
        else if e == Tx && m.app == AN && r.reg != IN then AA
        else if AppTable(m.app, e).App? then AppTable(m.app, e).state
        else m.app
  {
  }

  // ----- the registrar

  lemma RegStepExactly(c: Config, reg: Registrar, e: Event)
    ensures var (next, indication) := RegStep(c, reg, e);
      if c.direction == Declaring then next == reg && indication == Silent
      else
        && (e == RNew ==> next == IN && indication == NewInd)
        && (e == RJoinIn || e == RJoinMt ==>
              next == IN && indication == if reg == MT then JoinInd else Silent)
        && (e in {RLv, RLa, TxLa, Redeclare} ==>
              next == (if reg == IN then LV else reg) && indication == Silent)
        && (e == Flush ==>
              next == MT && indication == if reg == IN || reg == MT then Silent else LeaveInd)
        && (e == LeaveTimer ==>
              && (reg == LV ==> next == L3) && (reg == L3 ==> next == L2) && (reg == L2 ==> next == L1)
              && (reg == IN ==> next == IN) && (reg == L1 || reg == MT ==> next == MT)
              && indication == if reg == L1 then LeaveInd else Silent)
        && (e !in {RNew, RJoinIn, RJoinMt, RLv, RLa, TxLa, Redeclare, Flush, LeaveTimer} ==>
              next == reg && indication == Silent)
  {
  }

  lemma StepRegisters(t: Table, c: Config, m: Machine, e: Event, fits: bool)
    ensures var (r, effect) := Step(t, c, m, e, fits);
      (r.reg, effect.indication) == RegStep(c, m.reg, e)
  {
  }

  /** Every step of the registrar: where it goes and what it indicates. A registrar that only
      declares ignores everything. */
  lemma RegistersExactly(t: Table, c: Config, m: Machine, e: Event, fits: bool)
    ensures var (r, effect) := Step(t, c, m, e, fits);
      if c.direction == Declaring then r.reg == m.reg && effect.indication == Silent
      else
        && (e == RNew ==> r.reg == IN && effect.indication == NewInd)
        && (e == RJoinIn || e == RJoinMt ==>
              r.reg == IN && effect.indication == if m.reg == MT then JoinInd else Silent)
        && (e in {RLv, RLa, TxLa, Redeclare} ==>
              r.reg == (if m.reg == IN then LV else m.reg) && effect.indication == Silent)
        && (e == Flush ==>
              r.reg == MT && effect.indication == if m.reg == IN || m.reg == MT then Silent else LeaveInd)
        && (e == LeaveTimer ==>
              && (m.reg == LV ==> r.reg == L3) && (m.reg == L3 ==> r.reg == L2) && (m.reg == L2 ==> r.reg == L1)
              && (m.reg == IN ==> r.reg == IN) && (m.reg == L1 || m.reg == MT ==> r.reg == MT)
              && effect.indication == if m.reg == L1 then LeaveInd else Silent)
        && (e !in {RNew, RJoinIn, RJoinMt, RLv, RLa, TxLa, Redeclare, Flush, LeaveTimer} ==>
              r.reg == m.reg && effect.indication == Silent)
  {
    RegStepExactly(c, m.reg, e);
    StepRegisters(t, c, m, e, fits);
  }

  // ----- runs

  /** The message of the last step of a run. */
  function LastSent(t: Table, c: Config, m: Machine, inputs: seq<Input>): seq<AttrEvent>
    requires inputs != []
  {
    var last := inputs[|inputs| - 1];
    Step(t, c, Run(t, c, m, inputs[..|inputs| - 1]), last.event, last.fits).1.sent
  }

  /** The events that take a withdrawal back or replace it: a new request, or a LeaveAll. */
  predicate Interferes(t: Table, e: Event) {
    e == New || e == Join || match t
      case ByName => e == Tx || e == TxLa || e == TxLaf
      case ByPosition => e == TxLaf || e == Flush || e == Redeclare
  }

  lemma LeavingStays(t: Table, c: Config, m: Machine, e: Event, fits: bool)
    requires m.app == LA && !Interferes(t, e)
    ensures Step(t, c, m, e, fits).0.app == LA
  {
    var entry := Lookup(t, LA, e);
    assert entry.App? ==> entry.state == LA;
  }

  lemma {:induction false} LeavingWaits(t: Table, c: Config, m: Machine, inputs: seq<Input>)
    requires m.app == LA && forall k :: 0 <= k < |inputs| ==> !Interferes(t, inputs[k].event)
    ensures Run(t, c, m, inputs).app == LA
    decreases |inputs|
  {
    if inputs != [] {
      var before, last := inputs[..|inputs| - 1], inputs[|inputs| - 1];
      LeavingWaits(t, c, m, before);
      LeavingStays(t, c, Run(t, c, m, before), last.event, last.fits);
    }
  }

  /** A Leave request, and the transmission after it. */
  lemma LeaveStarts(t: Table, c: Config, m: Machine, fits: bool)
    requires m.app in {AN, AA, QA} + (if t == ByName then {VN} else {})
    ensures Step(t, c, m, Lv, fits).0.app == LA
  {
  }

  lemma LeaveSent(t: Table, c: Config, m: Machine, e: Event, fits: bool)
    requires c.participant && m.app == LA && ActsAsTx(t, LA, e)
    ensures Step(t, c, m, e, fits).1.sent == [ALv]
    ensures Step(t, c, m, e, fits).0.app == if fits then VO else LA
  {
  }

  /** A declaration that was sent, or was about to be, and is withdrawn is followed by a Leave at
      the next transmission, whatever comes in between but a new request or a LeaveAll. If the
      Leave does not fit, it is still due. */
  lemma LeaveFollows(t: Table, c: Config, m: Machine, fits: bool, inputs: seq<Input>, tx: Input)
    requires c.participant && m.app in {AN, AA, QA} + (if t == ByName then {VN} else {})
    requires forall k :: 0 <= k < |inputs| ==> !Interferes(t, inputs[k].event)
    requires ActsAsTx(t, LA, tx.event)
    ensures var start := Step(t, c, m, Lv, fits).0;
      && start.app == LA
      && LastSent(t, c, start, inputs + [tx]) == [ALv]
      && Run(t, c, start, inputs + [tx]).app == if tx.fits then VO else LA
  {
    var start := Step(t, c, m, Lv, fits).0;
    LeaveStarts(t, c, m, fits);
    LeavingWaits(t, c, start, inputs);
    assert (inputs + [tx])[..|inputs|] == inputs;
    LeaveSent(t, c, Run(t, c, start, inputs), tx.event, tx.fits);
  }

  /** The messages of a whole run. */
  function SentBy(t: Table, c: Config, m: Machine, inputs: seq<Input>): seq<AttrEvent> {
    if inputs == [] then [] else SentBy(t, c, m, inputs[..|inputs| - 1]) + LastSent(t, c, m, inputs)
  }

  /** A run of transmissions with room. */
  ghost predicate OnlyTx(inputs: seq<Input>) {
    forall k :: 0 <= k < |inputs| ==> inputs[k] == Input(Tx, true)
  }

  /** One transmission with room, by name. */
  lemma TxStep(c: Config, m: Machine)
    requires c.participant && m.app in {VP, VN, AA, AN, QA}
    ensures var (r, effect) := Step(ByName, c, m, Tx, true);
      var join := if m.reg == IN || !c.normalRegistration then AJoinIn else AJoinMt;
      && r.reg == m.reg
      && (m.app == VP ==> r.app == AA && effect.sent == [join])
      && (m.app == AA ==> r.app == QA && effect.sent == [join])
      && (m.app == VN ==> r.app == AN && effect.sent == [ANew])
      && (m.app == AN ==> r.app == (if m.reg == IN then QA else AA) && effect.sent == [ANew])
      && (m.app == QA ==> r.app == QA && effect.sent == [])
  {
  }

  /** A declaration that nobody answers is sent exactly twice: a join as two Joins, a new one as
      two News, and as one more Join if the attribute is not registered by then. After that the
      applicant is quiet. */
  lemma {:induction false} SentTwice(c: Config, m: Machine, inputs: seq<Input>)
    requires c.participant && (m.app == VP || m.app == VN) && OnlyTx(inputs)
    ensures var join := if m.reg == IN || !c.normalRegistration then AJoinIn else AJoinMt;
      var all := if m.app == VP then [join, join] else if m.reg == IN then [ANew, ANew] else [ANew, ANew, join];
      SentBy(ByName, c, m, inputs) == if |inputs| <= |all| then all[..|inputs|] else all
    ensures var r := Run(ByName, c, m, inputs);
      && r.reg == m.reg
      && r.app ==
           match |inputs|
           case 0 => m.app
           case 1 => if m.app == VP then AA else AN
           case 2 => if m.app == VN && m.reg != IN then AA else QA
           case _ => QA
    decreases |inputs|
  {
    if inputs != [] {
      var before := inputs[..|inputs| - 1];
      SentTwice(c, m, before);
      TxStep(c, Run(ByName, c, m, before));
    }
  }
}
