/**
 The Applicant and Registrar state machines of one MRP attribute, IEEE 802.1ak-2007 Tables
 10.3 and 10.4, as `mad_attr_event` drives them (msrp/vtss_msrp.c).
 */
module MrpMachine {
  datatype Applicant = VO | VP | VN | AN | AA | QA | LA | AO | QO | AP | QP | LO

  datatype Registrar = IN | LV | L3 | L2 | L1 | MT

  datatype Event =
    | New | Join | Lv
    | RNew | RJoinIn | RIn | RJoinMt | RMt | RLv | RLa
    | Tx | TxLa | TxLaf
    | Flush | Redeclare | Periodic
    | PeriodicTimer | PeriodicEnabled | PeriodicDisabled
    | LeaveTimer | LeaveAllTimer

  /** What an applicant transition sends. */
  datatype Send = Nothing | SendNew | SendJoin | SendLv | SendState

  /** What a registrar transition tells the application. */
  datatype Indication = Silent | NewInd | JoinInd | LeaveInd

  datatype AppEntry = NoApp | App(state: Applicant, send: Send, request: bool)

  datatype RegEntry = NoReg | Reg(state: Registrar, indication: Indication)

  /** `mrp_applicant_state_table`, by event name. */
  function AppTable(s: Applicant, e: Event): AppEntry {
    match s
    case VO => (
      match e
      case New => App(VN, Nothing, true)
      case Join => App(VP, Nothing, true)
      case RJoinIn => App(AO, Nothing, false)
      case RLv | RLa | Redeclare | TxLa | TxLaf => App(LO, Nothing, true)
      case Lv | RNew | RIn | RJoinMt | RMt | Periodic | Tx => App(VO, Nothing, false)
      case _ => NoApp)
    case VP => (
      match e
      case New => App(VN, Nothing, true)
      case Lv => App(VO, Nothing, false)
      case RJoinIn => App(AP, Nothing, true)
      case Tx => App(AA, SendJoin, true)
      case TxLa => App(AA, SendState, true)
      case TxLaf => App(VP, Nothing, true)
      case Join | RNew | RIn | RJoinMt | RMt | RLv | RLa | Redeclare | Periodic => App(VP, Nothing, false)
      case _ => NoApp)
    case VN => (
      match e
      case Lv => App(LA, Nothing, true)
      case Tx | TxLa => App(AN, SendNew, true)
      case TxLaf => App(VN, Nothing, true)
      case New | Join | RNew | RJoinIn | RIn | RJoinMt | RMt | RLv | RLa | Redeclare | Periodic => App(VN, Nothing,
        false)
      case _ => NoApp)
    case AN => (
      match e
      case Lv => App(LA, Nothing, true)
      case RLv | RLa | Redeclare | TxLaf => App(VN, Nothing, true)
      case Tx | TxLa => App(QA, SendNew, false)
      case New | Join | RNew | RJoinIn | RIn | RJoinMt | RMt | Periodic => App(AN, Nothing, false)
      case _ => NoApp)
    case AA => (
      match e
      case New => App(VN, Nothing, true)
      case Lv => App(LA, Nothing, true)
      case RJoinIn | RIn => App(QA, Nothing, false)
      case RLv | RLa | Redeclare | TxLaf => App(VP, Nothing, true)
      case Tx | TxLa => App(QA, SendJoin, false)
      case Join | RNew | RJoinMt | RMt | Periodic => App(AA, Nothing, false)
      case _ => NoApp)
    case QA => (
      match e
      case New => App(VN, Nothing, true)
      case Lv => App(LA, Nothing, true)
      case RJoinMt | RMt | Periodic => App(AA, Nothing, true)
      case RLv | RLa | Redeclare | TxLaf => App(VP, Nothing, true)
      case TxLa => App(QA, SendJoin, false)
      case Join | RNew | RJoinIn | RIn | Tx => App(QA, Nothing, false)
      case _ => NoApp)
    case LA => (
      match e
      case New => App(VN, Nothing, true)
      case Join => App(AA, Nothing, true)
      case Tx => App(VO, SendLv, false)
      case TxLa | TxLaf => App(LO, Nothing, true)
      case Lv | RNew | RJoinIn | RIn | RJoinMt | RMt | RLv | RLa | Redeclare | Periodic => App(LA, Nothing, false)
      case _ => NoApp)
    case AO => (
      match e
      case New => App(VN, Nothing, true)
      case Join => App(AP, Nothing, true)
      case RJoinIn => App(QO, Nothing, false)
      case RMt | RLv | RLa | Redeclare | TxLa | TxLaf => App(LO, Nothing, true)
      case Lv | RNew | RIn | RJoinMt | Periodic | Tx => App(AO, Nothing, false)
      case _ => NoApp)
    case QO => (
      match e
      case New => App(VN, Nothing, true)
      case Join => App(QP, Nothing, false)
      case RJoinMt | RMt => App(AO, Nothing, false)
      case RLv | RLa | Redeclare | TxLa | TxLaf => App(LO, Nothing, true)
      case Lv | RNew | RJoinIn | RIn | Periodic | Tx => App(QO, Nothing, false)
      case _ => NoApp)
    case AP => (
      match e
      case New => App(VN, Nothing, true)
      case Lv => App(AO, Nothing, false)
      case RJoinIn => App(QP, Nothing, false)
      case RLv | RLa | Redeclare | TxLaf => App(VP, Nothing, true)
      case Tx | TxLa => App(QA, SendJoin, false)
      case Join | RNew | RIn | RJoinMt | RMt | Periodic => App(AP, Nothing, false)
      case _ => NoApp)
    case QP => (
      match e
      case New => App(VN, Nothing, true)
      case Lv => App(QO, Nothing, false)
      case RJoinMt | RMt | Periodic => App(AP, Nothing, true)
      case RLv | RLa | Redeclare | TxLaf => App(VP, Nothing, true)
      case TxLa => App(QA, SendJoin, false)
      case Join | RNew | RJoinIn | RIn | Tx => App(QP, Nothing, false)
      case _ => NoApp)
    case LO => (
      match e
      case New => App(VN, Nothing, true)
      case Join => App(VP, Nothing, true)
      case RJoinMt | RMt => App(VO, Nothing, false)
      case Tx => App(VO, SendState, false)
      case Lv | RNew | RJoinIn | RIn | RLv | RLa | Redeclare | Periodic | TxLa | TxLaf => App(LO, Nothing, false)
      case _ => NoApp)
  }

  /** Which of the two tables the source holds is used: the assignments by event name, or the
      initializers that are compiled, whose columns are in the order of the standard and so
      meet the wrong events; the VN row lacks its Join column besides. */
  datatype Table = ByName | ByPosition

  /** The column of the standard that an event meets in the initializers, if any. */
  function Column(s: Applicant, e: Event): seq<Event> {
    match e
    case New => [New]
    case Join => [if s == VN then Lv else Join]
    case Lv => [if s == VN then RNew else Lv]
    case RNew => [if s == VN then RJoinIn else RNew]
    case RJoinIn => [if s == VN then RIn else RJoinIn]
    case RIn => [if s == VN then RJoinMt else RIn]
    case RJoinMt => [if s == VN then RMt else RJoinMt]
    case RMt => [if s == VN then RLv else RMt]
    case RLv => [if s == VN then RLa else RLv]
    case RLa => [if s == VN then Redeclare else RLa]
    case Tx => [if s == VN then Periodic else Redeclare]
    case TxLa => [if s == VN then Tx else Periodic]
    case TxLaf => [if s == VN then TxLa else Tx]
    case Flush => [if s == VN then TxLaf else TxLa]
    case Redeclare => if s == VN then [] else [TxLaf]
    case _ => []
  }

  /** The events in the order of their enumeration, and the columns in the order of the
      standard. */
  const ENUMERATION: seq<Event> := [
    New, Join, Lv, RNew, RJoinIn, RIn, RJoinMt, RMt, RLv, RLa, Tx, TxLa, TxLaf, Flush, Redeclare, Periodic,
    PeriodicTimer, PeriodicEnabled, PeriodicDisabled, LeaveTimer, LeaveAllTimer]

  const STANDARD: seq<Event> := [
    New, Join, Lv, RNew, RJoinIn, RIn, RJoinMt, RMt, RLv, RLa, Redeclare, Periodic, Tx, TxLa, TxLaf]

  /** The k-th event meets the k-th column, if the row has as many; the VN row lacks one. */
  lemma ColumnsMeet(s: Applicant, k: nat)
    requires k < |ENUMERATION|
    ensures var row := if s == VN then [New] + STANDARD[2..] else STANDARD;
      Column(s, ENUMERATION[k]) == if k < |row| then [row[k]] else []
  {
    if s == VN {
      var row := [New] + STANDARD[2..];
      assert |row| == 14 && (1 <= k < 14 ==> row[k] == STANDARD[k + 1]);
      ShortRowMeets(k);
    } else {
      FullRowMeets(s, k);
    }
  }

  lemma FullRowMeets(s: Applicant, k: nat)
    requires k < |ENUMERATION| && s != VN
    ensures Column(s, ENUMERATION[k]) == if k < 15 then [STANDARD[k]] else []
  {
  }

  lemma ShortRowMeets(k: nat)
    requires k < |ENUMERATION|
    ensures Column(VN, ENUMERATION[k]) == if k == 0 then [New] else if k < 14 then [STANDARD[k + 1]] else []
  {
  }

  function Lookup(t: Table, s: Applicant, e: Event): AppEntry {
    match t
    case ByName => AppTable(s, e)
    case ByPosition => if Column(s, e) == [] then NoApp else AppTable(s, Column(s, e)[0])
  }

  /** `mrp_registrar_state_table`, by event name, without its timer actions. */
  function RegTable(s: Registrar, e: Event): RegEntry {
    match e
    case RNew => Reg(IN, NewInd)
    case RJoinIn | RJoinMt => Reg(IN, if s == MT then JoinInd else Silent)
    case RLv | RLa | TxLa | Redeclare => Reg(if s == IN then LV else s, Silent)
    case Flush => Reg(MT, if s == IN || s == MT then Silent else LeaveInd)
    case LeaveTimer => (
      match s
      case IN => Reg(IN, Silent)
      case LV => Reg(L3, Silent)
      case L3 => Reg(L2, Silent)
      case L2 => Reg(L1, Silent)
      case L1 => Reg(MT, LeaveInd)
      case MT => Reg(MT, Silent))
    case _ => NoReg
  }

  datatype Direction = Registering | Declaring

  /** The administrative settings of an attribute and its port. */
  datatype Config = Config(direction: Direction, participant: bool, normalRegistration: bool, pointToPoint: bool)

  datatype Machine = Machine(app: Applicant, reg: Registrar)

  datatype AttrEvent = ANew | AJoinIn | AIn | AJoinMt | AMt | ALv

  datatype Effect = Effect(indication: Indication, sent: seq<AttrEvent>, request: bool, full: bool)

  /** The registrar half of `mad_attr_event`. */
  function RegStep(c: Config, s: Registrar, e: Event): (Registrar, Indication) {
    if c.direction == Declaring then (s, Silent)
    else match RegTable(s, e)
      case NoReg => (s, Silent)
      case Reg(r, i) => (r, i)
  }

  /** The exceptions of Notes 3, 5 and 8 of Table 10.3 to an entry of the table. */
  function Except(c: Config, s: Applicant, registered: bool, e: Event, entry: AppEntry): AppEntry {
    if (s == VO || s == VP) && e == RJoinIn && c.pointToPoint then NoApp
    else if s == AA && e == RIn && !c.pointToPoint then NoApp
    else if s == AN && e == Tx && !registered && entry.App? then App(AA, entry.send, true)
    else entry
  }

  /** The message a transition sends; In and JoinIn rather than Empty and JoinEmpty when the
      attribute is registered, or its registration is fixed or forbidden. */
  function MessageFor(send: Send, registered: bool): seq<AttrEvent> {
    match send
    case Nothing => []
    case SendNew => [ANew]
    case SendJoin => [if registered then AJoinIn else AJoinMt]
    case SendLv => [ALv]
    case SendState => [if registered then AIn else AMt]
  }

  /** The applicant half: a message that does not fit leaves the state, to be sent later. */
  function AppStep(c: Config, s: Applicant, registered: bool, entry: AppEntry, fits: bool): (Applicant, Effect) {
    match entry
    case NoApp => (s, Effect(Silent, [], false, false))
    case App(next, send, request) =>
      var message := MessageFor(send, registered || !c.normalRegistration);
      if !c.participant then (next, Effect(Silent, [], false, false))
      else if message != [] && !fits then (s, Effect(Silent, message, true, true))
      else (next, Effect(Silent, message, request, false))
  }

  /** `mad_attr_event`; `fits` says whether the encoder takes the message. */
  function Step(t: Table, c: Config, m: Machine, e: Event, fits: bool): (Machine, Effect) {
    var (reg, ind) := RegStep(c, m.reg, e);
    var (app, effect) := AppStep(c, m.app, reg == IN, Except(c, m.app, reg == IN, e, Lookup(t, m.app, e)), fits);
    (Machine(app, reg), effect.(indication := ind))
  }

  /** One attribute as the program keeps it. */
  class MadMachine {
    const table: Table
    const config: Config
    var app: Applicant
    var reg: Registrar

    constructor (t: Table, c: Config)
      ensures table == t && config == c && app == VO && reg == MT
    {
      table, config, app, reg := t, c, VO, MT;
    }

    function State(): Machine
      reads this
    {
      Machine(app, reg)
    }

    /** The registrar is updated before the applicant looks at it. */
    method AttrEvent(e: Event, fits: bool) returns (effect: Effect)
      modifies this
      ensures (State(), effect) == Step(table, config, old(State()), e, fits)
    {
      var indication := Silent;
      if config.direction != Declaring {
        var entry := RegTable(reg, e);
        if entry.Reg? {
          indication := entry.indication;
          reg := entry.state;
        }
      }
      effect := Apply(e, Lookup(table, app, e), fits);
      effect := effect.(indication := indication);
    }

    /** The applicant, with the entry of its table. */
    method Apply(e: Event, entry: AppEntry, fits: bool) returns (effect: Effect)
      modifies this`app
      ensures (app, effect) == AppStep(config, old(app), reg == IN, Except(config, old(app), reg == IN, e, entry), fits)
    {
      effect := Effect(Silent, [], false, false);
      if entry.NoApp? { return; }
      var registered := reg == IN;
      var next, request := entry.state, entry.request;
      match app {
        case VO =>
          if e == RJoinIn && config.pointToPoint { return; }
        case VP =>
          if e == RJoinIn && config.pointToPoint { return; }
        case AA =>
          if e == RIn && !config.pointToPoint { return; }
        case AN =>
          if e == Tx && !registered { next, request := AA, true; }
        case _ =>
      }
      if config.participant {
        var message := MessageFor(entry.send, registered || !config.normalRegistration);
        if message != [] && !fits {
          effect := Effect(Silent, message, true, true);
          return;
        }
        effect := Effect(Silent, message, request, false);
      }
      app := next;
    }
  }

  // ----- runs

  /** An event and whether the encoder has room when it comes. */
  datatype Input = Input(event: Event, fits: bool)

  function Run(t: Table, c: Config, m: Machine, inputs: seq<Input>): Machine {
    if inputs == [] then m
    else
      var last := inputs[|inputs| - 1];
      Step(t, c, Run(t, c, m, inputs[..|inputs| - 1]), last.event, last.fits).0
  }

  predicate Declares(s: Applicant) {
    s in {VP, VN, AN, AA, QA, AP, QP}
  }

  /** Whether the last local request asks for the declaration. */
  predicate Requested(inputs: seq<Input>) {
    if inputs == [] then false
    else match inputs[|inputs| - 1].event
      case New => true
      case Join => true
      case Lv => false
      case _ => Requested(inputs[..|inputs| - 1])
  }

  /** An entry of the table turns a declaration on for New and Join, off for Lv, and is
      neutral otherwise. */
  lemma TableDeclares(s: Applicant, e: Event)
    ensures var entry := AppTable(s, e);
      entry.App? ==>
        (Declares(entry.state) <==> if e == New || e == Join then true else if e == Lv then false else Declares(s))
    ensures e == New || e == Join || e == Lv ==> AppTable(s, e).App? && AppTable(s, e).send == Nothing
  {
  }

  lemma EntryDeclares(c: Config, s: Applicant, registered: bool, e: Event, entry: AppEntry, fits: bool)
    requires entry.App? ==>
      (Declares(entry.state) <==> if e == New || e == Join then true else if e == Lv then false else Declares(s))
    requires e == New || e == Join || e == Lv ==> entry.App? && entry.send == Nothing
    ensures Declares(AppStep(c, s, registered, Except(c, s, registered, e, entry), fits).0) <==>
      if e == New || e == Join then true else if e == Lv then false else Declares(s)
  {
  }

  /** What a step must do to the declaration. */
  ghost predicate Honours(t: Table, c: Config, m: Machine, e: Event, fits: bool) {
    Declares(Step(t, c, m, e, fits).0.app) <==>
      if e == New || e == Join then true else if e == Lv then false else Declares(m.app)
  }

  lemma StepDeclares(c: Config, m: Machine, e: Event, fits: bool)
    ensures Honours(ByName, c, m, e, fits)
  {
    TableDeclares(m.app, e);
    EntryDeclares(c, m.app, RegStep(c, m.reg, e).0 == IN, e, AppTable(m.app, e), fits);
  }

  /** The applicant declares the attribute exactly when the last local request was New or
      Join: whatever was received, whether or not messages fit, on any kind of port. */
  lemma {:induction false} DeclaresAsRequested(c: Config, reg: Registrar, inputs: seq<Input>)
    ensures Declares(Run(ByName, c, Machine(VO, reg), inputs).app) <==> Requested(inputs)
    decreases |inputs|
  {
    if inputs != [] {
      var last := inputs[|inputs| - 1];
      DeclaresAsRequested(c, reg, inputs[..|inputs| - 1]);
      StepDeclares(c, Run(ByName, c, Machine(VO, reg), inputs[..|inputs| - 1]), last.event, last.fits);
    }
  }

  /** With the compiled table a step honours the requests exactly unless a Join or Lv comes
      in VN: the one withdraws the declaration, the other leaves it in place. */
  lemma CompiledDeclares(c: Config, m: Machine, e: Event, fits: bool)
    ensures Honours(ByPosition, c, m, e, fits) <==> !(m.app == VN && (e == Join || e == Lv))
  {
    if m.app == VN && (e == Join || e == Lv) {
      CompiledMisses(c, m, e, fits);
    } else {
      CompiledHonours(c, m, e, fits);
    }
  }

  lemma CompiledMisses(c: Config, m: Machine, e: Event, fits: bool)
    requires m.app == VN && (e == Join || e == Lv)
    ensures !Honours(ByPosition, c, m, e, fits)
  {
    assert Lookup(ByPosition, VN, e) == App(if e == Join then LA else VN, Nothing, e == Join);
  }

  lemma CompiledHonours(c: Config, m: Machine, e: Event, fits: bool)
    requires !(m.app == VN && (e == Join || e == Lv))
    ensures Honours(ByPosition, c, m, e, fits)
  {
    CompiledEntry(m.app, e);
    EntryDeclares(c, m.app, RegStep(c, m.reg, e).0 == IN, e, Lookup(ByPosition, m.app, e), fits);
  }

  lemma CompiledEntry(s: Applicant, e: Event)
    requires !(s == VN && (e == Join || e == Lv))
    ensures var entry := Lookup(ByPosition, s, e);
      && (entry.App? ==>
           (Declares(entry.state) <==> if e == New || e == Join then true else if e == Lv then false else Declares(s)))
      && (e == New || e == Join || e == Lv ==> entry.App? && entry.send == Nothing)
  {
    if Column(s, e) != [] {
      TableDeclares(s, Column(s, e)[0]);
      ColumnNeutral(s, e);
    }
  }

  lemma ColumnNeutral(s: Applicant, e: Event)
    requires Column(s, e) != [] && !(s == VN && (e == Join || e == Lv))
    ensures var f := Column(s, e)[0];
      (e == New || e == Join || e == Lv ==> f == e)
        && (e != New && e != Join && e != Lv ==> f != New && f != Join && f != Lv)
  {
  }

  /** New and then Join: requested, but no longer declared. */
  lemma CompiledWithdraws(c: Config)
    ensures var inputs := [Input(New, true), Input(Join, true)];
      Requested(inputs) && !Declares(Run(ByPosition, c, Machine(VO, MT), inputs).app)
  {
    var inputs := [Input(New, true), Input(Join, true)];
    assert inputs[..1] == [Input(New, true)] && [Input(New, true)][..0] == [];
    var m := Step(ByPosition, c, Machine(VO, MT), New, true).0;
    assert Run(ByPosition, c, Machine(VO, MT), inputs[..1]) == m;
    StepDeclares(c, Machine(VO, MT), New, true);
    assert m.app == VN;
    CompiledDeclares(c, m, Join, true);
  }

  /** The registrar of a run, which its applicant does not influence. */
  function RegRun(c: Config, s: Registrar, inputs: seq<Input>): Registrar {
    if inputs == [] then s
    else RegStep(c, RegRun(c, s, inputs[..|inputs| - 1]), inputs[|inputs| - 1].event).0
  }

  lemma StepReg(t: Table, c: Config, m: Machine, e: Event, fits: bool)
    ensures Step(t, c, m, e, fits).0.reg == RegStep(c, m.reg, e).0
    ensures Step(t, c, m, e, fits).1.indication == RegStep(c, m.reg, e).1
  {
  }

  lemma {:induction false} RunReg(t: Table, c: Config, m: Machine, inputs: seq<Input>)
    ensures Run(t, c, m, inputs).reg == RegRun(c, m.reg, inputs)
    decreases |inputs|
  {
    if inputs != [] {
      var last := inputs[|inputs| - 1];
      RunReg(t, c, m, inputs[..|inputs| - 1]);
      StepReg(t, c, Run(t, c, m, inputs[..|inputs| - 1]), last.event, last.fits);
    }
  }

  /** The indications of a run: registrations announced (on leaving MT), withdrawn, and lost
      without a word (a FLUSH that finds the registrar in IN). */
  datatype Count = Count(announced: nat, withdrawn: nat, lost: nat)

  function Tally(c: Config, s: Registrar, inputs: seq<Input>): Count {
    if inputs == [] then Count(0, 0, 0)
    else
      var before, e := inputs[..|inputs| - 1], inputs[|inputs| - 1].event;
      var r := RegRun(c, s, before);
      var ind := RegStep(c, r, e).1;
      var t := Tally(c, s, before);
      Count(t.announced + (if r == MT && (ind == NewInd || ind == JoinInd) then 1 else 0),
            t.withdrawn + (if ind == LeaveInd then 1 else 0),
            t.lost + (if r == IN && e == Flush then 1 else 0))
  }

  lemma RegStepBalance(c: Config, s: Registrar, e: Event)
    requires c.direction == Registering
    ensures var (r, i) := RegStep(c, s, e);
      && (s == MT && r != MT <==> s == MT && (i == NewInd || i == JoinInd))
      && (s != MT && r == MT <==> i == LeaveInd || (s == IN && e == Flush))
      && !(i == LeaveInd && s == IN)
      && (i == JoinInd ==> s == MT && r == IN) && (i == NewInd ==> r == IN)
  {
  }

  /** In every run the announcements are matched by the withdrawals, the FLUSHes that came in
      IN and the present registration. They balance, that is, exactly if no FLUSH came in IN. */
  lemma {:induction false} IndicationsBalance(t: Table, c: Config, m: Machine, inputs: seq<Input>)
    requires c.direction == Registering && m.reg == MT
    ensures var n := Tally(c, MT, inputs);
      n.announced == n.withdrawn + n.lost + if Run(t, c, m, inputs).reg == MT then 0 else 1
    decreases |inputs|
  {
    RunReg(t, c, m, inputs);
    if inputs != [] {
      var before := inputs[..|inputs| - 1];
      IndicationsBalance(t, c, m, before);
      RunReg(t, c, m, before);
      RegStepBalance(c, RegRun(c, MT, before), inputs[|inputs| - 1].event);
    }
  }

  /** A run without FLUSH: nothing is lost. */
  lemma {:induction false} NothingLost(c: Config, s: Registrar, inputs: seq<Input>)
    requires forall k :: 0 <= k < |inputs| ==> inputs[k].event != Flush
    ensures Tally(c, s, inputs).lost == 0
    decreases |inputs|
  {
    if inputs != [] {
      NothingLost(c, s, inputs[..|inputs| - 1]);
    }
  }

  function Timers(inputs: seq<Input>): nat {
    if inputs == [] then 0
    else Timers(inputs[..|inputs| - 1]) + if inputs[|inputs| - 1].event == LeaveTimer then 1 else 0
  }

  /** Where a leaving registration stands after `k` leave timers. */
  function LeavingAfter(k: nat): Registrar {
    if k == 0 then LV else if k == 1 then L3 else if k == 2 then L2 else if k == 3 then L1 else MT
  }

  predicate Renews(e: Event) {
    e in {RNew, RJoinIn, RJoinMt}
  }

  predicate Leaves(e: Event) {
    e in {RLv, RLa, TxLa, Redeclare}
  }

  /** After a leave in IN, unless it is renewed or flushed, the registration ends at exactly
      the fourth leave timer, which is when the only Leave is indicated; other leave events in
      between neither delay nor hasten it. */
  lemma EndsAtFourthTimer(t: Table, c: Config, m: Machine, leave: Input, start: Machine, inputs: seq<Input>)
    requires c.direction == Registering && m.reg == IN && Leaves(leave.event)
    requires start == Step(t, c, m, leave.event, leave.fits).0
    requires forall k :: 0 <= k < |inputs| ==> !Renews(inputs[k].event) && inputs[k].event != Flush
    ensures Run(t, c, start, inputs).reg == LeavingAfter(Timers(inputs))
    ensures Tally(c, start.reg, inputs).withdrawn == if Timers(inputs) >= 4 then 1 else 0
  {
    LeaveStarts(t, c, m, leave);
    LeavingRun(t, c, start, inputs);
  }

  lemma LeaveStarts(t: Table, c: Config, m: Machine, leave: Input)
    requires c.direction == Registering && m.reg == IN && Leaves(leave.event)
    ensures Step(t, c, m, leave.event, leave.fits).0.reg == LV
  {
    StepReg(t, c, m, leave.event, leave.fits);
  }

  lemma LeavingRun(t: Table, c: Config, start: Machine, inputs: seq<Input>)
    requires c.direction == Registering && start.reg == LV
    requires forall k :: 0 <= k < |inputs| ==> !Renews(inputs[k].event) && inputs[k].event != Flush
    ensures Run(t, c, start, inputs).reg == LeavingAfter(Timers(inputs))
    ensures Tally(c, start.reg, inputs).withdrawn == if Timers(inputs) >= 4 then 1 else 0
  {
    RunReg(t, c, start, inputs);
    LeavingTimers(c, inputs);
  }

  lemma {:induction false} LeavingTimers(c: Config, inputs: seq<Input>)
    requires c.direction == Registering
    requires forall k :: 0 <= k < |inputs| ==> !Renews(inputs[k].event) && inputs[k].event != Flush
    ensures RegRun(c, LV, inputs) == LeavingAfter(Timers(inputs))
    ensures Tally(c, LV, inputs).withdrawn == if Timers(inputs) >= 4 then 1 else 0
    decreases |inputs|
  {
    if inputs != [] {
      LeavingTimers(c, inputs[..|inputs| - 1]);
    }
  }

  /** A renewal before that brings the registration back, with no indication but New. */
  lemma RenewalReturns(t: Table, c: Config, m: Machine, e: Event, fits: bool)
    requires c.direction == Registering && m.reg != MT && Renews(e)
    ensures Step(t, c, m, e, fits).0.reg == IN
    ensures Step(t, c, m, e, fits).1.indication == if e == RNew then NewInd else Silent
  {
    StepReg(t, c, m, e, fits);
  }
}
