/**
 The MDPdelayReq state machine of IEEE 802.1AS section 11.2.15 (ptp/gptpstatmch.c): the
 control of the peer delay exchange of one port, and with it the port's `asCapable`.
 */
module PdelayMachine {
  import opened Words
  import opened PdelayMeasurement

  datatype State =
    | NotEnabled | InitialSend | Reset | SendReq | WaitResp | WaitFollowUp | WaitTimer

  /** The port's configuration. `interval` is PDELAY_REQ_INTERVAL_TICKS. */
  datatype Config = Config(interval: nat, allowedLostResponses: nat, propDelayThresh: Word)

  /** PDELAY_REQ_INTERVAL_TICKS: one tick shifted by the logarithm of the interval; every
      negative logarithm gives zero ticks. */
  function IntervalTicks(logInterval: int): nat {
    if logInterval >= 0 then Pow2(logInterval) else 1 / Pow2(0 - logInterval)
  }

  lemma TicksExactly(logInterval: int)
    ensures logInterval < 0 ==> IntervalTicks(logInterval) == 0
    ensures logInterval == 0 ==> IntervalTicks(logInterval) == 1
    ensures logInterval > 0 ==> IntervalTicks(logInterval) == 2 * IntervalTicks(logInterval - 1)
  {
    if logInterval < 0 {
      var d := Pow2(0 - logInterval);
      assert d == 2 * Pow2(0 - logInterval - 1);
      DivUnique(1, d, 0, 1);
    }
  }

  /** What the machine learns from the frames held by the port before it starts to loop. */
  datatype Frames = Frames(respPortMatches: bool, respSeqMatches: bool, respFromOther: bool,
                           followUpPortMatches: bool, followUpSeqMatches: bool)

  /** What the measurements leave in the port when an exchange completes. */
  datatype Outcome = Outcome(initReceived: bool, ratio: Word, ratioValid: bool, propDelay: Word)

  /** The variables of the machine. `resets` counts the entries to RESET since the last
      completed or initial exchange; the program does not have it. */
  datatype Control = Control(
    state: State, portEnabled: bool, pttPortEnabled: bool, asCapable: bool,
    timer: nat, rcvdResp: bool, rcvdFollowUp: bool, txStamped: bool, sequenceId: nat,
    lostResponses: nat, isMeasuringDelay: bool, responses: nat, multipleResponses: nat,
    measured: Outcome, resets: nat)
  {
    predicate Enabled() {
      portEnabled && pttPortEnabled
    }
  }

  /** A 16-bit sequence number is incremented. */
  function NextId(id: nat): nat {
    (id + 1) % 65536
  }

  /** Entry to INITIAL_SEND_PDELAY_REQ. */
  function OnInitialSend(c: Control): Control {
    c.(state := InitialSend, measured := Outcome(false, ONE, false, c.measured.propDelay),
       rcvdResp := false, rcvdFollowUp := false, sequenceId := NextId(0), txStamped := true, timer := 0,
       lostResponses := 0, isMeasuringDelay := false, asCapable := false,
       responses := 0, multipleResponses := 0, resets := 0)
  }

  /** Entry to RESET. */
  function OnReset(c: Control, cfg: Config): Control {
    var again := c.lostResponses <= cfg.allowedLostResponses;
    c.(state := Reset, measured := c.measured.(initReceived := false), rcvdResp := false, rcvdFollowUp := false,
       resets := c.resets + 1, lostResponses := if again then c.lostResponses + 1 else c.lostResponses,
       isMeasuringDelay := again && c.isMeasuringDelay, asCapable := again && c.asCapable)
  }

  /** Entry to SEND_PDELAY_REQ. */
  function OnSendReq(c: Control): Control {
    c.(state := SendReq, sequenceId := NextId(NextId(c.sequenceId)), txStamped := true, timer := 0, responses := 0,
       multipleResponses := Multiple(c.responses, c.multipleResponses),
       portEnabled := c.portEnabled && !Disables(c.responses, c.multipleResponses))
  }

  /** How many requests in a row were answered more than once. */
  function Multiple(responses: nat, multiple: nat): nat {
    if responses == 0 then multiple else if responses == 1 then 0 else multiple + 1
  }

  /** The third of them disables the port. */
  predicate Disables(responses: nat, multiple: nat) {
    responses > 1 && Multiple(responses, multiple) >= 3
  }

  /** Entry to WAITING_FOR_PDELAY_INTERVAL_TIMER, which completes an exchange. */
  function OnComplete(c: Control, cfg: Config, f: Frames, m: Outcome): Control {
    c.(state := WaitTimer, rcvdFollowUp := false, measured := m, lostResponses := 0, isMeasuringDelay := true,
       asCapable := m.propDelay <= cfg.propDelayThresh && f.respFromOther && m.ratioValid,
       resets := 0)
  }

  /** `MDPdelayReq_StateMachine_SetState`: the entry actions. */
  function SetState(c: Control, s: State, cfg: Config, f: Frames, m: Outcome): (r: Control)
    ensures r.state == s
  {
    match s
    case NotEnabled => c.(state := s, asCapable := false, multipleResponses := 0)
    case InitialSend => OnInitialSend(c)
    case Reset => OnReset(c, cfg)
    case SendReq => OnSendReq(c)
    case WaitResp => c.(state := s, txStamped := false)
    case WaitFollowUp => c.(state := s, rcvdResp := false)
    case WaitTimer => OnComplete(c, cfg, f, m)
  }

  /** The state that one pass of the loop selects, if it selects one. */
  function NextState(c: Control, cfg: Config, f: Frames): State {
    var expired := c.timer >= cfg.interval;
    match c.state
    case NotEnabled => if c.Enabled() then InitialSend else NotEnabled
    case Reset => SendReq
    case InitialSend => if c.txStamped then WaitResp else if expired then Reset else c.state
    case SendReq => if c.txStamped then WaitResp else if expired then Reset else c.state
    case WaitResp =>
      if expired || (c.rcvdResp && !(f.respPortMatches && f.respSeqMatches)) then Reset
      else if c.rcvdResp then WaitFollowUp
      else c.state
    case WaitFollowUp =>
      if expired || (c.rcvdResp && f.respSeqMatches) then Reset
      else if c.rcvdFollowUp && f.followUpSeqMatches && f.followUpPortMatches then WaitTimer
      else c.state
    case WaitTimer => if expired then SendReq else c.state
  }

  /** One pass of the run-to-fixpoint loop. */
  function Pass(c: Control, cfg: Config, f: Frames, m: Outcome): Control {
    var s := NextState(c, cfg, f);
    if s != c.state then SetState(c, s, cfg, f, m)
    else if c.state == NotEnabled then c.(timer := 0)
    else c
  }

  /** How far the loop can still go: an expired timer is reset on the way to the next request,
      a held response is consumed, and what remains is a walk along the exchange. */
  function Measure(c: Control, cfg: Config): nat {
    var expired := c.timer >= cfg.interval;
    (if expired then 100 else 0) + (if c.rcvdResp then 10 else 0) +
    match c.state
    case NotEnabled => 6
    case InitialSend => if expired then 3 else 4
    case SendReq => if expired then 3 else 4
    case WaitResp => if expired then 2 else 3
    case WaitFollowUp => 2
    case Reset => if expired then 1 else 5
    case WaitTimer => 1
  }

  lemma PassDecreases(c: Control, cfg: Config, f: Frames, m: Outcome)
    requires 1 <= cfg.interval && NextState(c, cfg, f) != c.state
    ensures Measure(Pass(c, cfg, f, m), cfg) < Measure(c, cfg)
  {
  }

  /** The loop: passes until the state does not change. */
  function Loop(c: Control, cfg: Config, f: Frames, m: Outcome): Control
    requires 1 <= cfg.interval
    decreases Measure(c, cfg)
  {
    PassDecreasesIfMoved(c, cfg, f, m);
    if NextState(c, cfg, f) == c.state then Pass(c, cfg, f, m)
    else Loop(Pass(c, cfg, f, m), cfg, f, m)
  }

  lemma PassDecreasesIfMoved(c: Control, cfg: Config, f: Frames, m: Outcome)
    requires 1 <= cfg.interval
    ensures NextState(c, cfg, f) != c.state ==> Measure(Pass(c, cfg, f, m), cfg) < Measure(c, cfg)
  {
    if NextState(c, cfg, f) != c.state { PassDecreases(c, cfg, f, m); }
  }

  /** `MDPdelayReq_StateMachine` in P2P mode. */
  function Run(c: Control, cfg: Config, f: Frames, m: Outcome): Control
    requires 1 <= cfg.interval
  {
    if !c.Enabled() then
      if c.state != NotEnabled then SetState(c, NotEnabled, cfg, f, m) else c
    else Loop(c, cfg, f, m)
  }

  // ----- termination, exactly

  /** The control after `n` passes of the loop. */
  function Passes(c: Control, cfg: Config, f: Frames, m: Outcome, n: nat): Control {
    if n == 0 then c else Pass(Passes(c, cfg, f, m, n - 1), cfg, f, m)
  }

  /** Some pass leaves the state as it is, which ends the loop. */
  ghost predicate Terminates(c: Control, cfg: Config, f: Frames, m: Outcome) {
    exists n: nat :: Passes(c, cfg, f, m, n + 1).state == Passes(c, cfg, f, m, n).state
  }

  lemma {:induction false} PassesShift(c: Control, cfg: Config, f: Frames, m: Outcome, n: nat)
    ensures Passes(Pass(c, cfg, f, m), cfg, f, m, n) == Passes(c, cfg, f, m, n + 1)
  {
    if n > 0 {
      PassesShift(c, cfg, f, m, n - 1);
    }
  }

  lemma {:induction false} TerminatesWithTicks(c: Control, cfg: Config, f: Frames, m: Outcome)
    requires 1 <= cfg.interval
    ensures Terminates(c, cfg, f, m)
    decreases Measure(c, cfg)
  {
    assert Passes(c, cfg, f, m, 0) == c && Passes(c, cfg, f, m, 0 + 1) == Pass(c, cfg, f, m);
    if NextState(c, cfg, f) != c.state {
      PassDecreases(c, cfg, f, m);
      var d := Pass(c, cfg, f, m);
      TerminatesWithTicks(d, cfg, f, m);
      var n: nat :| Passes(d, cfg, f, m, n + 1).state == Passes(d, cfg, f, m, n).state;
      PassesShift(c, cfg, f, m, n);
      PassesShift(c, cfg, f, m, n + 1);
      assert Passes(c, cfg, f, m, (n + 1) + 1).state == Passes(c, cfg, f, m, n + 1).state;
    }
  }

  /** With a request interval of zero ticks every state of an enabled port moves on. */
  lemma {:induction false} NeverSettles(c: Control, cfg: Config, f: Frames, m: Outcome, n: nat)
    requires cfg.interval == 0 && (c.state == NotEnabled ==> c.Enabled())
    ensures Passes(c, cfg, f, m, n).state == NotEnabled ==> n == 0
    ensures Passes(c, cfg, f, m, n + 1).state != Passes(c, cfg, f, m, n).state
  {
    if n > 0 {
      NeverSettles(c, cfg, f, m, n - 1);
    }
  }

  /** The loop of an enabled port ends if and only if the request interval is at least one
      tick, that is, if and only if its logarithm is not negative. */
  lemma TerminatesIff(c: Control, logInterval: int, allowed: nat, thresh: Word, f: Frames, m: Outcome)
    requires c.Enabled()
    ensures Terminates(c, Config(IntervalTicks(logInterval), allowed, thresh), f, m) <==> 0 <= logInterval
  {
    var cfg := Config(IntervalTicks(logInterval), allowed, thresh);
    if 0 <= logInterval {
      TerminatesWithTicks(c, cfg, f, m);
    } else {
      TicksExactly(logInterval);
      forall n: nat ensures Passes(c, cfg, f, m, n + 1).state != Passes(c, cfg, f, m, n).state {
        NeverSettles(c, cfg, f, m, n);
      }
    }
  }

  // ----- asCapable over whole runs

  /** A capable port has an enabled machine, a valid rate ratio, a delay within the threshold,
      and has not been reset more than `allowedLostResponses + 1` times in a row. */
  ghost predicate Sound(c: Control, cfg: Config) {
    c.asCapable ==>
      && c.state != NotEnabled
      && c.measured.ratioValid && c.measured.propDelay <= cfg.propDelayThresh
      && c.resets == c.lostResponses <= cfg.allowedLostResponses + 1
  }

  lemma SetStateSound(c: Control, s: State, cfg: Config, f: Frames, m: Outcome)
    requires Sound(c, cfg) || s == InitialSend || s == NotEnabled
    ensures Sound(SetState(c, s, cfg, f, m), cfg)
  {
    if s == Reset {
      ResetSound(c, cfg, f, m);
    }
  }

  lemma ResetSound(c: Control, cfg: Config, f: Frames, m: Outcome)
    requires Sound(c, cfg)
    ensures Sound(SetState(c, Reset, cfg, f, m), cfg)
  {
  }

  lemma {:induction false} LoopSound(c: Control, cfg: Config, f: Frames, m: Outcome)
    requires 1 <= cfg.interval && (Sound(c, cfg) || (c.state == NotEnabled && c.Enabled()))
    ensures Sound(Loop(c, cfg, f, m), cfg)
    decreases Measure(c, cfg)
  {
    var s := NextState(c, cfg, f);
    if s != c.state {
      PassDecreases(c, cfg, f, m);
      SetStateSound(c, s, cfg, f, m);
      LoopSound(Pass(c, cfg, f, m), cfg, f, m);
    }
  }

  /** What happens to the machine from outside. */
  datatype Event =
    | Tick(f: Frames, m: Outcome)
    | Response(f: Frames, m: Outcome)
    | FollowUp(f: Frames, m: Outcome)
    | Administer(portEnabled: bool, pttPortEnabled: bool)

  function Apply(c: Control, cfg: Config, e: Event): Control
    requires 1 <= cfg.interval
  {
    match e
    case Tick(f, m) => Run(c.(timer := Wrap(c.timer + 1)), cfg, f, m)
    case Response(f, m) => Run(c.(rcvdResp := true, responses := c.responses + 1), cfg, f, m)
    case FollowUp(f, m) => Run(c.(rcvdFollowUp := true), cfg, f, m)
    case Administer(p, q) => c.(portEnabled := p, pttPortEnabled := q)
  }

  function ApplyAll(c: Control, cfg: Config, es: seq<Event>): Control
    requires 1 <= cfg.interval
  {
    if es == [] then c else Apply(ApplyAll(c, cfg, es[..|es| - 1]), cfg, es[|es| - 1])
  }

  lemma RunSound(c: Control, cfg: Config, f: Frames, m: Outcome)
    requires 1 <= cfg.interval && (Sound(c, cfg) || c.state == NotEnabled)
    ensures Sound(c, cfg) || c.Enabled() ==> Sound(Run(c, cfg, f, m), cfg)
    ensures !c.Enabled() && c.state == NotEnabled ==> Run(c, cfg, f, m) == c
  {
    if c.Enabled() {
      LoopSound(c, cfg, f, m);
    }
  }

  lemma ApplySound(c: Control, cfg: Config, e: Event)
    requires 1 <= cfg.interval && (Sound(c, cfg) || c.state == NotEnabled)
    ensures Sound(Apply(c, cfg, e), cfg) || Apply(c, cfg, e).state == NotEnabled
    ensures Sound(c, cfg) ==> Sound(Apply(c, cfg, e), cfg)
  {
    match e
    case Tick(f, m) => RunSound(c.(timer := Wrap(c.timer + 1)), cfg, f, m);
    case Response(f, m) => RunSound(c.(rcvdResp := true, responses := c.responses + 1), cfg, f, m);
    case FollowUp(f, m) => RunSound(c.(rcvdFollowUp := true), cfg, f, m);
    case Administer(_, _) =>
  }

  /** From power-up, where the machine is not enabled but the port is already marked capable,
      over any sequence of events: outside NOT_ENABLED the port is capable only soundly. */
  lemma {:induction false} AsCapableSound(c: Control, cfg: Config, es: seq<Event>)
    requires 1 <= cfg.interval && c.state == NotEnabled
    ensures Sound(ApplyAll(c, cfg, es), cfg) || ApplyAll(c, cfg, es).state == NotEnabled
    decreases |es|
  {
    if es != [] {
      AsCapableSound(c, cfg, es[..|es| - 1]);
      ApplySound(ApplyAll(c, cfg, es[..|es| - 1]), cfg, es[|es| - 1]);
    }
  }

  /** Once sound, in particular once NOT_ENABLED has been left, the port stays so for good;
      a disabled machine then never leaves the port capable. */
  lemma {:induction false} SoundForever(c: Control, cfg: Config, es: seq<Event>)
    requires 1 <= cfg.interval && Sound(c, cfg)
    ensures Sound(ApplyAll(c, cfg, es), cfg)
    decreases |es|
  {
    if es != [] {
      SoundForever(c, cfg, es[..|es| - 1]);
      ApplySound(ApplyAll(c, cfg, es[..|es| - 1]), cfg, es[|es| - 1]);
    }
  }
}
