/**
 The MDPdelayReq machine as the program runs it: one port whose fields are updated in place,
 on top of the measurements of that port.
 */
module PdelayPort {
  import opened Words
  import opened Timestamps
  import opened PdelayMeasurement
  import opened PdelayMachine

  /** A time stamp read from a frame or from the clock. */
  datatype Stamp = Stamp(upper: SWord, lower: Word, ns: SWord) {
    function Contents(): Time {
      Time(upper * WORD + lower, ns)
    }
  }

  /** The stamps the machine stores: when our request left, when the peer says it received it,
      and when the peer says it answered. */
  datatype Stamps = Stamps(requestSent: Stamp, requestReceipt: Stamp, responseOrigin: Stamp)

  /** One port: its machine variables, a structure whose fields are assigned in place, and
      its measurements. The variables of the measurements live there, not in `vars.measured`. */
  class Port {
    const cfg: Config
    const p2p: bool
    const measurement: Measurement
    var computeNeighborRateRatio: bool
    var computeNeighborPropDelay: bool
    var vars: Control

    /** A port as `gptp_sw_init` leaves it. */
    constructor (cfg: Config, p2p: bool)
      ensures this.cfg == cfg && this.p2p == p2p
      ensures measurement.Valid() && vars.state == NotEnabled && vars.asCapable && vars.Enabled()
    {
      this.cfg, this.p2p := cfg, p2p;
      measurement := new Measurement();
      computeNeighborRateRatio, computeNeighborPropDelay := true, true;
      vars := Control(NotEnabled, true, true, true, 0, false, false, false, 0, 0, false, 0, 0,
                      Outcome(false, 0, false, 0), 0);
    }

    ghost function Measured(): Outcome
      reads measurement
    {
      Outcome(measurement.initPdelayRespReceived, measurement.neighborRateRatio,
              measurement.neighborRateRatioValid, measurement.neighborPropDelay)
    }

    ghost function Vars(): Control
      reads this, measurement
    {
      vars.(measured := Measured())
    }

    method Store(t: Timestamp, s: Stamp)
      modifies t
      ensures t.Contents() == s.Contents()
    {
      t.secondsUpper, t.secondsLower, t.nanoseconds := s.upper, s.lower, s.ns;
    }

    /** `transmit_pdelay_request`, as far as the machine sees it. */
    method TransmitRequest(w: Stamps)
      requires measurement.Valid()
      modifies this`vars, measurement.pdelayReqTx
      ensures measurement.pdelayReqTx.Contents() == w.requestSent.Contents()
      ensures vars == old(vars).(sequenceId := NextId(old(vars).sequenceId), txStamped := true)
    {
      vars := vars.(sequenceId := NextId(vars.sequenceId));
      Store(measurement.pdelayReqTx, w.requestSent);
      vars := vars.(txStamped := true);
    }

    /** The entry actions of INITIAL_SEND_PDELAY_REQ. */
    method SendInitial(w: Stamps)
      requires measurement.Valid()
      modifies this`vars, measurement, measurement.pdelayReqTx
      ensures measurement.pdelayReqTx.Contents() == w.requestSent.Contents()
      ensures Vars() == OnInitialSend(old(Vars()))
    {
      vars := vars.(state := InitialSend);
      measurement.initPdelayRespReceived, measurement.neighborRateRatio := false, ONE;
      vars := vars.(txStamped := false, sequenceId := 0, rcvdResp := false, rcvdFollowUp := false);
      TransmitRequest(w);
      vars := vars.(timer := 0, lostResponses := 0, isMeasuringDelay := false, asCapable := false);
      measurement.neighborRateRatioValid := false;
      vars := vars.(responses := 0, multipleResponses := 0, resets := 0);
    }

    /** The length of the interval that a response which left at `origin` ends, on the
        responder's clock. */
    ghost function IntervalTo(origin: Stamp): int
      reads measurement.pdelayRespTxI
    {
      origin.Contents().Value() - measurement.pdelayRespTxI.Value()
    }

    /** That interval and the requester's can be compared. */
    ghost predicate ComparableAt(origin: Stamp)
      reads measurement.pdelayRespTxI, measurement.pdelayRespRx, measurement.pdelayRespRxI
    {
      && -2 * NS_PER_SEC < origin.ns - measurement.pdelayRespTxI.nanoseconds < 2 * NS_PER_SEC
      && Close(measurement.pdelayRespRx, measurement.pdelayRespRxI)
      && Measurable(IntervalTo(origin)) && Measurable(measurement.RequesterInterval())
    }

    /** An exchange whose response left at `w.responseOrigin`: the ratio is that of the interval
        it ends, the delay that of its four stamps, and it starts the next interval. */
    method MeasureExchange(w: Stamps)
      requires measurement.Valid()
      modifies measurement, measurement.pdelayRespTx, measurement.pdelayRespTxI, measurement.pdelayRespRxI
      ensures measurement.pdelayRespTx.Contents() == w.responseOrigin.Contents()
      ensures computeNeighborRateRatio ==>
        && measurement.pdelayRespTxI.Contents() == w.responseOrigin.Contents()
        && measurement.pdelayRespRxI.Contents() == measurement.pdelayRespRx.Contents()
      ensures computeNeighborRateRatio && old(measurement.initPdelayRespReceived && ComparableAt(w.responseOrigin)) ==>
        measurement.RatioOf(old(IntervalTo(w.responseOrigin)), old(measurement.RequesterInterval()),
                            old(measurement.neighborRateRatio), old(measurement.neighborRateRatioValid))
      ensures computeNeighborPropDelay ==> measurement.DelayOfStamps()
    {
      MeasureRatio(w.responseOrigin);
      if computeNeighborPropDelay { measurement.ComputePropTime(); }
    }

    method MeasureRatio(origin: Stamp)
      requires measurement.Valid()
      modifies measurement, measurement.pdelayRespTx, measurement.pdelayRespTxI, measurement.pdelayRespRxI
      ensures measurement.pdelayRespTx.Contents() == origin.Contents()
      ensures computeNeighborRateRatio ==>
        && measurement.pdelayRespTxI.Contents() == origin.Contents()
        && measurement.pdelayRespRxI.Contents() == measurement.pdelayRespRx.Contents()
      ensures computeNeighborRateRatio && old(measurement.initPdelayRespReceived && ComparableAt(origin)) ==>
        measurement.RatioOf(old(IntervalTo(origin)), old(measurement.RequesterInterval()),
          old(measurement.neighborRateRatio), old(measurement.neighborRateRatioValid))
    {
      ghost var r, q, comparable := IntervalTo(origin), measurement.RequesterInterval(), ComparableAt(origin);
      Store(measurement.pdelayRespTx, origin);
      assert r == measurement.ResponderInterval() && q == measurement.RequesterInterval();
      assert comparable ==> measurement.Comparable();
      if computeNeighborRateRatio { measurement.ComputePdelayRateRatio(); }
    }

    /** The entry actions of RESET. */
    method LoseResponse()
      modifies this`vars, measurement`initPdelayRespReceived
      ensures Vars() == OnReset(old(Vars()), cfg)
    {
      measurement.initPdelayRespReceived := false;
      var lost, measuring, capable := vars.lostResponses, vars.isMeasuringDelay, vars.asCapable;
      if lost <= cfg.allowedLostResponses {
        lost := lost + 1;
      } else {
        measuring, capable := false, false;
      }
      vars := vars.(state := Reset, rcvdResp := false, rcvdFollowUp := false, resets := vars.resets + 1,
                    lostResponses := lost, isMeasuringDelay := measuring, asCapable := capable);
    }

    /** The entry actions of SEND_PDELAY_REQ; three requests in a row that were answered more
        than once disable the port. */
    method SendNext(w: Stamps)
      requires measurement.Valid()
      modifies this`vars, measurement.pdelayReqTx
      ensures measurement.pdelayReqTx.Contents() == w.requestSent.Contents()
      ensures Vars() == OnSendReq(old(Vars()))
    {
      vars := vars.(state := SendReq, sequenceId := NextId(vars.sequenceId));
      TransmitRequest(w);
      vars := vars.(timer := 0);
      CountAnswers();
    }

    method CountAnswers()
      modifies this`vars
      ensures vars == old(vars).(responses := 0,
        multipleResponses := Multiple(old(vars).responses, old(vars).multipleResponses),
        portEnabled := old(vars).portEnabled && !Disables(old(vars).responses, old(vars).multipleResponses))
    {
      var multiple, enabled := vars.multipleResponses, vars.portEnabled;
      if vars.responses == 1 {
        multiple := 0;
      } else if vars.responses > 1 {
        multiple := multiple + 1;
        if multiple >= 3 { enabled := false; }
      }
      vars := vars.(responses := 0, multipleResponses := multiple, portEnabled := enabled);
    }

    /** The entry actions of WAITING_FOR_PDELAY_INTERVAL_TIMER: the exchange is measured, and
        `asCapable` decided. */
    method CompleteExchange(f: Frames, w: Stamps) returns (ghost m: Outcome)
      requires measurement.Valid()
      modifies this`vars, measurement, measurement.pdelayRespTx, measurement.pdelayRespTxI, measurement.pdelayRespRxI
      ensures Vars() == OnComplete(old(Vars()), cfg, f, m) && m == Measured()
      ensures measurement.pdelayRespTx.Contents() == w.responseOrigin.Contents()
      ensures computeNeighborRateRatio && old(measurement.initPdelayRespReceived && ComparableAt(w.responseOrigin)) ==>
        measurement.RatioOf(old(IntervalTo(w.responseOrigin)), old(measurement.RequesterInterval()),
                            old(measurement.neighborRateRatio), old(measurement.neighborRateRatioValid))
      ensures computeNeighborPropDelay ==> measurement.DelayOfStamps()
    {
      vars := vars.(state := WaitTimer, rcvdFollowUp := false);
      MeasureExchange(w);
      m := Measured();
      vars := vars.(lostResponses := 0, isMeasuringDelay := true, resets := 0);
      vars := vars.(asCapable := measurement.neighborPropDelay <= cfg.propDelayThresh && f.respFromOther
                                 && measurement.neighborRateRatioValid);
    }

    /** The entry actions of the other states. */
    method Disable()
      modifies this`vars
      ensures Vars() == old(Vars()).(state := NotEnabled, asCapable := false, multipleResponses := 0)
    {
      vars := vars.(state := NotEnabled, asCapable := false, multipleResponses := 0);
    }

    method AwaitResponse()
      modifies this`vars
      ensures Vars() == old(Vars()).(state := WaitResp, txStamped := false)
    {
      vars := vars.(state := WaitResp, txStamped := false);
    }

    method AwaitFollowUp(w: Stamps)
      modifies this`vars, measurement.pdelayReqRx
      ensures measurement.pdelayReqRx.Contents() == w.requestReceipt.Contents()
      ensures Vars() == old(Vars()).(state := WaitFollowUp, rcvdResp := false)
    {
      vars := vars.(state := WaitFollowUp, rcvdResp := false);
      Store(measurement.pdelayReqRx, w.requestReceipt);
    }

    /** The measurements are those of the exchange that completed with these stamps. */
    ghost predicate Exchanged(w: Stamps, m: Outcome)
      reads this, measurement, measurement.pdelayReqTx, measurement.pdelayReqRx, measurement.pdelayRespTx,
            measurement.pdelayRespRx
    {
      && m == Measured() && measurement.pdelayRespTx.Contents() == w.responseOrigin.Contents()
      && (computeNeighborPropDelay ==> measurement.DelayOfStamps())
    }

    /** The port is capable exactly if the measured delay is within the threshold, the
        responder is not this bridge, and the rate ratio is valid. */
    ghost predicate CapableAsMeasured(f: Frames)
      reads this, measurement
    {
      vars.asCapable <==>
        measurement.neighborPropDelay <= cfg.propDelayThresh && f.respFromOther && measurement.neighborRateRatioValid
    }

    /** `MDPdelayReq_StateMachine_SetState`. Completing an exchange measures; `m` is the
        outcome. */
    method EnterState(s: State, f: Frames, w: Stamps) returns (ghost m: Outcome)
      requires measurement.Valid()
      modifies this`vars, measurement, measurement.pdelayReqTx, measurement.pdelayReqRx, measurement.pdelayRespTx,
               measurement.pdelayRespTxI, measurement.pdelayRespRxI
      ensures Vars() == SetState(old(Vars()), s, cfg, f, m)
      ensures s == SendReq || s == InitialSend ==> measurement.pdelayReqTx.Contents() == w.requestSent.Contents()
      ensures s == WaitFollowUp ==> measurement.pdelayReqRx.Contents() == w.requestReceipt.Contents()
      ensures s == WaitTimer ==> Exchanged(w, m) && CapableAsMeasured(f)
      ensures s == WaitTimer && computeNeighborRateRatio
              && old(measurement.initPdelayRespReceived && ComparableAt(w.responseOrigin)) ==>
        measurement.RatioOf(old(IntervalTo(w.responseOrigin)), old(measurement.RequesterInterval()),
                            old(measurement.neighborRateRatio), old(measurement.neighborRateRatioValid))
    {
      m := Measured();
      match s
      case NotEnabled => Disable();
      case InitialSend => SendInitial(w);
      case Reset => LoseResponse();
      case SendReq => SendNext(w);
      case WaitResp => AwaitResponse();
      case WaitFollowUp => AwaitFollowUp(w);
      case WaitTimer => m := CompleteExchange(f, w);
    }

    /** `MDPdelayReq_StateMachine`: runs the passes of the loop to their fixpoint. */
    method StateMachine(f: Frames, w: Stamps) returns (ghost m: Outcome)
      requires measurement.Valid() && 1 <= cfg.interval
      modifies this`vars, measurement, measurement.pdelayReqTx, measurement.pdelayReqRx, measurement.pdelayRespTx,
               measurement.pdelayRespTxI, measurement.pdelayRespRxI
      ensures p2p && vars.state == WaitTimer && !(old(vars.state) == WaitTimer && old(vars.timer) < cfg.interval) ==>
        && Exchanged(w, m)
        && (vars.asCapable <==> measurement.neighborPropDelay <= cfg.propDelayThresh && f.respFromOther
                                && measurement.neighborRateRatioValid)
      ensures Vars() == if p2p then Run(old(Vars()), cfg, f, m) else old(Vars())
    {
      m := Measured();
      if !p2p { return; }
      if !vars.portEnabled || !vars.pttPortEnabled {
        if vars.state != NotEnabled {
          m := EnterState(NotEnabled, f, w);
        }
        return;
      }
      ghost var start := Vars();
      ghost var completed := false;
      var moved := true;
      while moved
        invariant vars.Enabled() || vars.state != NotEnabled
        invariant OnTheWay(start, Vars(), cfg, f, m, completed)
        invariant vars.state == WaitTimer ==> (Exchanged(w, m) && CapableAsMeasured(f)) || Vars() == start
        invariant !moved ==> NextState(Vars(), cfg, f) == vars.state
        decreases moved, Measure(Vars(), cfg)
      {
        ghost var before := Vars();
        var next := Choose(f);
        moved := next != vars.state;
        if moved {
          ghost var n := EnterState(next, f, w);
          Entered(start, before, Vars(), next, cfg, f, m, n, completed);
          if next == WaitTimer {
            completed, m := true, n;
          }
        }
      }
    }

    /** The transition the program's `switch` selects; in NOT_ENABLED the port is enabled here. */
    method Choose(f: Frames) returns (s: State)
      requires vars.Enabled() || vars.state != NotEnabled
      ensures s == NextState(Vars(), cfg, f)
    {
      s := vars.state;
      match vars.state
      case NotEnabled => s := InitialSend;
      case Reset => s := SendReq;
      case InitialSend =>
        if vars.txStamped { s := WaitResp; }
        else if vars.timer >= cfg.interval { s := Reset; }
      case SendReq =>
        if vars.txStamped { s := WaitResp; }
        else if vars.timer >= cfg.interval { s := Reset; }
      case WaitResp =>
        if vars.timer >= cfg.interval || (vars.rcvdResp && (!f.respPortMatches || !f.respSeqMatches)) {
          s := Reset;
        } else if vars.rcvdResp && f.respSeqMatches && f.respPortMatches {
          s := WaitFollowUp;
        }
      case WaitFollowUp =>
        if vars.timer >= cfg.interval || (vars.rcvdResp && f.respSeqMatches) {
          s := Reset;
        } else if vars.rcvdFollowUp && f.followUpSeqMatches && f.followUpPortMatches {
          s := WaitTimer;
        }
      case WaitTimer =>
        if vars.timer >= cfg.interval { s := SendReq; }
    }
  }

  /** After an exchange completes, its run is over. */
  ghost predicate Completed(c: Control, cfg: Config) {
    c.state == WaitTimer && c.timer < cfg.interval
  }

  /** The rest of the loop from `c` ends where the whole loop from `start` does; before an
      exchange completes, whatever its outcome will be. */
  ghost predicate OnTheWay(start: Control, c: Control, cfg: Config, f: Frames, m: Outcome, completed: bool)
    requires 1 <= cfg.interval
  {
    if completed then Loop(start, cfg, f, m) == Loop(c, cfg, f, m) && Completed(c, cfg)
    else forall n :: Loop(start, cfg, f, n) == Loop(c, cfg, f, n)
  }

  /** Entering the next state advances the loop and lowers what bounds it. */
  lemma Entered(start: Control, before: Control, after: Control, next: State, cfg: Config, f: Frames,
                m: Outcome, n: Outcome, completed: bool)
    requires 1 <= cfg.interval && OnTheWay(start, before, cfg, f, m, completed)
    requires before.Enabled() || before.state != NotEnabled
    requires next == NextState(before, cfg, f) != before.state && after == SetState(before, next, cfg, f, n)
    ensures Measure(after, cfg) < Measure(before, cfg) && after.state == next
    ensures after.Enabled() || after.state != NotEnabled
    ensures if next == WaitTimer then OnTheWay(start, after, cfg, f, n, true)
            else OnTheWay(start, after, cfg, f, m, completed)
  {
    Advance(start, before, after, next, cfg, f, m, n, completed);
    PassDecreases(before, cfg, f, n);
  }

  lemma Advance(start: Control, before: Control, after: Control, next: State, cfg: Config, f: Frames,
                m: Outcome, n: Outcome, completed: bool)
    requires 1 <= cfg.interval && OnTheWay(start, before, cfg, f, m, completed)
    requires next == NextState(before, cfg, f) != before.state && after == SetState(before, next, cfg, f, n)
    ensures if next == WaitTimer then OnTheWay(start, after, cfg, f, n, true)
            else OnTheWay(start, after, cfg, f, m, completed)
  {
    if completed {
      assert false;
    } else if next != WaitTimer {
      forall k ensures Loop(start, cfg, f, k) == Loop(after, cfg, f, k) {
        assert Pass(before, cfg, f, k) == after;
      }
    } else {
      assert Pass(before, cfg, f, n) == after;
    }
  }
}
