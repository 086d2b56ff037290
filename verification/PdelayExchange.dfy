/**
 Whole exchanges of the MDPdelayReq machine (ptp/gptpstatmch.c): what its loop does in each
 state, in the fields of the port, and from there when an exchange completes, when a port
 becomes capable, and how many lost exchanges it takes to lose that.
 */
module PdelayExchange {
  import opened Words
  import opened PdelayMachine

  // ----- the loop, state by state

  /** The state in which a new request has been sent and answered by nobody. A request takes
      two sequence numbers. Its predecessor's answers are counted: the third request in a row
      that was answered more than once disables the port. */
  ghost predicate Requested(c: Control, r: Control) {
    && r.state == WaitResp && r.timer == 0 && !r.txStamped && r.responses == 0
    && r.sequenceId == (c.sequenceId + 2) % 65536
    && r.multipleResponses ==
         (if c.responses == 0 then c.multipleResponses else if c.responses == 1 then 0 else c.multipleResponses + 1)
    && r.portEnabled == (c.portEnabled && !(c.responses >= 2 && c.multipleResponses >= 2))
    && r.pttPortEnabled == c.pttPortEnabled
  }

  /** What a request by itself leaves alone. */
  ghost predicate Unaffected(c: Control, r: Control) {
    && r.asCapable == c.asCapable && r.rcvdResp == c.rcvdResp && r.rcvdFollowUp == c.rcvdFollowUp
    && r.lostResponses == c.lostResponses && r.isMeasuringDelay == c.isMeasuringDelay && r.measured == c.measured
    && r.resets == c.resets
  }

  /** The exchange was lost: up to `allowedLostResponses` + 1 of them in a row are tolerated. */
  ghost predicate Lost(c: Control, cfg: Config, r: Control) {
    && !r.rcvdResp && !r.rcvdFollowUp && r.resets == c.resets + 1
    && r.measured == c.measured.(initReceived := false)
    && (if c.lostResponses <= cfg.allowedLostResponses
        then r.lostResponses == c.lostResponses + 1 && r.asCapable == c.asCapable
             && r.isMeasuringDelay == c.isMeasuringDelay
        else r.lostResponses == c.lostResponses && !r.asCapable && !r.isMeasuringDelay)
  }

  lemma LoopOnce(c: Control, cfg: Config, f: Frames, m: Outcome)
    requires 1 <= cfg.interval && NextState(c, cfg, f) != c.state
    ensures Loop(c, cfg, f, m) == Loop(SetState(c, NextState(c, cfg, f), cfg, f, m), cfg, f, m)
  {
  }

  /** A machine that finds the port enabled sends the first request of a fresh measurement. */
  lemma Enables(c: Control, cfg: Config, f: Frames, m: Outcome)
    requires 1 <= cfg.interval && c.state == NotEnabled && c.Enabled()
    ensures var r := Loop(c, cfg, f, m);
      && r.state == WaitResp && r.timer == 0 && !r.txStamped && r.sequenceId == 1 && r.Enabled()
      && !r.rcvdResp && !r.rcvdFollowUp && r.responses == 0 && r.multipleResponses == 0
      && r.lostResponses == 0 && r.resets == 0 && !r.asCapable && !r.isMeasuringDelay
      && r.measured == Outcome(false, 0x8000_0000, false, c.measured.propDelay)
  {
    var sent := SetState(c, InitialSend, cfg, f, m);
    LoopOnce(c, cfg, f, m);
    LoopOnce(sent, cfg, f, m);
  }

  lemma AfterReset(c: Control, cfg: Config, f: Frames, m: Outcome)
    requires 1 <= cfg.interval && (c.state == WaitResp || c.state == WaitFollowUp)
    requires NextState(c, cfg, f) == Reset
    ensures Requested(c, Loop(c, cfg, f, m)) && Lost(c, cfg, Loop(c, cfg, f, m))
  {
    var reset := SetState(c, Reset, cfg, f, m);
    var sent := SetState(reset, SendReq, cfg, f, m);
    LoopOnce(c, cfg, f, m);
    LoopOnce(reset, cfg, f, m);
    LoopOnce(sent, cfg, f, m);
  }

  /** While a response is awaited: a timeout, or a response that is not to this request of this
      port, loses the exchange; a response to it leads on; otherwise the machine waits. */
  lemma AwaitsResponse(c: Control, cfg: Config, f: Frames, m: Outcome)
    requires 1 <= cfg.interval && c.state == WaitResp
    ensures c.timer >= cfg.interval || (c.rcvdResp && !(f.respPortMatches && f.respSeqMatches)) ==>
      Requested(c, Loop(c, cfg, f, m)) && Lost(c, cfg, Loop(c, cfg, f, m))
    ensures c.timer < cfg.interval && c.rcvdResp && f.respPortMatches && f.respSeqMatches ==>
      Loop(c, cfg, f, m) == Loop(c.(state := WaitFollowUp, rcvdResp := false), cfg, f, m)
    ensures c.timer < cfg.interval && !c.rcvdResp ==> Loop(c, cfg, f, m) == c
  {
    if NextState(c, cfg, f) == Reset {
      AfterReset(c, cfg, f, m);
    } else if NextState(c, cfg, f) != WaitResp {
      LoopOnce(c, cfg, f, m);
    }
  }

  /** An exchange completes: the port is capable exactly if the delay is within the threshold,
      the responder is not this bridge, and the rate ratio is valid. */
  ghost predicate Done(c: Control, cfg: Config, f: Frames, m: Outcome, r: Control) {
    && r.state == WaitTimer && r.measured == m
    && (r.asCapable <==> m.propDelay <= cfg.propDelayThresh && f.respFromOther && m.ratioValid)
    && r.lostResponses == 0 && r.resets == 0 && r.isMeasuringDelay && !r.rcvdFollowUp
    && r.timer == c.timer && r.rcvdResp == c.rcvdResp && r.txStamped == c.txStamped
    && r.sequenceId == c.sequenceId && r.responses == c.responses && r.multipleResponses == c.multipleResponses
    && r.portEnabled == c.portEnabled && r.pttPortEnabled == c.pttPortEnabled
  }

  /** While a follow-up is awaited: a timeout or a second response to the request loses the
      exchange; a follow-up to it completes it; otherwise the machine waits. */
  lemma AwaitsFollowUp(c: Control, cfg: Config, f: Frames, m: Outcome)
    requires 1 <= cfg.interval && c.state == WaitFollowUp
    ensures c.timer >= cfg.interval || (c.rcvdResp && f.respSeqMatches) ==>
      Requested(c, Loop(c, cfg, f, m)) && Lost(c, cfg, Loop(c, cfg, f, m))
    ensures c.timer < cfg.interval && !(c.rcvdResp && f.respSeqMatches) ==>
      if c.rcvdFollowUp && f.followUpSeqMatches && f.followUpPortMatches
      then Done(c, cfg, f, m, Loop(c, cfg, f, m))
      else Loop(c, cfg, f, m) == c
  {
    if NextState(c, cfg, f) == Reset {
      AfterReset(c, cfg, f, m);
    } else if NextState(c, cfg, f) != WaitFollowUp {
      LoopOnce(c, cfg, f, m);
    }
  }

  /** After an exchange the machine waits for the interval to end, and then sends a request and
      goes on from there. */
  lemma AwaitsInterval(c: Control, cfg: Config, f: Frames, m: Outcome) returns (r: Control)
    requires 1 <= cfg.interval && c.state == WaitTimer
    ensures c.timer < cfg.interval ==> Loop(c, cfg, f, m) == c
    ensures c.timer >= cfg.interval ==>
      Requested(c, r) && Unaffected(c, r) && Loop(c, cfg, f, m) == Loop(r, cfg, f, m)
  {
    r := c;
    if c.timer >= cfg.interval {
      var sent := SetState(c, SendReq, cfg, f, m);
      r := SetState(sent, WaitResp, cfg, f, m);
      LoopOnce(c, cfg, f, m);
      LoopOnce(sent, cfg, f, m);
    }
  }

  /** A port that is not enabled is forced out of the exchange and is not capable. */
  lemma ForcedOut(c: Control, cfg: Config, f: Frames, m: Outcome)
    requires 1 <= cfg.interval && !c.Enabled()
    ensures Run(c, cfg, f, m) ==
      if c.state == NotEnabled then c else c.(state := NotEnabled, asCapable := false, multipleResponses := 0)
  {
  }

  // ----- events

  /** The machine of an enabled port between events. */
  ghost predicate AtRest(c: Control) {
    c.Enabled() && (c.state == WaitResp || c.state == WaitFollowUp || c.state == WaitTimer)
  }

  /** Time passes. */
  ghost predicate AllTicks(es: seq<Event>) {
    forall k :: 0 <= k < |es| ==> es[k].Tick?
  }

  /** While nothing has been received, time only moves the timer. */
  lemma {:induction false} TicksWait(c: Control, cfg: Config, es: seq<Event>)
    requires c.Enabled() && AllTicks(es) && c.timer + |es| < cfg.interval <= WORD
    requires (c.state == WaitResp && !c.rcvdResp) || (c.state == WaitFollowUp && !c.rcvdResp && !c.rcvdFollowUp)
    ensures ApplyAll(c, cfg, es) == c.(timer := c.timer + |es|)
    decreases |es|
  {
    if es != [] {
      var before, e := es[..|es| - 1], es[|es| - 1];
      TicksWait(c, cfg, before);
      WrapOnce(c.timer + |es|);
      var d := c.(timer := c.timer + |es|);
      if c.state == WaitResp {
        AwaitsResponse(d, cfg, e.f, e.m);
      } else {
        AwaitsFollowUp(d, cfg, e.f, e.m);
      }
    }
  }

  lemma {:induction false} ApplyConcat(c: Control, cfg: Config, xs: seq<Event>, ys: seq<Event>)
    requires 1 <= cfg.interval
    ensures ApplyAll(c, cfg, xs + ys) == ApplyAll(ApplyAll(c, cfg, xs), cfg, ys)
    decreases |ys|
  {
    if ys == [] {
      assert xs + ys == xs;
    } else {
      assert (xs + ys)[..|xs + ys| - 1] == xs + ys[..|ys| - 1];
      ApplyConcat(c, cfg, xs, ys[..|ys| - 1]);
    }
  }

  lemma ResponseArrives(c: Control, cfg: Config, f: Frames, m: Outcome)
    requires c.Enabled() && c.state == WaitResp && !c.rcvdResp && !c.rcvdFollowUp && c.timer < cfg.interval
    requires f.respPortMatches && f.respSeqMatches
    ensures Apply(c, cfg, Response(f, m)) == c.(state := WaitFollowUp, responses := c.responses + 1)
  {
    var d := c.(rcvdResp := true, responses := c.responses + 1);
    AwaitsResponse(d, cfg, f, m);
    AwaitsFollowUp(d.(state := WaitFollowUp, rcvdResp := false), cfg, f, m);
  }

  lemma FollowUpStep(c: Control, cfg: Config, f: Frames, m: Outcome)
    requires c.Enabled() && c.state == WaitFollowUp && !c.rcvdResp && c.timer < cfg.interval
    requires f.followUpPortMatches && f.followUpSeqMatches
    ensures Done(c, cfg, f, m, Apply(c, cfg, FollowUp(f, m)))
  {
    AwaitsFollowUp(c.(rcvdFollowUp := true), cfg, f, m);
  }

  /** The follow-up, after the ticks between it and the response. */
  lemma FollowUpArrives(c: Control, cfg: Config, between: seq<Event>, f: Frames, m: Outcome)
    requires c.Enabled() && c.state == WaitFollowUp && !c.rcvdResp && !c.rcvdFollowUp
    requires AllTicks(between) && c.timer + |between| < cfg.interval <= WORD
    requires f.followUpPortMatches && f.followUpSeqMatches
    ensures Done(c.(timer := c.timer + |between|), cfg, f, m, ApplyAll(c, cfg, between + [FollowUp(f, m)]))
  {
    assert (between + [FollowUp(f, m)])[..|between|] == between;
    TicksWait(c, cfg, between);
    FollowUpStep(c.(timer := c.timer + |between|), cfg, f, m);
  }

  /** An exchange that goes well: a request has been sent, and within the interval come, with any
      ticks around them, a response and a follow-up that match it. It completes, and the port is
      capable exactly as the measurement says. */
  lemma ExchangeCompletes(c: Control, cfg: Config, before: seq<Event>, f: Frames, m: Outcome, between: seq<Event>,
                          g: Frames, n: Outcome)
    requires c.Enabled() && c.state == WaitResp && !c.rcvdResp && !c.rcvdFollowUp
    requires AllTicks(before) && AllTicks(between) && c.timer + |before| + |between| < cfg.interval <= WORD
    requires f.respPortMatches && f.respSeqMatches && g.followUpPortMatches && g.followUpSeqMatches
    ensures var r := ApplyAll(c, cfg, before + [Response(f, m)] + (between + [FollowUp(g, n)]));
      && r.state == WaitTimer && r.measured == n
      && (r.asCapable <==> n.propDelay <= cfg.propDelayThresh && g.respFromOther && n.ratioValid)
      && r.lostResponses == 0 && r.timer == c.timer + |before| + |between| && r.sequenceId == c.sequenceId
  {
    var start := before + [Response(f, m)];
    assert start[..|start| - 1] == before;
    TicksWait(c, cfg, before);
    ResponseArrives(c.(timer := c.timer + |before|), cfg, f, m);
    ApplyConcat(c, cfg, start, between + [FollowUp(g, n)]);
    FollowUpArrives(ApplyAll(c, cfg, start), cfg, between, g, n);
  }

  /** The same from a port that has just been enabled. */
  lemma FirstExchange(c: Control, cfg: Config, first: Event, before: seq<Event>, f: Frames, m: Outcome,
                      between: seq<Event>, g: Frames, n: Outcome)
    requires c.Enabled() && c.state == NotEnabled && first.Tick?
    requires AllTicks(before) && AllTicks(between) && |before| + |between| < cfg.interval <= WORD
    requires f.respPortMatches && f.respSeqMatches && g.followUpPortMatches && g.followUpSeqMatches
    ensures var r := ApplyAll(c, cfg, [first] + (before + [Response(f, m)] + (between + [FollowUp(g, n)])));
      && r.state == WaitTimer && r.sequenceId == 1
      && (r.asCapable <==> n.propDelay <= cfg.propDelayThresh && g.respFromOther && n.ratioValid)
  {
    var rest := before + [Response(f, m)] + (between + [FollowUp(g, n)]);
    ApplyConcat(c, cfg, [first], rest);
    assert [first][..0] == [];
    var d := c.(timer := Wrap(c.timer + 1));
    Enables(d, cfg, first.f, first.m);
    var sent := Loop(d, cfg, first.f, first.m);
    assert ApplyAll(c, cfg, [first]) == sent;
    ExchangeCompletes(sent, cfg, before, f, m, between, g, n);
  }

  // ----- no exchange completes by itself

  /** What a pass to fixpoint needs to end behind an exchange, or in the middle of one. */
  lemma {:induction false} LoopCompletes(c: Control, cfg: Config, f: Frames, m: Outcome)
    requires 1 <= cfg.interval
    ensures Loop(c, cfg, f, m).state == WaitTimer && !(c.state == WaitTimer && c.timer < cfg.interval) ==>
      && c.rcvdFollowUp && f.followUpPortMatches && f.followUpSeqMatches
      && (c.state == WaitFollowUp || (c.rcvdResp && f.respPortMatches && f.respSeqMatches))
    ensures Loop(c, cfg, f, m).state == WaitFollowUp && c.state != WaitFollowUp ==>
      c.rcvdResp && f.respPortMatches && f.respSeqMatches
    decreases Measure(c, cfg)
  {
    if NextState(c, cfg, f) != c.state {
      PassDecreases(c, cfg, f, m);
      LoopCompletes(SetState(c, NextState(c, cfg, f), cfg, f, m), cfg, f, m);
    }
  }

  /** Frames that are only held, or dropped: the loop never makes one. */
  lemma {:induction false} LoopDrops(c: Control, cfg: Config, f: Frames, m: Outcome)
    requires 1 <= cfg.interval
    ensures Loop(c, cfg, f, m).rcvdResp ==> c.rcvdResp
    ensures Loop(c, cfg, f, m).rcvdFollowUp ==> c.rcvdFollowUp
    decreases Measure(c, cfg)
  {
    if NextState(c, cfg, f) != c.state {
      PassDecreases(c, cfg, f, m);
      LoopDrops(SetState(c, NextState(c, cfg, f), cfg, f, m), cfg, f, m);
    }
  }

  ghost predicate Heard(es: seq<Event>) {
    exists i :: 0 <= i < |es| && es[i].Response?
  }

  ghost predicate HeardFollowUp(es: seq<Event>) {
    exists i :: 0 <= i < |es| && es[i].FollowUp?
  }

  /** A response came, and then or later the response that was held matched the request. */
  ghost predicate Answered(es: seq<Event>) {
    exists k :: 0 <= k < |es| && Heard(es[..k + 1]) && !es[k].Administer?
                && es[k].f.respPortMatches && es[k].f.respSeqMatches
  }

  /** The same for its follow-up. */
  ghost predicate FollowedUp(es: seq<Event>) {
    exists k :: 0 <= k < |es| && HeardFollowUp(es[..k + 1]) && !es[k].Administer?
                && es[k].f.followUpPortMatches && es[k].f.followUpSeqMatches
  }

  /** From a state before the first response, over every run: no exchange gets to its follow-up
      without a response that matches, nor completes without that and a follow-up that matches. */
  lemma {:induction false} NeedsBoth(c: Control, cfg: Config, es: seq<Event>)
    requires 1 <= cfg.interval && c.state != WaitFollowUp && c.state != WaitTimer && !c.rcvdResp && !c.rcvdFollowUp
    ensures var r := ApplyAll(c, cfg, es);
      && (r.state == WaitFollowUp || r.state == WaitTimer ==> Answered(es))
      && (r.state == WaitTimer ==> FollowedUp(es))
      && (r.rcvdResp ==> Heard(es)) && (r.rcvdFollowUp ==> HeardFollowUp(es))
    decreases |es|
  {
    if es != [] {
      var before, e := es[..|es| - 1], es[|es| - 1];
      NeedsBoth(c, cfg, before);
      StillHeard(before, e);
      assert es == before + [e];
      NeedsBothStep(ApplyAll(c, cfg, before), cfg, before, e);
    }
  }

  lemma StillHeard(es: seq<Event>, e: Event)
    ensures Heard(es) || e.Response? ==> Heard(es + [e])
    ensures HeardFollowUp(es) || e.FollowUp? ==> HeardFollowUp(es + [e])
    ensures Answered(es) ==> Answered(es + [e])
    ensures FollowedUp(es) ==> FollowedUp(es + [e])
  {
    var after := es + [e];
    assert after[|es|] == e;
    if i :| 0 <= i < |es| && es[i].Response? { assert after[i].Response?; }
    if i :| 0 <= i < |es| && es[i].FollowUp? { assert after[i].FollowUp?; }
    forall k | 0 <= k < |es| ensures after[..k + 1] == es[..k + 1] && after[k] == es[k] {
    }
  }

  lemma MatchedNow(es: seq<Event>, e: Event)
    requires !e.Administer?
    ensures Heard(es + [e]) && e.f.respPortMatches && e.f.respSeqMatches ==> Answered(es + [e])
    ensures HeardFollowUp(es + [e]) && e.f.followUpPortMatches && e.f.followUpSeqMatches ==> FollowedUp(es + [e])
  {
    var after, k := es + [e], |es|;
    assert after[..k + 1] == after && after[k] == e;
  }

  lemma NeedsBothStep(c: Control, cfg: Config, es: seq<Event>, e: Event)
    requires 1 <= cfg.interval
    requires c.state == WaitFollowUp || c.state == WaitTimer ==> Answered(es + [e])
    requires c.state == WaitTimer ==> FollowedUp(es + [e])
    requires c.rcvdResp || e.Response? ==> Heard(es + [e])
    requires c.rcvdFollowUp || e.FollowUp? ==> HeardFollowUp(es + [e])
    ensures var r := Apply(c, cfg, e);
      && (r.state == WaitFollowUp || r.state == WaitTimer ==> Answered(es + [e]))
      && (r.state == WaitTimer ==> FollowedUp(es + [e]))
      && (r.rcvdResp ==> Heard(es + [e])) && (r.rcvdFollowUp ==> HeardFollowUp(es + [e]))
  {
    if !e.Administer? {
      MatchedNow(es, e);
      var d := match e
        case Tick(_, _) => c.(timer := Wrap(c.timer + 1))
        case Response(_, _) => c.(rcvdResp := true, responses := c.responses + 1)
        case FollowUp(_, _) => c.(rcvdFollowUp := true);
      LoopCompletes(d, cfg, e.f, e.m);
      LoopDrops(d, cfg, e.f, e.m);
    }
  }

  // ----- lost exchanges

  /** A request that nobody answers is lost after one interval. */
  lemma SilentPeriod(c: Control, cfg: Config, es: seq<Event>)
    requires c.Enabled() && c.state == WaitResp && !c.rcvdResp && c.timer == 0 && c.responses == 0
    requires AllTicks(es) && |es| == cfg.interval && 1 <= cfg.interval < WORD
    ensures var r := ApplyAll(c, cfg, es);
      && r.Enabled() && r.state == WaitResp && !r.rcvdResp && r.timer == 0 && r.responses == 0
      && r.asCapable == (c.asCapable && c.lostResponses <= cfg.allowedLostResponses)
      && r.lostResponses == c.lostResponses + (if c.lostResponses <= cfg.allowedLostResponses then 1 else 0)
  {
    var before, e := es[..|es| - 1], es[|es| - 1];
    TicksWait(c, cfg, before);
    WrapOnce(|es|);
    AwaitsResponse(c.(timer := |es|), cfg, e.f, e.m);
  }

  /** A port whose neighbour falls silent stays capable through exactly `allowedLostResponses`
      + 1 lost exchanges, counting those lost before, and not a single one more. */
  lemma {:induction false} SilentPeriods(c: Control, cfg: Config, es: seq<Event>, k: nat)
    requires c.Enabled() && c.state == WaitResp && !c.rcvdResp && c.timer == 0 && c.responses == 0
    requires c.lostResponses <= cfg.allowedLostResponses + 1
    requires AllTicks(es) && |es| == k * cfg.interval && 1 <= cfg.interval < WORD
    ensures var r := ApplyAll(c, cfg, es);
      && r.Enabled() && r.state == WaitResp && !r.rcvdResp && r.timer == 0 && r.responses == 0
      && (r.asCapable <==> c.asCapable && c.lostResponses + k <= cfg.allowedLostResponses + 1)
      && r.lostResponses ==
           (if c.lostResponses + k <= cfg.allowedLostResponses + 1 then c.lostResponses + k
            else cfg.allowedLostResponses + 1)
    decreases k
  {
    if k == 0 {
      assert es == [];
    } else {
      assert k * cfg.interval == (k - 1) * cfg.interval + cfg.interval;
      MulPos(k - 1, cfg.interval);
      var cut := (k - 1) * cfg.interval;
      SilentPeriods(c, cfg, es[..cut], k - 1);
      SilentPeriod(ApplyAll(c, cfg, es[..cut]), cfg, es[cut..]);
      ApplyConcat(c, cfg, es[..cut], es[cut..]);
      assert es[..cut] + es[cut..] == es;
    }
  }
}
