/**
 A transmission opportunity (msrp/vtss_msrp.c): every machine may call `doTx` on the same
 buffer, the PDU is padded and sent, and the receiver visits what was sent.
 */
module MrpTransmit {
  import opened Octets
  import opened MrpAttributes
  import opened MrpPacking
  import opened MrpPdu
  import opened MrpReceive
  import opened MrpDelivery

  // ----- how long a series may be

  /** A declaration that `doTx` can carry. */
  ghost predicate Sendable(r: Request) {
    |r.first| == FirstLength(r.attr) && r.attr != TalkerFailed
  }

  ghost predicate AllSendable(requests: seq<Request>) {
    forall k :: 0 <= k < |requests| ==> Sendable(requests[k])
  }

  /** The buffer up to the send pointer after a series of calls. */
  function Size(requests: seq<Request>): nat {
    START + |CodedAll(SentAll(requests))|
  }

  lemma SizeStep(requests: seq<Request>)
    requires requests != [] && AllSendable(requests)
    ensures var n := |requests| - 1; Size(requests[..n]) <= Size(requests) <= Size(requests[..n]) + 34
  {
    var n, last := |requests| - 1, requests[|requests| - 1];
    SentLength(SentAll(requests[..n]), last.attr, last.first, last.event, last.check);
  }

  /** The PDU never shrinks, and no call takes more than 34 bytes. */
  lemma {:induction false} SizeBetween(requests: seq<Request>, k: nat)
    requires k <= |requests| && AllSendable(requests)
    ensures Size(requests[..k]) <= Size(requests) <= Size(requests[..k]) + 34 * (|requests| - k)
    decreases |requests|
  {
    var n := |requests| - 1;
    if k <= n {
      assert requests[..n][..k] == requests[..k];
      SizeBetween(requests[..n], k);
      SizeStep(requests);
    } else {
      assert requests[..k] == requests;
    }
  }

  /** A talker that no message takes. */
  function Talker(): Request {
    Request(TalkerAdvertise, Zeros(25), 0, NEVER)
  }

  function Talkers(n: nat): (requests: seq<Request>)
    ensures |requests| == n
  {
    seq(n, _ => Talker())
  }

  /** Talkers that do not merge take 34 bytes each. */
  lemma {:induction false} TalkersSize(n: nat)
    ensures AllSendable(Talkers(n)) && Size(Talkers(n)) == START + 34 * n
  {
    if n > 0 {
      TalkersSize(n - 1);
      assert Talkers(n)[..n - 1] == Talkers(n - 1);
      var ms := SentAll(Talkers(n - 1));
      SentLength(ms, TalkerAdvertise, Zeros(25), 0, NEVER);
      TargetNone(ms, TalkerAdvertise, NEVER);
    }
  }

  /** The end of the frame that `mrp_pdu_ex_send` makes of a buffer filled up to `ptr`: four
      zeros at least, 64 bytes at least, and four more octets. */
  function FrameEnd(ptr: nat): nat {
    (if ptr + 4 < 64 then 64 else ptr + 4) + 4
  }

  /** Every series of n calls fits the buffer exactly up to 44 calls; the frame made of it
      exactly up to 43. One call more overruns it with talkers that do not merge. */
  lemma AlwaysFits(n: nat)
    ensures (forall requests :: |requests| == n && AllSendable(requests) ==> Size(requests) <= BUFFER) <==> n <= 44
    ensures (forall requests :: |requests| == n && AllSendable(requests) ==> FrameEnd(Size(requests)) <= BUFFER) <==>
      n <= 43
  {
    TalkersSize(n);
    forall requests: seq<Request> | |requests| == n && AllSendable(requests)
      ensures Size(requests) <= START + 34 * n
    {
      SizeBetween(requests, 0);
      assert requests[..0] == [];
    }
  }

  lemma {:induction false} OneOfValues(ms: seq<Message>, k: nat)
    requires k < |ms|
    ensures |ms[k].three| <= Values(ms)
    decreases |ms|
  {
    if k < |ms| - 1 {
      OneOfValues(ms[..|ms| - 1], k);
    }
  }

  /** No count is full in a series of at most 255 calls. */
  lemma CountsFit(requests: seq<Request>, k: nat)
    requires k < |requests| <= 255
    ensures CountFits(requests, k)
  {
    var ms := SentAll(requests[..k]);
    var target := Target(ms, requests[k].attr, requests[k].check);
    EveryEventSent(requests[..k]);
    if target < |ms| {
      OneOfValues(ms, target);
    }
  }

  /** What a series of calls needs: room in every count octet it meets, and in the buffer. */
  ghost predicate SeriesFits(requests: seq<Request>) {
    && AllSendable(requests)
    && (forall k :: 0 <= k < |requests| ==> CountFits(requests, k))
    && Size(requests) <= BUFFER
  }

  // ----- sending

  /** The calls of one event on a participant's buffer (`mad_event`). */
  method SendSeries(p: Participant, requests: seq<Request>)
    requires p.Holds([]) && SeriesFits(requests)
    modifies p`sendPtr, p.sendBuf
    ensures p.Holds(SentAll(requests)) && p.sendPtr == Size(requests)
    ensures p.sendBuf[..START] == old(p.sendBuf[..START])
  {
    for k := 0 to |requests|
      invariant p.Holds(SentAll(requests[..k]))
      invariant p.sendBuf[..START] == old(p.sendBuf[..START])
    {
      SizeBetween(requests, k + 1);
      assert requests[..k + 1][..k] == requests[..k];
      assert CountFits(requests, k);
      var r := requests[k];
      assert Sendable(r);
      p.DoTx(r.attr, r.first, r.event, r.check, SentAll(requests[..k]));
    }
    assert requests[..|requests|] == requests;
    assert p.sendPtr == |p.Frame()|;
  }

  /** The octets behind the padding. */
  const TRAILER: seq<Byte> := [0x55, 0x55, 0x55, 0x55]

  function Padded(pdu: seq<Byte>): (frame: seq<Byte>)
    ensures |frame| == FrameEnd(|pdu|)
  {
    pdu + Zeros(FrameEnd(|pdu|) - 4 - |pdu|) + TRAILER
  }

  /** The frame made of a PDU: zeros behind it, four of them and 64 bytes at least, and then
      four times 0x55. */
  lemma PaddedExactly(pdu: seq<Byte>)
    ensures |Padded(pdu)| == (if |pdu| <= 60 then 68 else |pdu| + 8) && pdu <= Padded(pdu)
    ensures forall k :: |pdu| <= k < |Padded(pdu)| - 4 ==> Padded(pdu)[k] == 0
    ensures forall k :: |Padded(pdu)| - 4 <= k < |Padded(pdu)| ==> Padded(pdu)[k] == 0x55
  {
    var zeros := FrameEnd(|pdu|) - 4 - |pdu|;
    forall k | |pdu| <= k < |Padded(pdu)|
      ensures Padded(pdu)[k] == if k < |Padded(pdu)| - 4 then 0 else 0x55
    {
      if k < |pdu| + zeros {
        assert Padded(pdu)[k] == Zeros(zeros)[k - |pdu|];
      } else {
        assert Padded(pdu)[k] == TRAILER[k - |pdu| - zeros];
      }
    }
  }

  /** `mrp_pdu_ex_send`: the PDU, unless it is empty, padded and with four more octets; then
      the buffer is empty again. */
  method ExSend(p: Participant) returns (frame: seq<Byte>)
    requires p.Valid() && (p.sendPtr != START ==> FrameEnd(p.sendPtr) <= BUFFER)
    modifies p`sendPtr, p.sendBuf
    ensures p.Holds([]) && p.sendBuf[..START] == old(p.sendBuf[..START])
    ensures frame == if old(p.sendPtr) == START then [] else Padded(old(p.Frame()))
  {
    frame := [];
    ghost var pdu := p.Frame();
    if p.sendPtr != START {
      var end := if p.sendPtr + 4 < 64 then 64 else p.sendPtr + 4;
      p.Clear(end - p.sendPtr);
      p.sendBuf[end], p.sendBuf[end + 1], p.sendBuf[end + 2], p.sendBuf[end + 3] := 0x55, 0x55, 0x55, 0x55;
      frame := p.sendBuf[..end + 4];
      assert frame[..end] == pdu + Zeros(end - |pdu|);
    }
    p.sendPtr := START;
  }

  /** The frame that carries these messages behind the Ethernet header and the version octet. */
  function FrameOf(front: seq<Byte>, ms: seq<Message>): (frame: seq<Byte>)
    ensures |frame| == FrameEnd(|front| + |CodedAll(ms)|)
  {
    Padded(front + CodedAll(ms))
  }

  /** `mrp_tx`: the calls of one event, and the frame made of them, if there were any. */
  method Transmit(p: Participant, requests: seq<Request>) returns (frame: seq<Byte>)
    requires p.Holds([]) && SeriesFits(requests) && FrameEnd(Size(requests)) <= BUFFER
    modifies p`sendPtr, p.sendBuf
    ensures p.Holds([]) && p.sendBuf[..START] == old(p.sendBuf[..START])
    ensures frame == if requests == [] then [] else FrameOf(p.sendBuf[..START], SentAll(requests))
  {
    SendSeries(p, requests);
    SomethingSent(requests);
    frame := ExSend(p);
  }

  lemma SomethingSent(requests: seq<Request>)
    requires AllSendable(requests)
    ensures Size(requests) == START <==> requests == []
  {
    if requests != [] {
      SizeBetween(requests, 1);
      var r := requests[0];
      assert Sendable(r) && requests[..1][..0] == [];
      SentLength([], r.attr, r.first, r.event, r.check);
    }
  }

  // ----- and receiving

  /** The length of the Ethernet header, which the receiver is not given. */
  const ETHERNET: nat := 14

  /** What the receiver sees of a frame, with what lies behind it in memory. */
  function Received(frame: seq<Byte>, behind: seq<Byte>): seq<Byte>
    requires ETHERNET <= |frame|
  {
    frame[ETHERNET..] + behind
  }

  /** Receiving a frame as it was sent, with or without the padding and the last four octets:
      exactly the values of its messages, in order. */
  lemma RoundTrip(front: seq<Byte>, ms: seq<Message>, behind: seq<Byte>, len: nat)
    requires |front| == START && behind != [] && forall k :: 0 <= k < |ms| ==> WellFormed(ms[k])
    requires 1 + |CodedAll(ms)| <= len <= |FrameOf(front, ms)| - ETHERNET
    ensures WalkMessages(Received(FrameOf(front, ms), behind), 1, len) == SentVisitsAll(ms)
  {
    var ptr := START + |CodedAll(ms)|;
    var rest := Zeros(FrameEnd(ptr) - 4 - ptr) + TRAILER + behind;
    assert Received(FrameOf(front, ms), behind) == front[ETHERNET..] + CodedAll(ms) + rest;
    ReceivesSent(Received(FrameOf(front, ms), behind), front[ETHERNET..], ms, rest, len);
  }

  lemma {:induction false} VisitCount(ms: seq<Message>)
    ensures |SentVisitsAll(ms)| == Values(ms)
    decreases |ms|
  {
    if ms != [] {
      VisitCount(ms[1..]);
      ValuesFirst(ms);
    }
  }

  lemma {:induction false} ValuesFirst(ms: seq<Message>)
    requires ms != []
    ensures Values(ms) == |ms[0].three| + Values(ms[1..])
    decreases |ms|
  {
    if |ms| > 1 {
      assert ms[1..][..|ms| - 2] == ms[..|ms| - 1][1..];
      ValuesFirst(ms[..|ms| - 1]);
    }
  }

  /** From the calls of `doTx` to the visits of the receiver: a series of calls that never meets
      a full count is received as it was sent, one visit for every call, with the attribute
      and event of the call and the first value of the call that opened the message. */
  lemma EndToEnd(front: seq<Byte>, requests: seq<Request>, behind: seq<Byte>, len: nat)
    requires |front| == START && behind != [] && Size(requests) <= len + ETHERNET <= FrameEnd(Size(requests))
    requires forall k :: 0 <= k < |requests| ==>
      |requests[k].first| == FirstLength(requests[k].attr) && CountFits(requests, k)
    ensures var visits := WalkMessages(Received(FrameOf(front, SentAll(requests)), behind), 1, len);
      && visits == SentVisitsAll(SentAll(requests)) && |visits| == |requests|
      && AllValues(visits) && multiset(Told(visits)) == multiset(Asked(requests))
      && Explained(requests, visits)
  {
    RunWellFormed(requests);
    RoundTrip(front, SentAll(requests), behind, len);
    VisitCount(SentAll(requests));
    EveryEventSent(requests);
    SeriesVisited(requests);
  }

  /** In one transmission opportunity at most 24 machines send, once each: every series of at
      most 43 calls fits its counts, its buffer and its frame. */
  lemma Opportunity(requests: seq<Request>)
    requires AllSendable(requests) && |requests| <= 43
    ensures SeriesFits(requests) && FrameEnd(Size(requests)) <= BUFFER
  {
    AlwaysFits(|requests|);
    forall k | 0 <= k < |requests|
      ensures CountFits(requests, k)
    {
      CountsFit(requests, k);
    }
  }

  /** The whole way on the buffer: `mrp_tx`, and the receiver on the frame it made. */
  method TransmitAndReceive(p: Participant, requests: seq<Request>, behind: seq<Byte>,
                            len: nat) returns (visits: seq<Visit>)
    requires p.Holds([]) && SeriesFits(requests) && FrameEnd(Size(requests)) <= BUFFER
    requires requests != [] && behind != [] && Size(requests) <= len + ETHERNET <= FrameEnd(Size(requests))
    modifies p`sendPtr, p.sendBuf
    ensures p.Holds([])
    ensures visits == SentVisitsAll(SentAll(requests)) && |visits| == |requests|
    ensures AllValues(visits) && multiset(Told(visits)) == multiset(Asked(requests)) && Explained(requests, visits)
  {
    var frame := Transmit(p, requests);
    visits := Receive(frame[ETHERNET..] + behind, len);
    forall k | 0 <= k < |requests|
      ensures |requests[k].first| == FirstLength(requests[k].attr) && CountFits(requests, k)
    {
      assert Sendable(requests[k]);
    }
    EndToEnd(p.sendBuf[..START], requests, behind, len);
  }
}
