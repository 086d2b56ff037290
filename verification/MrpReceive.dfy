/**
 The receiver of MRP PDUs (msrp/vtss_msrp.c): nested walks over messages and vectors, which
 visit every value with its first value, index and events. On what the sender writes they
 visit exactly what was sent.
 */
module MrpReceive {
  import opened Octets
  import opened MrpAttributes
  import opened Wrappers
  import opened MrpPacking
  import opened MrpLayout
  import opened MrpPdu

  /** What the receiver hands to the state machines. */
  datatype Visit =
    | LeaveAllOf(attr: AttrType)
    | Value(attr: AttrType, first: seq<Byte>, index: nat, three: ThreeEvent, four: FourEvent)

  /** Two zero bytes end a list. */
  predicate More(s: seq<Byte>, pos: nat, end: nat)
    requires end < |s|
  {
    pos < end && (s[pos] != 0 || s[pos + 1] != 0)
  }

  // ----- one vector

  function NumValues(s: seq<Byte>, pos: nat): nat
    requires pos + 1 < |s|
  {
    s[pos] % 32 * 256 + s[pos + 1] as int
  }

  function LeaveAll(s: seq<Byte>, pos: nat): nat
    requires pos < |s|
  {
    s[pos] / 32
  }

  function FourLength(t: AttrType, n: nat): nat {
    if HasFourPacked(t) then (n + 3) / 4 else 0
  }

  /** The length of a vector of `n` values. */
  function VectorLength(t: AttrType, first: nat, n: nat): nat {
    2 + first + (n + 2) / 3 + FourLength(t, n)
  }

  function ValueAt(s: seq<Byte>, pos: nat, t: AttrType, first: nat, n: nat, i: nat): Visit
    requires i < n && pos + VectorLength(t, first, n) <= |s|
  {
    Value(t, s[pos + 2..pos + 2 + first], i, ThreeDigit(s[pos + 2 + first + i / 3], i % 3),
          if HasFourPacked(t) then FourDigit(s[pos + 2 + first + (n + 2) / 3 + i / 4], i % 4) else 0)
  }

  function VectorVisits(s: seq<Byte>, pos: nat, t: AttrType, first: nat): seq<Visit>
    requires pos + 1 < |s| && pos + VectorLength(t, first, NumValues(s, pos)) <= |s|
  {
    var n := NumValues(s, pos);
    (if LeaveAll(s, pos) != 0 then [LeaveAllOf(t)] else [])
      + seq(n, i requires 0 <= i < n => ValueAt(s, pos, t, first, n, i))
  }

  // ----- the walks

  /** Where a walk over the vectors of a message ends, and whether none of them claims more
      than the frame holds. */
  datatype Walk = Walk(visits: seq<Visit>, next: nat, ok: bool)

  function Joined(visits: seq<Visit>, w: Walk): Walk {
    Walk(visits + w.visits, w.next, w.ok)
  }

  /** The length of the vector at `pos`, as its header says. */
  function VectorEnd(s: seq<Byte>, pos: nat, t: AttrType, first: nat): (e: nat)
    requires pos + 1 < |s|
    ensures e > pos + 1
  {
    pos + VectorLength(t, first, NumValues(s, pos))
  }

  function WalkVectors(s: seq<Byte>, pos: nat, end: nat, t: AttrType, first: nat): (w: Walk)
    requires end < |s|
    ensures w.next >= pos
    decreases end - pos
  {
    if !More(s, pos, end) then Walk([], pos, true)
    else if VectorEnd(s, pos, t, first) > end then Walk([], pos, false)
    else Joined(VectorVisits(s, pos, t, first), WalkVectors(s, VectorEnd(s, pos, t, first), end, t, first))
  }

  /** The walk over one message: it is the last one if its type is unknown or one of its
      vectors overruns the frame. */
  datatype MessageStep = MessageStep(visits: seq<Visit>, next: nat, done: bool)

  function StepMessage(s: seq<Byte>, pos: nat, end: nat): (r: MessageStep)
    requires end < |s| && More(s, pos, end)
    ensures r.next > pos
  {
    match DecodeAttrType(s[pos])
    case None => MessageStep([], pos + 1, true)
    case Some(t) =>
      var w := WalkVectors(s, pos + 4, end, t, s[pos + 1]);
      MessageStep(w.visits, w.next + 2, !w.ok)
  }

  function WalkMessages(s: seq<Byte>, pos: nat, end: nat): seq<Visit>
    requires end < |s|
    decreases end - pos
  {
    if !More(s, pos, end) then []
    else
      var r := StepMessage(s, pos, end);
      r.visits + if r.done then [] else WalkMessages(s, r.next, end)
  }

  /** `vtss_msrp_receive`, up to the state machines. The byte behind the frame may be looked
      at, as the second of an end mark. */
  method Receive(frame: seq<Byte>, len: nat) returns (visits: seq<Visit>)
    requires len < |frame|
    ensures visits == WalkMessages(frame, 1, len)
  {
    visits := [];
    var msg, done := 1, false;
    ghost var total := WalkMessages(frame, 1, len);
    while !done && msg < len && (frame[msg] != 0 || frame[msg + 1] != 0)
      invariant visits + (if done then [] else WalkMessages(frame, msg, len)) == total
      decreases !done, len - msg
    {
      var step := ReceiveMessage(frame, msg, len);
      WalkStep(frame, msg, len, visits);
      visits, msg, done := visits + step.visits, step.next, step.done;
    }
    if !done { WalkStops(frame, msg, len); }
  }

  lemma WalkStep(s: seq<Byte>, msg: nat, end: nat, before: seq<Visit>)
    requires end < |s| && More(s, msg, end)
    ensures var r := StepMessage(s, msg, end);
      before + WalkMessages(s, msg, end) == (before + r.visits) + if r.done then [] else WalkMessages(s, r.next, end)
  {
    var r := StepMessage(s, msg, end);
    AssociateVisits(before, r.visits, if r.done then [] else WalkMessages(s, r.next, end));
  }

  lemma WalkStops(s: seq<Byte>, msg: nat, end: nat)
    requires end < |s| && !More(s, msg, end)
    ensures WalkMessages(s, msg, end) == []
  {
  }

  lemma AssociateVisits(p: seq<Visit>, q: seq<Visit>, r: seq<Visit>)
    ensures p + (q + r) == (p + q) + r
  {
  }

  /** One message. */
  method ReceiveMessage(frame: seq<Byte>, msg: nat, len: nat) returns (step: MessageStep)
    requires len < |frame| && More(frame, msg, len)
    ensures step == StepMessage(frame, msg, len)
  {
    var attr := DecodeAttrType(frame[msg]);
    if attr.None? { return MessageStep([], msg + 1, true); }
    var visits, next, ok := ReceiveVectors(frame, msg + 4, len, attr.value, frame[msg + 1]);
    step := MessageStep(visits, next + 2, !ok);
  }

  /** The inner loop: the vectors of one message. */
  method ReceiveVectors(frame: seq<Byte>, start: nat, len: nat, t: AttrType, first: nat)
    returns (visits: seq<Visit>, msg: nat, ok: bool)
    requires len < |frame|
    ensures Walk(visits, msg, ok) == WalkVectors(frame, start, len, t, first)
  {
    visits, msg, ok := [], start, true;
    ghost var total := WalkVectors(frame, start, len, t, first);
    while msg < len && (frame[msg] != 0 || frame[msg + 1] != 0)
      invariant Joined(visits, WalkVectors(frame, msg, len, t, first)) == total
      decreases len - msg
    {
      assert More(frame, msg, len);
      var n: nat := frame[msg] as int % 32 * 256 + frame[msg + 1] as int;
      var length := VectorLength(t, first, n);
      assert msg + length == VectorEnd(frame, msg, t, first);
      if msg + length > len { return visits, msg, false; }
      var more := VisitVector(frame, msg, t, first, n);
      WalkOn(frame, msg, len, t, first, visits, more);
      visits := visits + more;
      msg := msg + length;
    }
    assert !More(frame, msg, len);
  }

  lemma WalkOn(s: seq<Byte>, msg: nat, end: nat, t: AttrType, first: nat, before: seq<Visit>, more: seq<Visit>)
    requires end < |s| && More(s, msg, end) && VectorEnd(s, msg, t, first) <= end
    requires more == VectorVisits(s, msg, t, first)
    ensures Joined(before, WalkVectors(s, msg, end, t, first)) ==
      Joined(before + more, WalkVectors(s, VectorEnd(s, msg, t, first), end, t, first))
  {
    var w := WalkVectors(s, VectorEnd(s, msg, t, first), end, t, first);
    assert before + (more + w.visits) == (before + more) + w.visits;
  }

  /** The values of one vector. */
  method VisitVector(frame: seq<Byte>, msg: nat, t: AttrType, first: nat, n: nat) returns (visits: seq<Visit>)
    requires msg + 1 < |frame| && msg + VectorLength(t, first, n) <= |frame| && n == NumValues(frame, msg)
    ensures visits == VectorVisits(frame, msg, t, first)
  {
    var start := [];
    if frame[msg] / 32 != 0 { start := [LeaveAllOf(t)]; }
    visits := [];
    for i := 0 to n
      invariant |visits| == i
      invariant forall k :: 0 <= k < i ==> visits[k] == ValueAt(frame, msg, t, first, n, k)
    {
      var visit := VisitValue(frame, msg, t, first, n, i);
      visits := visits + [visit];
    }
    assert visits == seq(n, i requires 0 <= i < n => ValueAt(frame, msg, t, first, n, i));
    visits := start + visits;
  }

  method VisitValue(frame: seq<Byte>, msg: nat, t: AttrType, first: nat, n: nat, i: nat) returns (visit: Visit)
    requires i < n && msg + VectorLength(t, first, n) <= |frame|
    ensures visit == ValueAt(frame, msg, t, first, n, i)
  {
    var three := DecodeThreePacked(frame[msg + 2 + first + i / 3], i % 3);
    var four: FourEvent := 0;
    if HasFourPacked(t) {
      four := DecodeFourPacked(frame[msg + 2 + first + (n + 2) / 3 + i / 4], i % 4);
    }
    visit := Value(t, frame[msg + 2..msg + 2 + first], i, three, four);
  }

  // ----- receiving what was sent

  function Sender(m: Message, i: nat): Visit
    requires i < |m.three|
  {
    Value(m.attr, m.first, i, m.three[i], if HasFourPacked(m.attr) && i < |m.four| then m.four[i] else 0)
  }

  /** The values of a message, in order. */
  function SentVisits(m: Message): seq<Visit> {
    seq(|m.three|, i requires 0 <= i < |m.three| => Sender(m, i))
  }

  function SentVisitsAll(ms: seq<Message>): seq<Visit> {
    if ms == [] then [] else SentVisits(ms[0]) + SentVisitsAll(ms[1..])
  }

  /** A message lies in the frame at `pos`. */
  ghost predicate At(s: seq<Byte>, pos: nat, m: Message) {
    RawAt(s, pos, m.attr, |m.three|, m.first, ThreePacked(m.three), FourPacked(m.four))
  }

  function MessageLength(m: Message): nat {
    6 + VectorLength(m.attr, |m.first|, |m.three|)
  }

  lemma CodedAt(s: seq<Byte>, a: seq<Byte>, m: Message, b: seq<Byte>)
    requires WellFormed(m) && s == a + Coded(m) + b
    ensures At(s, |a|, m)
  {
    RawIn(s, a, m.attr, |m.three|, m.first, ThreePacked(m.three), FourPacked(m.four), b);
  }

  lemma CodedLength(m: Message)
    requires WellFormed(m)
    ensures |Coded(m)| == MessageLength(m)
  {
  }

  /** The receiver reads the i-th value of a message as it was encoded. */
  lemma ValueRead(s: seq<Byte>, pos: nat, m: Message, i: nat)
    requires WellFormed(m) && At(s, pos, m) && i < |m.three|
    ensures ValueAt(s, pos + 4, m.attr, |m.first|, |m.three|, i) == Sender(m, i)
  {
    ThreeDecodes(m.three, i);
    var v := pos + 6 + |m.first|;
    assert s[v + i / 3] == ThreePacked(m.three)[i / 3];
    if HasFourPacked(m.attr) {
      FourDecodes(m.four, i);
      assert s[v + (|m.three| + 2) / 3 + i / 4] == FourPacked(m.four)[i / 4];
    }
  }

  lemma VectorVisited(s: seq<Byte>, pos: nat, m: Message)
    requires WellFormed(m) && At(s, pos, m)
    ensures NumValues(s, pos + 4) == |m.three|
    ensures VectorVisits(s, pos + 4, m.attr, |m.first|) == SentVisits(m)
  {
    forall i | 0 <= i < |m.three|
      ensures ValueAt(s, pos + 4, m.attr, |m.first|, |m.three|, i) == SentVisits(m)[i]
    {
      ValueRead(s, pos, m, i);
    }
    var visits := seq(|m.three|, i requires 0 <= i < |m.three| => ValueAt(s, pos + 4, m.attr, |m.first|, |m.three|, i));
    assert visits == SentVisits(m);
    assert [] + visits == visits;
  }

  /** A vector with an end mark behind it. */
  lemma OneVector(s: seq<Byte>, p: nat, end: nat, t: AttrType, first: nat, e: nat)
    requires e <= end < |s| && e + 1 < |s| && s[e] == 0 && s[e + 1] == 0
    requires p < e && s[p + 1] != 0 && e == p + VectorLength(t, first, NumValues(s, p))
    ensures WalkVectors(s, p, end, t, first) == Walk(VectorVisits(s, p, t, first), e, true)
  {
    assert WalkVectors(s, e, end, t, first) == Walk([], e, true);
    assert More(s, p, end) && VectorEnd(s, p, t, first) == e;
    var v := VectorVisits(s, p, t, first);
    assert v + [] == v;
  }

  /** The walk over one message visits its values and goes on behind its end mark, even if the
      frame ends before that. */
  lemma MessageVisited(s: seq<Byte>, pos: nat, m: Message, next: nat, end: nat)
    requires WellFormed(m) && At(s, pos, m) && next == pos + MessageLength(m) <= end + 2 && end < |s|
    ensures More(s, pos, end)
    ensures StepMessage(s, pos, end) == MessageStep(SentVisits(m), next, false)
  {
    VectorVisited(s, pos, m);
    OneVector(s, pos + 4, end, m.attr, |m.first|, next - 2);
  }

  lemma MessageIsAt(s: seq<Byte>, a: seq<Byte>, ms: seq<Message>, rest: seq<Byte>, k: nat)
    requires s == a + CodedAll(ms) + rest && k < |ms| && WellFormed(ms[k])
    ensures At(s, |a + CodedAll(ms[..k])|, ms[k])
    ensures |a + CodedAll(ms[..k + 1])| == |a + CodedAll(ms[..k])| + MessageLength(ms[k])
  {
    FlatBetween(s, a, ms, k, rest, Coded);
    CodedAt(s, a + CodedAll(ms[..k]), ms[k], CodedAll(ms[k + 1..]) + rest);
    FlatUpTo(ms, k, Coded);
    CodedLength(ms[k]);
  }

  lemma StepWalked(s: seq<Byte>, pos: nat, visits: seq<Visit>, next: nat, end: nat)
    requires end < |s| && More(s, pos, end) && StepMessage(s, pos, end) == MessageStep(visits, next, false)
    ensures WalkMessages(s, pos, end) == visits + WalkMessages(s, next, end)
  {
  }

  /** The same for the walk over all messages. */
  lemma MessageWalked(s: seq<Byte>, pos: nat, m: Message, next: nat, end: nat)
    requires WellFormed(m) && At(s, pos, m) && next == pos + MessageLength(m) <= end + 2 && end < |s|
    ensures WalkMessages(s, pos, end) == SentVisits(m) + WalkMessages(s, next, end)
  {
    MessageVisited(s, pos, m, next, end);
    StepWalked(s, pos, SentVisits(m), next, end);
  }

  /** A walk that takes one message after the other. */
  lemma {:induction false} Composed(walk: nat -> seq<Visit>, at: seq<nat>, ms: seq<Message>, k: nat)
    requires |at| == |ms| + 1 && k <= |ms| && walk(at[|ms|]) == []
    requires forall j :: 0 <= j < |ms| ==> walk(at[j]) == SentVisits(ms[j]) + walk(at[j + 1])
    ensures walk(at[k]) == SentVisitsAll(ms[k..])
    decreases |ms| - k
  {
    if k < |ms| {
      Composed(walk, at, ms, k + 1);
      assert ms[k..][0] == ms[k] && ms[k..][1..] == ms[k + 1..];
      assert walk(at[k]) == SentVisits(ms[k]) + walk(at[k + 1]);
    }
  }

  /** Why 255 is the limit: of a message that took a 256th value the receiver sees none, for
      its header reads as an end mark. */
  lemma WrappedUnseen(s: seq<Byte>, a: seq<Byte>, m: Message, b: seq<Byte>, end: nat)
    requires |m.first| == FirstLength(m.attr) && |m.three| == 256
    requires |m.four| == (if HasFourPacked(m.attr) then 256 else 0)
    requires s == a + Coded(m) + b && end < |s|
    ensures WalkVectors(s, |a| + 4, end, m.attr, |m.first|) == Walk([], |a| + 4, true)
  {
    CountIn(s, a, m.attr, |m.three|, m.first, ThreePacked(m.three), FourPacked(m.four), b);
  }

  /** Receiving what was sent: behind any header, the walk visits exactly the values of the
      messages in order, provided what follows them reads as an end mark. */
  lemma ReceivesSent(s: seq<Byte>, a: seq<Byte>, ms: seq<Message>, rest: seq<Byte>, end: nat)
    requires s == a + CodedAll(ms) + rest && |a| + |CodedAll(ms)| <= end < |s|
    requires forall k :: 0 <= k < |ms| ==> WellFormed(ms[k])
    requires |rest| >= 2 && rest[0] == 0 && rest[1] == 0
    ensures WalkMessages(s, |a|, end) == SentVisitsAll(ms)
  {
    var at := Offsets(s, a, ms, rest, |ms|);
    assert ms[..|ms|] == ms && ms[0..] == ms;
    EndMarkBehind(s, a + CodedAll(ms), rest);
    WalkStops(s, at[|ms|], end);
    LaidVisited(s, at, ms, end);
  }

  /** The messages lie in the frame one behind the other. */
  ghost predicate Laid(s: seq<Byte>, at: seq<nat>, ms: seq<Message>, n: nat)
    requires n <= |ms| && |at| == n + 1
  {
    forall k :: 0 <= k < n ==> WellFormed(ms[k]) && At(s, at[k], ms[k]) && at[k + 1] == at[k] + MessageLength(ms[k])
  }

  lemma {:induction false} Offsets(s: seq<Byte>, a: seq<Byte>, ms: seq<Message>, rest: seq<Byte>,
                                   n: nat) returns (at: seq<nat>)
    requires s == a + CodedAll(ms) + rest && n <= |ms| && forall k :: 0 <= k < |ms| ==> WellFormed(ms[k])
    ensures |at| == n + 1 && at[0] == |a| && at[n] == |a + CodedAll(ms[..n])| && Laid(s, at, ms, n)
  {
    if n == 0 {
      at := [|a|];
      assert ms[..0] == [];
    } else {
      var before := Offsets(s, a, ms, rest, n - 1);
      MessageIsAt(s, a, ms, rest, n - 1);
      at := before + [before[n - 1] + MessageLength(ms[n - 1])];
      LaidOneMore(s, before, at, ms, n - 1);
    }
  }

  lemma LaidOneMore(s: seq<Byte>, before: seq<nat>, at: seq<nat>, ms: seq<Message>, n: nat)
    requires n < |ms| && |before| == n + 1 && Laid(s, before, ms, n) && WellFormed(ms[n]) && At(s, before[n], ms[n])
    requires at == before + [before[n] + MessageLength(ms[n])]
    ensures Laid(s, at, ms, n + 1)
  {
    forall k | 0 <= k < n + 1
      ensures WellFormed(ms[k]) && At(s, at[k], ms[k]) && at[k + 1] == at[k] + MessageLength(ms[k])
    {
      if k < n {
        assert at[k] == before[k] && at[k + 1] == before[k + 1];
      }
    }
  }

  lemma {:induction false} Ascending(s: seq<Byte>, at: seq<nat>, ms: seq<Message>, k: nat)
    requires |at| == |ms| + 1 && Laid(s, at, ms, |ms|) && k <= |ms|
    ensures at[k] <= at[|ms|]
    decreases |ms| - k
  {
    if k < |ms| {
      Ascending(s, at, ms, k + 1);
      assert at[k + 1] == at[k] + MessageLength(ms[k]);
    }
  }

  lemma LaidVisited(s: seq<Byte>, at: seq<nat>, ms: seq<Message>, end: nat)
    requires |at| == |ms| + 1 && Laid(s, at, ms, |ms|) && at[|ms|] <= end + 2 && end < |s|
    requires WalkMessages(s, at[|ms|], end) == []
    ensures WalkMessages(s, at[0], end) == SentVisitsAll(ms)
  {
    var walk := (p: nat) => WalkMessages(s, p, end);
    forall k | 0 <= k < |ms|
      ensures walk(at[k]) == SentVisits(ms[k]) + walk(at[k + 1])
    {
      Ascending(s, at, ms, k + 1);
      MessageWalked(s, at[k], ms[k], at[k + 1], end);
    }
    Composed(walk, at, ms, 0);
    assert ms[0..] == ms;
  }

  lemma EndMarkBehind(s: seq<Byte>, a: seq<Byte>, rest: seq<Byte>)
    requires s == a + rest && |rest| >= 2 && rest[0] == 0 && rest[1] == 0
    ensures |a| + 1 < |s| && s[|a|] == 0 && s[|a| + 1] == 0
  {
  }

  // ----- what the sender does not write

  /** A vector with any LeaveAll bits is a LeaveAll of its attribute type first, and then the
      values as without them. */
  lemma LeaveAllVisited(s: seq<Byte>, pos: nat, m: Message, bits: nat, next: nat, end: nat)
    requires WellFormed(m) && 1 <= bits <= 7 && pos + 4 < |s| && s[pos + 4] == 32 * bits
    requires At(s[pos + 4 := 0], pos, m) && next == pos + MessageLength(m) <= end + 2 && end < |s|
    ensures More(s, pos, end)
    ensures StepMessage(s, pos, end) == MessageStep([LeaveAllOf(m.attr)] + SentVisits(m), next, false)
  {
    BitsApart(bits, s[pos + 5]);
    assert NumValues(s, pos + 4) == |m.three| && LeaveAll(s, pos + 4) == bits;
    forall i | 0 <= i < |m.three|
      ensures ValueAt(s, pos + 4, m.attr, |m.first|, |m.three|, i) == SentVisits(m)[i]
    {
      ValueBehindBits(s, pos, m, i);
    }
    var visits := seq(|m.three|, i requires 0 <= i < |m.three| => ValueAt(s, pos + 4, m.attr, |m.first|, |m.three|, i));
    assert visits == SentVisits(m);
    OneVector(s, pos + 4, end, m.attr, |m.first|, next - 2);
  }

  lemma ValueBehindBits(s: seq<Byte>, pos: nat, m: Message, i: nat)
    requires WellFormed(m) && pos + 4 < |s| && At(s[pos + 4 := 0], pos, m) && i < |m.three|
    ensures ValueAt(s, pos + 4, m.attr, |m.first|, |m.three|, i) == Sender(m, i)
  {
    var t := s[pos + 4 := 0];
    ValueRead(t, pos, m, i);
    assert s[pos + 6..pos + 6 + |m.first|] == t[pos + 6..pos + 6 + |m.first|];
  }

  lemma BitsApart(bits: nat, low: Byte)
    ensures 32 * bits % 32 * 256 + low == low && 32 * bits / 32 == bits
  {
  }

  /** A message of an unknown type ends the reception. */
  lemma UnknownEnds(s: seq<Byte>, pos: nat, end: nat)
    requires end < |s| && pos < end && (s[pos] == 0 || s[pos] > 4)
    ensures WalkMessages(s, pos, end) == []
  {
  }

  /** So does a message whose values the frame does not hold: none of them is visited. */
  lemma OverrunEnds(s: seq<Byte>, pos: nat, m: Message, end: nat)
    requires WellFormed(m) && At(s, pos, m) && end < |s| && end < pos + MessageLength(m) - 2
    ensures WalkMessages(s, pos, end) == []
  {
    if pos + 4 < end {
      assert VectorEnd(s, pos + 4, m.attr, |m.first|) == pos + MessageLength(m) - 2;
      assert WalkVectors(s, pos + 4, end, m.attr, |m.first|) == Walk([], pos + 4, false);
    }
  }

  /** A frame that is cut somewhere is received up to the cut: exactly the values of the
      messages that lie in it, but for the end mark of the last of them. */
  lemma ReceivesCut(s: seq<Byte>, a: seq<Byte>, ms: seq<Message>, k: nat, rest: seq<Byte>, end: nat)
    requires s == a + CodedAll(ms) + rest && forall j :: 0 <= j < |ms| ==> WellFormed(ms[j])
    requires k < |ms| && |a + CodedAll(ms[..k])| <= end + 2 && end < |a + CodedAll(ms[..k + 1])| - 2 && end < |s|
    ensures WalkMessages(s, |a|, end) == SentVisitsAll(ms[..k])
  {
    FlatConcat(ms[..k], ms[k..], Coded);
    assert ms == ms[..k] + ms[k..] && ms[..k][..k] == ms[..k];
    AssociateBytes(a, CodedAll(ms[..k]), CodedAll(ms[k..]), rest);
    var at := Offsets(s, a, ms[..k], CodedAll(ms[k..]) + rest, k);
    MessageIsAt(s, a, ms, rest, k);
    OverrunEnds(s, at[k], ms[k], end);
    LaidVisited(s, at, ms[..k], end);
  }

  lemma AssociateBytes(p: seq<Byte>, q: seq<Byte>, r: seq<Byte>, t: seq<Byte>)
    ensures p + (q + r) + t == p + q + (r + t)
  {
  }
}
