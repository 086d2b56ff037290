/**
 The send buffer of an MRP participant (msrp/vtss_msrp.c): `doTx` walks the messages of the
 PDU under construction, merges the event into one of them by in-place insertion, or appends
 a new message.
 */
module MrpPdu {
  import opened Octets
  import opened MrpAttributes
  import opened MrpPacking
  import opened MrpLayout

  /** A message: the first value and an event for each of the consecutive values. */
  datatype Message = Message(attr: AttrType, first: seq<Byte>, three: seq<ThreeEvent>, four: seq<FourEvent>)

  /** What a PDU can say: one to 255 values, listeners with four-packed events. */
  ghost predicate WellFormed(m: Message) {
    && |m.first| == FirstLength(m.attr)
    && |m.four| == (if HasFourPacked(m.attr) then |m.three| else 0)
    && 1 <= |m.three| <= 255
  }

  /** The same, or the empty message that `create_empty_msg` makes. */
  ghost predicate Extendable(m: Message) {
    && |m.first| == FirstLength(m.attr)
    && |m.four| == (if HasFourPacked(m.attr) then |m.three| else 0)
    && |m.three| <= 255
  }

  function Coded(m: Message): seq<Byte> {
    Raw(m.attr, |m.three|, m.first, ThreePacked(m.three), FourPacked(m.four))
  }

  function CodedAll(ms: seq<Message>): seq<Byte> {
    Flat(ms, Coded)
  }

  // ----- what doTx means

  /** The test whether a declaration continues a message, of the values it already has and its
      first value (`check_talker_merge`, `check_listener_merge`). */
  type Check = (nat, seq<Byte>) -> bool

  /** The test that no message passes. */
  const NEVER: Check := (count, first) => false

  predicate Mergeable(m: Message, attr: AttrType, check: Check) {
    m.attr == attr && attr != Domain && check(|m.three|, m.first)
  }

  /** An empty message takes any declaration of its type. */
  predicate Takes(m: Message, attr: AttrType, check: Check) {
    m.attr == attr && (m.three == [] || Mergeable(m, attr, check))
  }

  /** The first message that takes the event; their number if there is none. */
  function Target(ms: seq<Message>, attr: AttrType, check: Check): (k: nat)
    ensures k <= |ms|
    ensures k < |ms| ==> Mergeable(ms[k], attr, check)
    ensures forall j :: 0 <= j < k ==> !Mergeable(ms[j], attr, check)
  {
    if ms == [] then 0
    else if Mergeable(ms[0], attr, check) then 0
    else
      var k := Target(ms[1..], attr, check);
      assert forall j :: 1 <= j < k + 1 ==> ms[j] == ms[1..][j - 1];
      k + 1
  }

  const READY: FourEvent := 2

  function Extended(m: Message, event: ThreeEvent): Message {
    m.(three := m.three + [event], four := if HasFourPacked(m.attr) then m.four + [READY] else m.four)
  }

  /** The messages after an event is sent: appended to the first message that takes it, or in
      a message of its own. */
  function Sent(ms: seq<Message>, attr: AttrType, first: seq<Byte>, event: ThreeEvent, check: Check): seq<Message> {
    var k := Target(ms, attr, check);
    if k < |ms| then ms[k := Extended(ms[k], event)] else ms + [Extended(Message(attr, first, [], []), event)]
  }

  /** A message on the wire: type, length of the first value, list length, no LeaveAll, count,
      first value, events, end mark. */
  lemma WireHeader(m: Message)
    requires WellFormed(m)
    ensures var c, f, n := Coded(m), |m.first|, |m.three|;
      && |c| == 6 + f + (n + 2) / 3 + (if m.attr == Listener then (n + 3) / 4 else 0) + 2
      && c[0] == (match m.attr case TalkerAdvertise => 1 case TalkerFailed => 2 case Listener => 3 case Domain => 4)
      && c[1] == f == (match m.attr
                       case TalkerAdvertise => 25 case TalkerFailed => 34 case Listener => 8 case Domain => 4)
      && 256 * c[2] + c[3] as int == |c| - 4 && c[4] == 0 && c[5] == n && c[6..6 + f] == m.first
      && c[|c| - 2] == 0 && c[|c| - 1] == 0
  {
    var c := Coded(m);
    assert c == [] + c + [];
    CountIn(c, [], m.attr, |m.three|, m.first, ThreePacked(m.three), FourPacked(m.four), []);
    RawIn(c, [], m.attr, |m.three|, m.first, ThreePacked(m.three), FourPacked(m.four), []);
  }

  /** The events on the wire: three to a byte in base 6, and a listener's four to a byte in
      base 4 behind them. */
  lemma WireEvents(m: Message, i: nat)
    requires WellFormed(m) && i < |m.three|
    ensures |Coded(m)| > 6 + |m.first| + i / 3
    ensures m.three[i] == (var b := Coded(m)[6 + |m.first| + i / 3];
      if i % 3 == 0 then b / 36 % 6 else if i % 3 == 1 then b / 6 % 6 else b % 6)
    ensures m.attr == Listener ==>
      && |Coded(m)| > 6 + |m.first| + (|m.three| + 2) / 3 + i / 4
      && m.four[i] == (var b := Coded(m)[6 + |m.first| + (|m.three| + 2) / 3 + i / 4];
           if i % 4 == 0 then b / 64 % 4 else if i % 4 == 1 then b / 16 % 4 else if i % 4 == 2 then b / 4 % 4
           else b % 4)
  {
    var three, four := ThreePacked(m.three), FourPacked(m.four);
    assert Coded(m) == [] + Coded(m) + [];
    VectorIn(Coded(m), [], m.attr, |m.three|, m.first, three, four, []);
    ThreeDecodes(m.three, i);
    assert three[i / 3] == Coded(m)[6 + |m.first| + i / 3];
    if m.attr == Listener {
      FourDecodes(m.four, i);
      assert four[i / 4] == Coded(m)[6 + |m.first| + |three| + i / 4];
    }
  }

  /** The count octet of a message tells its number of values exactly if there are at most
      255: the octet is stored without its carry. */
  lemma CountIsRight(m: Message)
    requires |m.first| <= 34 && |m.three| <= 258 && |m.four| <= 256
    ensures |Coded(m)| >= 6 && Coded(m)[4] == 0
    ensures Coded(m)[5] == |m.three| <==> |m.three| <= 255
  {
    assert Coded(m) == [] + Coded(m) + [];
    CountIn(Coded(m), [], m.attr, |m.three|, m.first, ThreePacked(m.three), FourPacked(m.four), []);
  }

  /** Sending keeps the messages well-formed exactly if the message that takes the event has
      fewer than 255 values. */
  lemma SentWellFormed(ms: seq<Message>, attr: AttrType, first: seq<Byte>, event: ThreeEvent, check: Check)
    requires (forall k :: 0 <= k < |ms| ==> WellFormed(ms[k])) && |first| == FirstLength(attr)
    ensures var k, after := Target(ms, attr, check), Sent(ms, attr, first, event, check);
      (forall j :: 0 <= j < |after| ==> WellFormed(after[j])) <==> (k < |ms| ==> |ms[k].three| < 255)
  {
    var k, after := Target(ms, attr, check), Sent(ms, attr, first, event, check);
    if k < |ms| {
      assert after[k] == Extended(ms[k], event);
    } else {
      assert forall j :: 0 <= j < |ms| ==> after[j] == ms[j];
    }
  }

  // ----- how much room it takes

  /** The bytes that one more value takes in a message. */
  function Growth(m: Message): nat {
    (if |m.three| % 3 == 0 then 1 else 0) + (if HasFourPacked(m.attr) && |m.four| % 4 == 0 then 1 else 0)
  }

  /** And in a PDU: a message of its own if no message takes it. */
  function Cost(ms: seq<Message>, attr: AttrType, check: Check): nat {
    var k := Target(ms, attr, check);
    if k < |ms| then Growth(ms[k]) else FirstLength(attr) + 8 + Growth(Message(attr, [], [], []))
  }

  lemma OneMore(n: nat)
    ensures (n + 3) / 3 == (n + 2) / 3 + (if n % 3 == 0 then 1 else 0)
    ensures (n + 4) / 4 == (n + 3) / 4 + (if n % 4 == 0 then 1 else 0)
  {
  }

  lemma CodedSize(m: Message)
    ensures |Coded(m)| == |m.first| + (|m.three| + 2) / 3 + (|m.four| + 3) / 4 + 8
  {
  }

  lemma ExtendedLength(m: Message, event: ThreeEvent)
    ensures |Coded(Extended(m, event))| == |Coded(m)| + Growth(m)
  {
    CodedSize(m);
    CodedSize(Extended(m, event));
    OneMore(|m.three|);
    OneMore(|m.four|);
  }

  lemma NewLength(attr: AttrType, first: seq<Byte>, event: ThreeEvent)
    requires |first| == FirstLength(attr)
    ensures |Coded(Extended(Message(attr, first, [], []), event))| ==
      FirstLength(attr) + 8 + Growth(Message(attr, [], [], []))
  {
    ExtendedLength(Message(attr, first, [], []), event);
  }

  /** A call of `doTx` takes exactly this much room, which is at most 34 bytes. */
  lemma SentLength(ms: seq<Message>, attr: AttrType, first: seq<Byte>, event: ThreeEvent, check: Check)
    requires |first| == FirstLength(attr)
    ensures |CodedAll(Sent(ms, attr, first, event, check))| == |CodedAll(ms)| + Cost(ms, attr, check)
    ensures attr != TalkerFailed ==> Cost(ms, attr, check) <= 34
  {
    var k := Target(ms, attr, check);
    if k < |ms| {
      FlatAround(ms, k, Coded);
      FlatReplaced(ms, k, Extended(ms[k], event), Coded);
      ExtendedLength(ms[k], event);
    } else {
      FlatAppend(ms, Extended(Message(attr, first, [], []), event), Coded);
      NewLength(attr, first, event);
    }
  }

  // ----- the buffer

  lemma ThreeStep(s: seq<Byte>, a: seq<Byte>, attr: AttrType, first: seq<Byte>, three: seq<ThreeEvent>,
                  four: seq<Byte>, b: seq<Byte>, event: ThreeEvent)
    requires |three| <= 255 && |first| <= 34 && |four| <= 64
    requires s == a + Raw(attr, |three|, first, ThreePacked(three), four) + b
    ensures Ready(s, |a|, ThreeVector(|a|, |first|, |three|), |three| % 3 == 0)
    ensures WithThree(s, |a|, |first|, |three|, event) ==
      a + Raw(attr, |three|, first, ThreePacked(three + [event]), four) + b
  {
    ThreeEncoded(s, a, attr, |three|, first, ThreePacked(three), four, b, event);
    ThreeAppends(three, event);
  }

  lemma FourStep(s: seq<Byte>, a: seq<Byte>, attr: AttrType, first: seq<Byte>, three: seq<Byte>, four: seq<FourEvent>,
                 b: seq<Byte>, event: FourEvent)
    requires |four| <= 255 && |first| <= 34 && |three| == (|four| + 3) / 3
    requires s == a + Raw(attr, |four|, first, three, FourPacked(four)) + b
    ensures Ready(s, |a|, FourVector(|a|, |first|, |four|), |four| % 4 == 0)
    ensures WithFour(s, |a|, |first|, |four|, event) ==
      a + Raw(attr, |four|, first, three, FourPacked(four + [event])) + b
  {
    FourEncoded(s, a, attr, |four|, first, three, FourPacked(four), b, event);
    FourAppends(four, event);
  }

  lemma ExtendedCoded(attr: AttrType, first: seq<Byte>, three: seq<ThreeEvent>, four: seq<FourEvent>, event: ThreeEvent,
                      grown: seq<FourEvent>)
    requires grown == if HasFourPacked(attr) then four + [READY] else four
    ensures Coded(Extended(Message(attr, first, three, four), event)) ==
      Raw(attr, |three| + 1, first, ThreePacked(three + [event]), FourPacked(grown))
  {
  }

  function Zeros(n: nat): (s: seq<Byte>)
    ensures |s| == n
  {
    seq(n, _ => 0)
  }

  lemma EmptyRaw(s: seq<Byte>, t: seq<Byte>, attr: AttrType, list: nat, header: seq<Byte>)
    requires list == FirstLength(attr) + 4 && t == s + Zeros(4 + list)
    requires header == [EncodeAttrType(attr), FirstLength(attr)] + Short(list)
    ensures t[..|s|] + header + t[|s| + 4..] == s + Raw(attr, 0, Zeros(FirstLength(attr)), [], [])
  {
    assert t[..|s|] == s && t[|s| + 4..] == Zeros(list);
    assert Zeros(list) == [0, 0] + Zeros(FirstLength(attr)) + [0, 0];
    assert Raw(attr, 0, Zeros(FirstLength(attr)), [], []) == header + ([0, 0] + Zeros(FirstLength(attr)) + [0, 0]);
  }

  const BUFFER: nat := 1518
  const START: nat := 15

  lemma Moved(was: seq<Byte>, now: seq<Byte>, dest: nat, src: nat, n: nat)
    requires |now| == |was| && dest + n <= |was| && src + n <= |was|
    requires forall i :: 0 <= i < dest || dest + n <= i < |was| ==> now[i] == was[i]
    requires forall i :: dest <= i < dest + n ==> now[i] == was[src + (i - dest)]
    ensures now == was[..dest] + was[src..src + n] + was[dest + n..]
  {
  }

  lemma Written(was: seq<Byte>, now: seq<Byte>, pos: nat, bytes: seq<Byte>)
    requires |now| == |was| && pos + |bytes| <= |was|
    requires forall k :: 0 <= k < |bytes| ==> now[pos + k] == bytes[k]
    requires forall k :: 0 <= k < pos || pos + |bytes| <= k < |was| ==> now[k] == was[k]
    ensures now == was[..pos] + bytes + was[pos + |bytes|..]
  {
    var after := was[..pos] + bytes + was[pos + |bytes|..];
    forall k | 0 <= k < |was|
      ensures now[k] == after[k]
    {
      if pos <= k < pos + |bytes| {
        assert now[pos + (k - pos)] == bytes[k - pos];
      }
    }
  }

  class Participant {
    const sendBuf: array<Byte>
    var sendPtr: nat

    ghost predicate Valid()
      reads this
    {
      sendBuf.Length == BUFFER && START <= sendPtr <= BUFFER
    }

    /** Everything up to the send pointer: the Ethernet and protocol headers and the PDU. */
    ghost function Frame(): seq<Byte>
      requires Valid()
      reads this, sendBuf
    {
      sendBuf[..sendPtr]
    }

    /** The PDU consists of exactly these messages. */
    ghost predicate Holds(ms: seq<Message>)
      reads this, sendBuf
    {
      Valid() && Frame() == sendBuf[..START] + CodedAll(ms) && (forall k :: 0 <= k < |ms| ==> WellFormed(ms[k]))
    }

    constructor ()
      ensures Valid() && fresh(sendBuf) && Holds([])
    {
      sendBuf := new Byte[BUFFER](_ => 0);
      sendPtr := START;
    }

    /** `mrp_pdu_full`. */
    predicate Full()
      reads this
    {
      BUFFER < sendPtr + 32 + 2
    }

    /** It tells exactly whether some call of `doTx` would overrun the buffer: the costliest is
        a talker that no message takes. */
    lemma FullExactly(ms: seq<Message>)
      requires Holds(ms)
      ensures Full() <==> exists attr, first, event, check ::
        attr != TalkerFailed && |first| == FirstLength(attr)
          && BUFFER < START + |CodedAll(Sent(ms, attr, first, event, check))|
    {
      if Full() {
        SentLength(ms, TalkerAdvertise, Zeros(25), 0, NEVER);
        TargetNone(ms, TalkerAdvertise, NEVER);
      } else {
        forall attr, first, event, check | attr != TalkerFailed && |first| == FirstLength(attr)
          ensures START + |CodedAll(Sent(ms, attr, first, event, check))| <= BUFFER
        {
          SentLength(ms, attr, first, event, check);
        }
      }
    }

    /** `mymemmove`. */
    method MoveMemory(dest: nat, src: nat, n: nat)
      requires dest + n <= sendBuf.Length && src + n <= sendBuf.Length
      modifies sendBuf
      ensures sendBuf[..] == old(sendBuf[..dest] + sendBuf[src..src + n] + sendBuf[dest + n..])
    {
      ghost var was := sendBuf[..];
      if src < dest < src + n {
        var k := n;
        while k > 0
          invariant 0 <= k <= n
          invariant forall i :: 0 <= i < dest + k || dest + n <= i < sendBuf.Length ==> sendBuf[i] == was[i]
          invariant forall i :: dest + k <= i < dest + n ==> sendBuf[i] == was[src + (i - dest)]
        {
          k := k - 1;
          sendBuf[dest + k] := sendBuf[src + k];
        }
      } else {
        for k := 0 to n
          invariant forall i :: 0 <= i < dest || dest + k <= i < sendBuf.Length ==> sendBuf[i] == was[i]
          invariant forall i :: dest <= i < dest + k ==> sendBuf[i] == was[src + (i - dest)]
        {
          sendBuf[dest + k] := sendBuf[src + k];
        }
      }
      Moved(was, sendBuf[..], dest, src, n);
    }

    /** The tail from `vector` on moves up and leaves a zero behind. */
    method ShiftTail(vector: nat)
      requires Valid() && vector <= sendPtr < BUFFER
      modifies this`sendPtr, sendBuf
      ensures Valid() && sendPtr == old(sendPtr) + 1
      ensures Frame() == old(Frame()[..vector] + [0] + Frame()[vector..])
    {
      ghost var s := Frame();
      MoveMemory(vector + 1, vector, sendPtr - vector);
      assert sendBuf[..sendPtr + 1] == s[..vector] + [sendBuf[vector]] + s[vector..];
      sendPtr := sendPtr + 1;
      sendBuf[vector] := 0;
    }

    /** Makes room for a vector byte: the tail moves up, the list length grows. */
    method InsertZero(buf: nat, vector: nat)
      requires Valid() && Insertable(Frame(), buf, vector) && sendPtr < BUFFER
      modifies this`sendPtr, sendBuf
      ensures Valid() && sendPtr == old(sendPtr) + 1 && Frame() == Inserted(old(Frame()), buf, vector)
    {
      var length := ReadListLength(buf) + 1;
      ShiftTail(vector);
      Store(buf + 2, length / 256 % 256);
      Store(buf + 3, length % 256);
      Store(buf + 4 + length - 2, 0);
      Store(buf + 4 + length - 1, 0);
    }

    method Store(i: nat, value: Byte)
      requires Valid() && i < sendPtr
      modifies sendBuf
      ensures Frame() == old(Frame())[i := value]
    {
      sendBuf[i] := value;
    }

    /** `mrp_encode_three_packed_event`. */
    method EncodeThreePackedEvent(buf: nat, event: ThreeEvent, attr: AttrType)
      requires Valid() && buf + 6 <= sendPtr && (sendBuf[buf + 5] % 3 == 0 ==> sendPtr < BUFFER)
      requires var n := sendBuf[buf + 5]; Ready(Frame(), buf, ThreeVector(buf, FirstLength(attr), n), n % 3 == 0)
      modifies this`sendPtr, sendBuf
      ensures Valid() && sendPtr == old(sendPtr) + if old(sendBuf[buf + 5]) % 3 == 0 then 1 else 0
      ensures Frame() == WithThree(old(Frame()), buf, FirstLength(attr), old(sendBuf[buf + 5]), event)
    {
      var n: nat := sendBuf[buf + 5];
      var vector := buf + 4 + 2 + FirstLength(attr) + n / 3;
      if n % 3 == 0 {
        InsertZero(buf, vector);
      }
      ghost var grown := Frame();
      var packed := EncodeThreePacked(event, n % 3, sendBuf[vector]);
      Store(vector, packed % 256);
      assert Frame() == AddAt(grown, vector, ThreeAmount(event, n));
    }

    /** `mrp_encode_four_packed_event`. */
    method EncodeFourPackedEvent(buf: nat, event: FourEvent, attr: AttrType)
      requires Valid() && buf + 6 <= sendPtr && (sendBuf[buf + 5] % 4 == 0 ==> sendPtr < BUFFER)
      requires var n := sendBuf[buf + 5]; Ready(Frame(), buf, FourVector(buf, FirstLength(attr), n), n % 4 == 0)
      modifies this`sendPtr, sendBuf
      ensures Valid() && sendPtr == old(sendPtr) + if old(sendBuf[buf + 5]) % 4 == 0 then 1 else 0
      ensures Frame() == WithFour(old(Frame()), buf, FirstLength(attr), old(sendBuf[buf + 5]), event)
    {
      var n: nat := sendBuf[buf + 5];
      var vector := buf + 4 + 2 + FirstLength(attr) + (n + 3) / 3 + n / 4;
      if n % 4 == 0 {
        InsertZero(buf, vector);
      }
      ghost var grown := Frame();
      var packed := EncodeFourPacked(event, n % 4, sendBuf[vector]);
      Store(vector, packed % 256);
      assert Frame() == AddAt(grown, vector, FourAmount(event, n));
    }

    /** Appends zeros. */
    method Clear(length: nat)
      requires Valid() && sendPtr + length <= BUFFER
      modifies this`sendPtr, sendBuf
      ensures Valid() && sendPtr == old(sendPtr) + length && Frame() == old(Frame()) + Zeros(length)
    {
      ghost var was := Frame();
      for i := 0 to length
        invariant sendBuf[..sendPtr] == was
        invariant forall k :: sendPtr <= k < sendPtr + i ==> sendBuf[k] == 0
        modifies sendBuf
      {
        sendBuf[sendPtr + i] := 0;
      }
      sendPtr := sendPtr + length;
    }

    /** `create_empty_msg`. */
    method CreateEmptyMsg(attr: AttrType)
      requires Valid() && sendPtr + FirstLength(attr) + 8 <= BUFFER
      modifies this`sendPtr, sendBuf
      ensures Valid() && sendPtr == old(sendPtr) + FirstLength(attr) + 8
      ensures Frame() == old(Frame()) + Raw(attr, 0, Zeros(FirstLength(attr)), [], [])
    {
      var listLength := FirstLength(attr) + 2 + 0 + 2;
      var hdr := sendPtr;
      ghost var was := Frame();
      Clear(4 + listLength);
      var header := [EncodeAttrType(attr), FirstLength(attr)] + Short(listLength);
      EmptyRaw(was, Frame(), attr, listLength, header);
      Write(hdr, header);
    }

    /** `attribute_length_length`. */
    function ReadListLength(msg: nat): nat
      requires Valid() && msg + 4 <= sendPtr
      reads this, sendBuf
      ensures ReadListLength(msg) == ListLength(Frame(), msg)
    {
      sendBuf[msg + 2] as int * 256 + sendBuf[msg + 3] as int
    }

    method ReadFirst(buf: nat, length: nat) returns (first: seq<Byte>)
      requires Valid() && buf + 6 + length <= sendPtr
      ensures first == Frame()[buf + 6..buf + 6 + length]
    {
      first := sendBuf[buf + 6..buf + 6 + length];
    }

    method Write(pos: nat, bytes: seq<Byte>)
      requires Valid() && pos + |bytes| <= sendPtr
      modifies sendBuf
      ensures Frame() == old(Frame()[..pos] + bytes + Frame()[pos + |bytes|..])
    {
      ghost var was := Frame();
      for i := 0 to |bytes|
        invariant forall k :: 0 <= k < i ==> sendBuf[pos + k] == bytes[k]
        invariant forall k :: 0 <= k < pos || pos + i <= k < sendPtr ==> sendBuf[k] == was[k]
      {
        sendBuf[pos + i] := bytes[i];
      }
      Written(was, Frame(), pos, bytes);
    }

    /** The merge functions of the attributes. `a` and `b` are what is around the message; an
        empty message takes its first value, another one must have the right type and pass
        the check. */
    method Merge(msg: nat, attr: AttrType, first: seq<Byte>, event: ThreeEvent, check: Check,
                 ghost a: seq<Byte>, ghost m: Message, ghost b: seq<Byte>)
      returns (merged: bool)
      requires Valid() && msg == |a| && Frame() == a + Coded(m) + b
      requires Takes(m, attr, check) ==> sendPtr + Growth(m) <= BUFFER
      requires Extendable(m) && attr != TalkerFailed && |first| == FirstLength(attr)
      modifies this`sendPtr, sendBuf
      ensures Valid() && merged == Takes(m, attr, check)
      ensures Frame() == if merged then a + Coded(Extended(if m.three == [] then m.(first := first) else m, event)) + b
                         else old(Frame())
    {
      var count;
      merged, count := Examine(msg, attr, check, a, m, b);
      if !merged { return; }
      ghost var value := m.first;
      if count == 0 {
        PutFirst(msg, attr, first, a, m.first, b);
        value := first;
      }
      AddEvent(msg, attr, event, count, a, value, m.three, m.four, b);
    }

    /** Whether the message takes the event, and the number of its values. */
    method Examine(msg: nat, attr: AttrType, check: Check, ghost a: seq<Byte>, ghost m: Message, ghost b: seq<Byte>)
      returns (takes: bool, count: nat)
      requires Valid() && msg == |a| && Frame() == a + Coded(m) + b && Extendable(m)
      ensures takes == Takes(m, attr, check)
      ensures takes ==> count == |m.three|
    {
      CountIn(Frame(), a, m.attr, |m.three|, m.first, ThreePacked(m.three), FourPacked(m.four), b);
      if sendBuf[msg] != EncodeAttrType(attr) { return false, 0; }
      count := sendBuf[msg + 5];
      if count == 0 { return true, 0; }
      FirstIn(Frame(), a, attr, |m.three|, m.first, ThreePacked(m.three), FourPacked(m.four), b, m.first);
      var present := ReadFirst(msg, FirstLength(attr));
      takes := attr != Domain && check(count, present);
    }

    /** An empty message gets its first value. */
    method PutFirst(msg: nat, attr: AttrType, first: seq<Byte>, ghost a: seq<Byte>, ghost was: seq<Byte>,
                    ghost b: seq<Byte>)
      requires Valid() && msg == |a| && |was| == |first| && Frame() == a + Raw(attr, 0, was, [], []) + b
      modifies sendBuf
      ensures Frame() == a + Raw(attr, 0, first, [], []) + b
    {
      FirstIn(Frame(), a, attr, 0, was, [], [], b, first);
      Write(msg + 6, first);
    }

    /** The encoding of one more event, and the new count. */
    method AddEvent(msg: nat, attr: AttrType, event: ThreeEvent, count: nat,
                    ghost a: seq<Byte>, ghost first: seq<Byte>, ghost three: seq<ThreeEvent>,
                    ghost four: seq<FourEvent>, ghost b: seq<Byte>)
      requires Valid() && sendPtr + Growth(Message(attr, first, three, four)) <= BUFFER && msg == |a|
      requires count == |three| <= 255
      requires |first| == FirstLength(attr) && |four| == if HasFourPacked(attr) then |three| else 0
      requires Frame() == a + Raw(attr, count, first, ThreePacked(three), FourPacked(four)) + b
      modifies this`sendPtr, sendBuf
      ensures Valid()
      ensures Frame() == a + Coded(Extended(Message(attr, first, three, four), event)) + b
    {
      AddThree(msg, attr, event, count, a, first, three, FourPacked(four), b);
      ghost var grown := four;
      if HasFourPacked(attr) {
        AddFour(msg, attr, READY, count, a, first, ThreePacked(three + [event]), four, b);
        grown := four + [READY];
      }
      StoreCount(msg, count, a, attr, first, ThreePacked(three + [event]), FourPacked(grown), b);
      ExtendedCoded(attr, first, three, four, event, grown);
    }

    method StoreCount(msg: nat, count: nat, ghost a: seq<Byte>, ghost attr: AttrType, ghost first: seq<Byte>,
                      ghost three: seq<Byte>, ghost four: seq<Byte>, ghost b: seq<Byte>)
      requires Valid() && msg == |a| && Frame() == a + Raw(attr, count, first, three, four) + b
      modifies sendBuf
      ensures Frame() == a + Raw(attr, count + 1, first, three, four) + b
    {
      CountStored(Frame(), a, attr, count, first, three, four, b);
      Store(msg + 5, (count + 1) % 256);
    }

    /** The three-packed event of the next value, in the message at `msg`. */
    method AddThree(msg: nat, attr: AttrType, event: ThreeEvent, ghost count: nat,
                    ghost a: seq<Byte>, ghost first: seq<Byte>, ghost three: seq<ThreeEvent>, ghost four: seq<Byte>,
                    ghost b: seq<Byte>)
      requires Valid() && (count % 3 == 0 ==> sendPtr < BUFFER) && msg == |a| && count == |three| <= 255
      requires |first| == FirstLength(attr) && |four| <= 64
      requires Frame() == a + Raw(attr, count, first, ThreePacked(three), four) + b
      modifies this`sendPtr, sendBuf
      ensures Valid() && sendPtr == old(sendPtr) + if count % 3 == 0 then 1 else 0
      ensures Frame() == a + Raw(attr, count, first, ThreePacked(three + [event]), four) + b
    {
      CountAt(Frame(), a, attr, count, first, ThreePacked(three), four, b);
      ThreeStep(Frame(), a, attr, first, three, four, b, event);
      EncodeThreePackedEvent(msg, event, attr);
    }

    /** Its four-packed event. */
    method AddFour(msg: nat, attr: AttrType, event: FourEvent, ghost count: nat,
                   ghost a: seq<Byte>, ghost first: seq<Byte>, ghost three: seq<Byte>, ghost four: seq<FourEvent>,
                   ghost b: seq<Byte>)
      requires Valid() && (count % 4 == 0 ==> sendPtr < BUFFER) && msg == |a| && count == |four| <= 255
      requires |three| == (count + 3) / 3
      requires |first| == FirstLength(attr) && Frame() == a + Raw(attr, count, first, three, FourPacked(four)) + b
      modifies this`sendPtr, sendBuf
      ensures Valid()
      ensures Frame() == a + Raw(attr, count, first, three, FourPacked(four + [event])) + b
    {
      CountAt(Frame(), a, attr, count, first, three, FourPacked(four), b);
      FourStep(Frame(), a, attr, first, three, four, b, event);
      EncodeFourPackedEvent(msg, event, attr);
    }

    /** One round of the walk of `doTx`: the k-th message is offered the event. */
    method Offer(msg: nat, attr: AttrType, first: seq<Byte>, event: ThreeEvent, check: Check,
                 ghost prefix: seq<Byte>, ghost ms: seq<Message>, ghost k: nat)
      returns (merged: bool, next: nat)
      requires Valid() && attr != TalkerFailed && |first| == FirstLength(attr)
      requires k < |ms| && (Mergeable(ms[k], attr, check) ==> sendPtr + Growth(ms[k]) <= BUFFER)
      requires Frame() == prefix + CodedAll(ms) && k < |ms| && WellFormed(ms[k]) && msg == |prefix + CodedAll(ms[..k])|
      modifies this`sendPtr, sendBuf
      ensures Valid() && merged == Mergeable(ms[k], attr, check)
      ensures merged ==> Frame() == prefix + CodedAll(ms[k := Extended(ms[k], event)])
      ensures !merged ==> Frame() == old(Frame()) && next == |prefix + CodedAll(ms[..k + 1])|
    {
      NextMessage(Frame(), prefix, ms, k);
      FlatAt(Frame(), prefix, ms, k, Coded);
      merged := Merge(msg, attr, first, event, check, prefix + CodedAll(ms[..k]), ms[k], CodedAll(ms[k + 1..]));
      if merged {
        FlatUpdated(Frame(), prefix, ms, k, Extended(ms[k], event), Coded);
      }
      next := msg + 4 + ReadListLength(msg);
    }

    /** The walk until a message takes the event. */
    method WalkAndMerge(attr: AttrType, first: seq<Byte>, event: ThreeEvent, check: Check, ghost ms: seq<Message>)
      returns (msg: nat, merged: bool)
      requires Holds(ms) && sendPtr + Cost(ms, attr, check) <= BUFFER && attr != TalkerFailed
      requires |first| == FirstLength(attr)
      modifies this`sendPtr, sendBuf
      ensures Valid() && merged == (Target(ms, attr, check) < |ms|)
      ensures merged ==>
        var k := Target(ms, attr, check); Frame() == old(sendBuf[..START]) + CodedAll(ms[k := Extended(ms[k], event)])
      ensures !merged ==> Frame() == old(Frame()) && |Frame()| == msg
    {
      ghost var prefix := sendBuf[..START];
      var end := sendPtr;
      msg, merged := START, false;
      ghost var k := 0;
      Boundary(Frame(), prefix, ms, k, msg);
      while !merged && msg < end && (sendBuf[msg] != 0 || sendBuf[msg + 1] != 0)
        invariant Valid() && k <= |ms|
        invariant !merged ==>
          |Frame()| == end && Frame() == prefix + CodedAll(ms) && msg == |prefix + CodedAll(ms[..k])|
        invariant !merged && msg < end ==> msg + 8 <= end
        invariant forall j :: 0 <= j < k ==> !Mergeable(ms[j], attr, check)
        invariant merged ==>
          k < |ms| && Mergeable(ms[k], attr, check) && Frame() == prefix + CodedAll(ms[k := Extended(ms[k], event)])
        decreases !merged, |ms| - k
      {
        if k == |ms| { Exhausted(Frame(), prefix, ms); }
        CostAt(ms, attr, check, k);
        merged, msg := Offer(msg, attr, first, event, check, prefix, ms, k);
        if !merged {
          k := k + 1;
          Boundary(Frame(), prefix, ms, k, msg);
        }
      }
      if !merged {
        AllWalked(Frame(), prefix, ms, k, msg);
        TargetNone(ms, attr, check);
      } else {
        CostAt(ms, attr, check, k);
      }
    }

    /** `doTx`: the event goes into the first message that takes it, or into a new one at the
        end; all other messages stay as they are. The PDU is well-formed again exactly if the
        message that takes the event had fewer than 255 values. The caller must leave exactly
        the room that the new PDU takes. */
    method DoTx(attr: AttrType, first: seq<Byte>, event: ThreeEvent, check: Check, ghost ms: seq<Message>)
      requires Holds(ms) && attr != TalkerFailed && |first| == FirstLength(attr)
      requires START + |CodedAll(Sent(ms, attr, first, event, check))| <= BUFFER
      modifies this`sendPtr, sendBuf
      ensures Valid() && sendBuf[..START] == old(sendBuf[..START])
      ensures Frame() == sendBuf[..START] + CodedAll(Sent(ms, attr, first, event, check))
      ensures var k := Target(ms, attr, check);
        Holds(Sent(ms, attr, first, event, check)) <==> (k < |ms| ==> |ms[k].three| < 255)
    {
      ghost var prefix := sendBuf[..START];
      SentLength(ms, attr, first, event, check);
      var msg, merged := WalkAndMerge(attr, first, event, check, ms);
      if !merged {
        CreateEmptyMsg(attr);
        ghost var empty := Message(attr, Zeros(FirstLength(attr)), [], []);
        EmptyMessage(Frame(), prefix + CodedAll(ms), attr);
        merged := Merge(msg, attr, first, event, check, prefix + CodedAll(ms), empty, []);
        FlatAppended(Frame(), prefix, ms, Extended(empty.(first := first), event), Coded);
      }
      assert sendBuf[..START] == Frame()[..START];
      SentWellFormed(ms, attr, first, event, check);
    }
  }

  // ----- the walk

  /** Its header leads to the next message. */
  lemma HeaderLeads(s: seq<Byte>, a: seq<Byte>, m: Message, b: seq<Byte>)
    requires s == a + Coded(m) + b && Extendable(m)
    ensures |s| >= |a| + 8 && 4 + ListLength(s, |a|) == |Coded(m)| && s[|a|] != 0
  {
    CountIn(s, a, m.attr, |m.three|, m.first, ThreePacked(m.three), FourPacked(m.four), b);
  }

  lemma Exhausted(s: seq<Byte>, prefix: seq<Byte>, ms: seq<Message>)
    requires s == prefix + CodedAll(ms)
    ensures ms[..|ms|] == ms && |prefix + CodedAll(ms[..|ms|])| == |s|
  {
    assert ms[..|ms|] == ms;
  }

  lemma Boundary(s: seq<Byte>, prefix: seq<Byte>, ms: seq<Message>, k: nat, msg: nat)
    requires s == prefix + CodedAll(ms) && k <= |ms| && msg == |prefix + CodedAll(ms[..k])|
    requires forall j :: 0 <= j < |ms| ==> Extendable(ms[j])
    ensures msg < |s| ==> msg + 8 <= |s|
  {
    if k < |ms| {
      NextMessage(s, prefix, ms, k);
    } else {
      Exhausted(s, prefix, ms);
    }
  }

  /** The walk only ends behind the last message. */
  lemma AllWalked(s: seq<Byte>, prefix: seq<Byte>, ms: seq<Message>, k: nat, msg: nat)
    requires s == prefix + CodedAll(ms) && k <= |ms| && msg == |prefix + CodedAll(ms[..k])|
    requires forall j :: 0 <= j < |ms| ==> Extendable(ms[j])
    requires msg < |s| ==> s[msg] == 0
    ensures k == |ms| && msg == |s|
  {
    if k < |ms| {
      NextMessage(s, prefix, ms, k);
    } else {
      Exhausted(s, prefix, ms);
    }
  }

  lemma EmptyMessage(s: seq<Byte>, a: seq<Byte>, attr: AttrType)
    requires s == a + Raw(attr, 0, Zeros(FirstLength(attr)), [], [])
    ensures s == a + Coded(Message(attr, Zeros(FirstLength(attr)), [], [])) + []
  {
  }

  lemma NextMessage(s: seq<Byte>, prefix: seq<Byte>, ms: seq<Message>, k: nat)
    requires k < |ms| && s == prefix + CodedAll(ms) && Extendable(ms[k])
    ensures var msg := |prefix + CodedAll(ms[..k])|;
      msg + 8 <= |s| && msg + 4 + ListLength(s, msg) == |prefix + CodedAll(ms[..k + 1])| && s[msg] != 0
  {
    FlatAt(s, prefix, ms, k, Coded);
    HeaderLeads(s, prefix + CodedAll(ms[..k]), ms[k], CodedAll(ms[k + 1..]));
    FlatLength(prefix, ms, k, Coded);
  }

  lemma {:induction false} TargetIs(ms: seq<Message>, attr: AttrType, check: Check, k: nat)
    requires k < |ms| && Mergeable(ms[k], attr, check) && forall j :: 0 <= j < k ==> !Mergeable(ms[j], attr, check)
    ensures Target(ms, attr, check) == k
  {
  }

  lemma CostAt(ms: seq<Message>, attr: AttrType, check: Check, k: nat)
    requires k < |ms| && forall j :: 0 <= j < k ==> !Mergeable(ms[j], attr, check)
    ensures Mergeable(ms[k], attr, check) ==> Target(ms, attr, check) == k && Cost(ms, attr, check) == Growth(ms[k])
  {
    if Mergeable(ms[k], attr, check) {
      TargetIs(ms, attr, check, k);
    }
  }

  lemma {:induction false} TargetNone(ms: seq<Message>, attr: AttrType, check: Check)
    requires forall j :: 0 <= j < |ms| ==> !Mergeable(ms[j], attr, check)
    ensures Target(ms, attr, check) == |ms|
  {
  }
}