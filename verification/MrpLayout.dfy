/**
 The layout of an MRP PDU, IEEE 802.1Q section 10.8: messages of one vector attribute each,
 and what the in-place encoders of msrp/vtss_msrp.c do to the bytes.
 */
module MrpLayout {
  import opened Octets
  import opened MrpAttributes
  import opened MrpPacking

  /** The message header with a list length of `list`, and the header of a vector of `count`
      values without LeaveAll. */
  function Head(attr: AttrType, first: nat, list: nat, count: nat): (s: seq<Byte>)
    ensures |s| == 6
  {
    [EncodeAttrType(attr), first % 256] + Short(list) + [0, count % 256]
  }

  /** The vector attribute: first value, packed events, end mark. */
  function Body(first: seq<Byte>, three: seq<Byte>, four: seq<Byte>): (s: seq<Byte>)
    ensures |s| == |first| + |three| + |four| + 2
  {
    first + three + four + [0, 0]
  }

  /** A message as it lies in the buffer. */
  function Raw(attr: AttrType, count: nat, first: seq<Byte>, three: seq<Byte>, four: seq<Byte>): (s: seq<Byte>)
    ensures |s| == |first| + |three| + |four| + 8
  {
    Head(attr, |first|, |first| + |three| + |four| + 4, count) + Body(first, three, four)
  }

  function ListLength(s: seq<Byte>, buf: nat): nat
    requires buf + 4 <= |s|
  {
    ShortAt(s, buf + 2)
  }

  // ----- what the encoders do to the bytes

  /** The tail from `vector` on moves up by one byte, the list length grows, and the end mark
      is written again. */
  function Inserted(s: seq<Byte>, buf: nat, vector: nat): (t: seq<Byte>)
    requires buf + 6 <= vector <= |s| && 1 <= ListLength(s, buf) && buf + 4 + ListLength(s, buf) <= |s|
    ensures |t| == |s| + 1
  {
    var length := ListLength(s, buf) + 1;
    (s[..vector] + [0] + s[vector..])
      [buf + 2 := length / 256 % 256][buf + 3 := length % 256][buf + 4 + length - 2 := 0][buf + 4 + length - 1 := 0]
  }

  predicate Insertable(s: seq<Byte>, buf: nat, vector: nat) {
    buf + 6 <= vector <= |s| && 1 <= ListLength(s, buf) && buf + 4 + ListLength(s, buf) <= |s|
  }

  /** Where the three-packed and four-packed byte of the next event is. */
  function ThreeVector(buf: nat, first: nat, n: nat): nat {
    buf + 6 + first + n / 3
  }

  function FourVector(buf: nat, first: nat, n: nat): nat {
    buf + 6 + first + (n + 3) / 3 + n / 4
  }

  /** The event is added to the byte at `vector`, which is inserted if it is `grow`. */
  predicate Ready(s: seq<Byte>, buf: nat, vector: nat, grow: bool) {
    if grow then Insertable(s, buf, vector) else vector < |s|
  }

  function WithEvent(s: seq<Byte>, buf: nat, vector: nat, grow: bool, amount: nat): seq<Byte>
    requires Ready(s, buf, vector, grow)
  {
    AddAt(if grow then Inserted(s, buf, vector) else s, vector, amount)
  }

  /** `mrp_encode_three_packed_event`. */
  function WithThree(s: seq<Byte>, buf: nat, first: nat, n: nat, event: ThreeEvent): seq<Byte>
    requires Ready(s, buf, ThreeVector(buf, first, n), n % 3 == 0)
  {
    WithEvent(s, buf, ThreeVector(buf, first, n), n % 3 == 0, ThreeAmount(event, n))
  }

  /** `mrp_encode_four_packed_event`. */
  function WithFour(s: seq<Byte>, buf: nat, first: nat, n: nat, event: FourEvent): seq<Byte>
    requires Ready(s, buf, FourVector(buf, first, n), n % 4 == 0)
  {
    WithEvent(s, buf, FourVector(buf, first, n), n % 4 == 0, FourAmount(event, n))
  }

  // ----- pieces of the buffer

  lemma Splice(s: seq<Byte>, p: seq<Byte>, q: seq<Byte>)
    requires s == p + q
    ensures s[..|p|] + [0] + s[|p|..] == p + [0] + q
  {
  }

  lemma Patched(t: seq<Byte>, a: seq<Byte>, h: seq<Byte>, rest: seq<Byte>, p: Byte, q: Byte)
    requires t == a + h + rest && |h| == 6
    ensures t[|a| + 2 := p][|a| + 3 := q] == a + h[2 := p][3 := q] + rest
  {
  }

  lemma EndMarkKept(r: seq<Byte>, p: seq<Byte>, y: seq<Byte>, b: seq<Byte>)
    requires r == p + y + b && |y| >= 2 && y[|y| - 2] == 0 && y[|y| - 1] == 0
    ensures r[|p| + |y| - 2 := 0][|p| + |y| - 1 := 0] == r
  {
    assert r[|p| + |y| - 2] == y[|y| - 2] && r[|p| + |y| - 1] == y[|y| - 1];
  }

  lemma HeadIn(s: seq<Byte>, a: seq<Byte>, h: seq<Byte>, rest: seq<Byte>)
    requires s == a + h + rest && |h| == 6
    ensures forall k :: 0 <= k < 6 ==> s[|a| + k] == h[k]
    ensures ListLength(s, |a|) == ShortAt(h, 2)
  {
    assert s[|a| + 2] == h[2] && s[|a| + 3] == h[3];
  }

  lemma HeadLonger(attr: AttrType, first: nat, list: nat, count: nat)
    requires list < 65535
    ensures ShortAt(Head(attr, first, list, count), 2) == list
    ensures Head(attr, first, list, count)[2 := (list + 1) / 256 % 256][3 := (list + 1) % 256] ==
      Head(attr, first, list + 1, count)
  {
  }

  lemma UpdateMiddle(s: seq<Byte>, a: seq<Byte>, m: seq<Byte>, b: seq<Byte>, k: nat, value: Byte)
    requires s == a + m + b && k < |m|
    ensures s[|a| + k] == m[k] && s[|a| + k := value] == a + m[k := value] + b
  {
  }

  lemma Regroup(a: seq<Byte>, h: seq<Byte>, x: seq<Byte>, y: seq<Byte>, b: seq<Byte>)
    ensures a + h + (x + y + b) == (a + h + x) + (y + b) == (a + h + x) + y + b
  {
  }

  /** An insertion into a message whose body is split at the place of the insertion. */
  lemma InsertInBody(s: seq<Byte>, a: seq<Byte>, h: seq<Byte>, h2: seq<Byte>, x: seq<Byte>, y: seq<Byte>,
                     b: seq<Byte>, list: nat)
    requires s == (a + h + x) + y + b && |h| == 6 && ShortAt(h, 2) == list == |x| + |y| + 2 < 65535
    requires h2 == h[2 := (list + 1) / 256 % 256][3 := (list + 1) % 256]
    requires |y| >= 2 && y[|y| - 2] == 0 && y[|y| - 1] == 0
    ensures Insertable(s, |a|, |a| + 6 + |x|)
    ensures Inserted(s, |a|, |a| + 6 + |x|) == (a + h2 + (x + [0])) + y + b
  {
    Regroup(a, h, x, y, b);
    HeadIn(s, a, h, x + y + b);
    Splice(s, a + h + x, y + b);
    var v := |a| + 6 + |x|;
    var t := s[..v] + [0] + s[v..];
    assert t == a + h + (x + [0] + y + b) by {
      assert t == (a + h + x) + [0] + (y + b);
    }
    Patched(t, a, h, x + [0] + y + b, (list + 1) / 256 % 256, (list + 1) % 256);
    Regroup(a, h2, x + [0], y, b);
    EndMarkKept(a + h2 + (x + [0] + y + b), a + h2 + (x + [0]), y, b);
  }

  // ----- and to the messages

  /** A message in the buffer, seen from behind its head, from behind its vectors, and from the
      vectors themselves. */
  lemma BodyBehindHead(a: seq<Byte>, attr: AttrType, n: nat, first: seq<Byte>, three: seq<Byte>, four: seq<Byte>,
                       b: seq<Byte>)
    ensures
      var s, h := a + Raw(attr, n, first, three, four) + b, Head(attr, |first|, |first| + |three| + |four| + 4, n);
      s == a + h + (Body(first, three, four) + b)
  {
  }

  lemma BehindThree(a: seq<Byte>, attr: AttrType, n: nat, first: seq<Byte>, three: seq<Byte>, four: seq<Byte>,
                    b: seq<Byte>)
    ensures
      var s, h := a + Raw(attr, n, first, three, four) + b, Head(attr, |first|, |first| + |three| + |four| + 4, n);
      s == (a + h + (first + three)) + (four + [0, 0]) + b
  {
  }

  lemma AroundThree(a: seq<Byte>, attr: AttrType, n: nat, first: seq<Byte>, three: seq<Byte>, four: seq<Byte>,
                    b: seq<Byte>)
    ensures
      var s, h := a + Raw(attr, n, first, three, four) + b, Head(attr, |first|, |first| + |three| + |four| + 4, n);
      s == (a + h + first) + three + ((four + [0, 0]) + b)
  {
  }

  lemma BehindFour(a: seq<Byte>, attr: AttrType, n: nat, first: seq<Byte>, three: seq<Byte>, four: seq<Byte>,
                   b: seq<Byte>)
    ensures
      var s, h := a + Raw(attr, n, first, three, four) + b, Head(attr, |first|, |first| + |three| + |four| + 4, n);
      s == (a + h + (first + three + four)) + [0, 0] + b
  {
  }

  lemma AroundFour(a: seq<Byte>, attr: AttrType, n: nat, first: seq<Byte>, three: seq<Byte>, four: seq<Byte>,
                   b: seq<Byte>)
    ensures
      var s, h := a + Raw(attr, n, first, three, four) + b, Head(attr, |first|, |first| + |three| + |four| + 4, n);
      s == (a + h + (first + three)) + four + ([0, 0] + b)
  {
  }

  /** The insertion of a zero byte at the end of a vector gives the message with that vector
      one byte longer. */
  lemma ThreeGrows(s: seq<Byte>, a: seq<Byte>, attr: AttrType, n: nat, first: seq<Byte>, three: seq<Byte>,
                   four: seq<Byte>, b: seq<Byte>)
    requires |first| <= 34 && |three| <= 86 && |four| <= 64 && s == a + Raw(attr, n, first, three, four) + b
    ensures var v := |a| + 6 + |first| + |three|;
      Insertable(s, |a|, v) && Inserted(s, |a|, v) == a + Raw(attr, n, first, three + [0], four) + b
  {
    var list := |first| + |three| + |four| + 4;
    BehindThree(a, attr, n, first, three, four, b);
    BehindThree(a, attr, n, first, three + [0], four, b);
    HeadLonger(attr, |first|, list, n);
    assert first + three + [0] == first + (three + [0]);
    InsertInBody(s, a, Head(attr, |first|, list, n), Head(attr, |first|, list + 1, n), first + three, four + [0, 0],
      b, list);
  }

  lemma FourGrows(s: seq<Byte>, a: seq<Byte>, attr: AttrType, n: nat, first: seq<Byte>, three: seq<Byte>,
                  four: seq<Byte>, b: seq<Byte>)
    requires |first| <= 34 && |three| <= 86 && |four| <= 64 && s == a + Raw(attr, n, first, three, four) + b
    ensures var v := |a| + 6 + |first| + |three| + |four|;
      Insertable(s, |a|, v) && Inserted(s, |a|, v) == a + Raw(attr, n, first, three, four + [0]) + b
  {
    var list := |first| + |three| + |four| + 4;
    BehindFour(a, attr, n, first, three, four, b);
    BehindFour(a, attr, n, first, three, four + [0], b);
    HeadLonger(attr, |first|, list, n);
    assert first + three + four + [0] == first + three + (four + [0]);
    InsertInBody(s, a, Head(attr, |first|, list, n), Head(attr, |first|, list + 1, n), first + three + four, [0, 0],
      b, list);
  }

  /** The count in the header, and that any place behind the header can take an insertion. */
  lemma CountIn(s: seq<Byte>, a: seq<Byte>, attr: AttrType, n: nat, first: seq<Byte>, three: seq<Byte>,
                four: seq<Byte>, b: seq<Byte>)
    requires |first| <= 34 && |three| <= 86 && |four| <= 64 && s == a + Raw(attr, n, first, three, four) + b
    ensures |s| == |a| + 8 + |first| + |three| + |four| + |b|
    ensures s[|a|] == EncodeAttrType(attr) && s[|a| + 1] == |first| && s[|a| + 4] == 0 && s[|a| + 5] == n % 256
    ensures ListLength(s, |a|) == |first| + |three| + |four| + 4
  {
    var list := |first| + |three| + |four| + 4;
    BodyBehindHead(a, attr, n, first, three, four, b);
    HeadIn(s, a, Head(attr, |first|, list, n), Body(first, three, four) + b);
    HeadLonger(attr, |first|, list, n);
  }

  /** The count alone. */
  lemma CountAt(s: seq<Byte>, a: seq<Byte>, attr: AttrType, n: nat, first: seq<Byte>, three: seq<Byte>,
                four: seq<Byte>, b: seq<Byte>)
    requires |first| <= 34 && |three| <= 86 && |four| <= 64 && n < 256 && s == a + Raw(attr, n, first, three, four) + b
    ensures |a| + 6 <= |s| && s[|a| + 5] == n
  {
    CountIn(s, a, attr, n, first, three, four, b);
  }

  lemma ThreeAdded(t: seq<Byte>, a: seq<Byte>, attr: AttrType, n: nat, first: seq<Byte>, three: seq<Byte>,
                   four: seq<Byte>, b: seq<Byte>, k: nat, amount: nat)
    requires t == a + Raw(attr, n, first, three, four) + b && k < |three|
    ensures |a| + 6 + |first| + k < |t|
    ensures AddAt(t, |a| + 6 + |first| + k, amount) == a + Raw(attr, n, first, AddAt(three, k, amount), four) + b
  {
    var value := (three[k] + amount) % 256;
    AroundThree(a, attr, n, first, three, four, b);
    AroundThree(a, attr, n, first, three[k := value], four, b);
    UpdateMiddle(t, a + Head(attr, |first|, |first| + |three| + |four| + 4, n) + first, three, (four + [0, 0]) + b, k,
      value);
  }

  lemma FourAdded(t: seq<Byte>, a: seq<Byte>, attr: AttrType, n: nat, first: seq<Byte>, three: seq<Byte>,
                  four: seq<Byte>, b: seq<Byte>, k: nat, amount: nat)
    requires t == a + Raw(attr, n, first, three, four) + b && k < |four|
    ensures |a| + 6 + |first| + |three| + k < |t|
    ensures AddAt(t, |a| + 6 + |first| + |three| + k, amount) ==
      a + Raw(attr, n, first, three, AddAt(four, k, amount)) + b
  {
    var value := (four[k] + amount) % 256;
    AroundFour(a, attr, n, first, three, four, b);
    AroundFour(a, attr, n, first, three, four[k := value], b);
    UpdateMiddle(t, a + Head(attr, |first|, |first| + |three| + |four| + 4, n) + (first + three), four, [0, 0] + b, k,
      value);
  }

  lemma ThreePushedNew(s: seq<Byte>, a: seq<Byte>, attr: AttrType, n: nat, first: seq<Byte>, three: seq<Byte>,
                       four: seq<Byte>, b: seq<Byte>, v: nat, amount: nat)
    requires |first| <= 34 && |three| <= 86 && |four| <= 64 && s == a + Raw(attr, n, first, three, four) + b
    requires v == |a| + 6 + |first| + |three|
    ensures Insertable(s, |a|, v)
    ensures AddAt(Inserted(s, |a|, v), v, amount) == a + Raw(attr, n, first, Push(three, true, amount), four) + b
  {
    ThreeGrows(s, a, attr, n, first, three, four, b);
    ThreeAdded(Inserted(s, |a|, v), a, attr, n, first, three + [0], four, b, |three|, amount);
  }

  lemma ThreePushed(s: seq<Byte>, a: seq<Byte>, attr: AttrType, n: nat, first: seq<Byte>, three: seq<Byte>,
                    four: seq<Byte>, b: seq<Byte>, v: nat, grow: bool, amount: nat)
    requires |first| <= 34 && |three| <= 86 && |four| <= 64 && s == a + Raw(attr, n, first, three, four) + b
    requires grow || three != []
    requires v == |a| + 6 + |first| + |three| - if grow then 0 else 1
    ensures Ready(s, |a|, v, grow)
    ensures WithEvent(s, |a|, v, grow, amount) == a + Raw(attr, n, first, Push(three, grow, amount), four) + b
  {
    if grow {
      ThreePushedNew(s, a, attr, n, first, three, four, b, v, amount);
    } else {
      ThreeAdded(s, a, attr, n, first, three, four, b, |three| - 1, amount);
    }
  }

  lemma FourPushedNew(s: seq<Byte>, a: seq<Byte>, attr: AttrType, n: nat, first: seq<Byte>, three: seq<Byte>,
                       four: seq<Byte>, b: seq<Byte>, v: nat, amount: nat)
    requires |first| <= 34 && |three| <= 86 && |four| <= 64 && s == a + Raw(attr, n, first, three, four) + b
    requires v == |a| + 6 + |first| + |three| + |four|
    ensures Insertable(s, |a|, v)
    ensures AddAt(Inserted(s, |a|, v), v, amount) == a + Raw(attr, n, first, three, Push(four, true, amount)) + b
  {
    FourGrows(s, a, attr, n, first, three, four, b);
    FourAdded(Inserted(s, |a|, v), a, attr, n, first, three, four + [0], b, |four|, amount);
  }

  lemma FourPushed(s: seq<Byte>, a: seq<Byte>, attr: AttrType, n: nat, first: seq<Byte>, three: seq<Byte>,
                   four: seq<Byte>, b: seq<Byte>, v: nat, grow: bool, amount: nat)
    requires |first| <= 34 && |three| <= 86 && |four| <= 64 && s == a + Raw(attr, n, first, three, four) + b
    requires grow || four != []
    requires v == |a| + 6 + |first| + |three| + |four| - if grow then 0 else 1
    ensures Ready(s, |a|, v, grow)
    ensures WithEvent(s, |a|, v, grow, amount) == a + Raw(attr, n, first, three, Push(four, grow, amount)) + b
  {
    if grow {
      FourPushedNew(s, a, attr, n, first, three, four, b, v, amount);
    } else {
      FourAdded(s, a, attr, n, first, three, four, b, |four| - 1, amount);
    }
  }

  /** Encoding a three-packed event pushes it onto the vector of the message, and leaves all
      other bytes as they are, up to shifting. */
  lemma ThreeEncoded(s: seq<Byte>, a: seq<Byte>, attr: AttrType, n: nat, first: seq<Byte>, three: seq<Byte>,
                     four: seq<Byte>, b: seq<Byte>, event: ThreeEvent)
    requires n < 256 && |first| <= 34 && |three| == (n + 2) / 3 && |four| <= 64
    requires s == a + Raw(attr, n, first, three, four) + b
    ensures Ready(s, |a|, ThreeVector(|a|, |first|, n), n % 3 == 0)
    ensures WithThree(s, |a|, |first|, n, event) == a + Raw(attr, n, first, PushThree(three, n, event), four) + b
  {
    ThreePushed(s, a, attr, n, first, three, four, b, ThreeVector(|a|, |first|, n), n % 3 == 0, ThreeAmount(event, n));
  }

  /** Encoding a four-packed event, after the three-packed event of the same value. */
  lemma FourEncoded(s: seq<Byte>, a: seq<Byte>, attr: AttrType, n: nat, first: seq<Byte>, three: seq<Byte>,
                    four: seq<Byte>, b: seq<Byte>, event: FourEvent)
    requires n < 256 && |first| <= 34 && |three| == (n + 3) / 3 && |four| == (n + 3) / 4
    requires s == a + Raw(attr, n, first, three, four) + b
    ensures Ready(s, |a|, FourVector(|a|, |first|, n), n % 4 == 0)
    ensures WithFour(s, |a|, |first|, n, event) == a + Raw(attr, n, first, three, PushFour(four, n, event)) + b
  {
    FourPushed(s, a, attr, n, first, three, four, b, FourVector(|a|, |first|, n), n % 4 == 0, FourAmount(event, n));
  }

  /** The count octet is the last of the header. */
  lemma CountStored(s: seq<Byte>, a: seq<Byte>, attr: AttrType, n: nat, first: seq<Byte>, three: seq<Byte>,
                    four: seq<Byte>, b: seq<Byte>)
    requires s == a + Raw(attr, n, first, three, four) + b
    ensures |a| + 5 < |s| && s[|a| + 5 := (n + 1) % 256] == a + Raw(attr, n + 1, first, three, four) + b
  {
    var list := |first| + |three| + |four| + 4;
    BodyBehindHead(a, attr, n, first, three, four, b);
    BodyBehindHead(a, attr, n + 1, first, three, four, b);
    HeadCount(attr, |first|, list, n);
    UpdateMiddle(s, a, Head(attr, |first|, list, n), Body(first, three, four) + b, 5, (n + 1) % 256);
  }

  lemma HeadCount(attr: AttrType, first: nat, list: nat, n: nat)
    ensures Head(attr, first, list, n)[5 := (n + 1) % 256] == Head(attr, first, list, n + 1)
  {
  }

  /** The first value of a message, and its replacement. */
  lemma FirstIn(s: seq<Byte>, a: seq<Byte>, attr: AttrType, n: nat, first: seq<Byte>, three: seq<Byte>,
                four: seq<Byte>, b: seq<Byte>, other: seq<Byte>)
    requires s == a + Raw(attr, n, first, three, four) + b && |other| == |first|
    ensures |a| + 6 + |first| <= |s| && s[|a| + 6..|a| + 6 + |first|] == first
    ensures s[..|a| + 6] + other + s[|a| + 6 + |first|..] == a + Raw(attr, n, other, three, four) + b
  {
    var list := |first| + |three| + |four| + 4;
    FirstAround(s, a + Head(attr, |first|, list, n), attr, first, three + four + [0, 0] + b, other);
    RawSplit(a, attr, n, first, three, four, b);
    RawSplit(a, attr, n, other, three, four, b);
  }

  lemma FirstAround(s: seq<Byte>, p: seq<Byte>, attr: AttrType, first: seq<Byte>, rest: seq<Byte>, other: seq<Byte>)
    ensures s == p + first + rest ==>
      s[|p|..|p| + |first|] == first && s[..|p|] + other + s[|p| + |first|..] == p + other + rest
  {
  }

  lemma RawSplit(a: seq<Byte>, attr: AttrType, n: nat, first: seq<Byte>, three: seq<Byte>, four: seq<Byte>,
                 b: seq<Byte>)
    ensures a + Raw(attr, n, first, three, four) + b ==
      (a + Head(attr, |first|, |first| + |three| + |four| + 4, n)) + first + (three + four + [0, 0] + b)
  {
  }

  lemma PartIn(s: seq<Byte>, p: seq<Byte>, m: seq<Byte>, b: seq<Byte>, k: nat)
    requires s == p + m + b && k < |m|
    ensures |p| + k < |s| && s[|p| + k] == m[k]
  {
  }

  /** The vector bytes of a message and its end mark. */
  lemma VectorIn(s: seq<Byte>, a: seq<Byte>, attr: AttrType, n: nat, first: seq<Byte>, three: seq<Byte>,
                 four: seq<Byte>, b: seq<Byte>)
    requires s == a + Raw(attr, n, first, three, four) + b
    ensures var v := |a| + 6 + |first|;
      && |s| == v + |three| + |four| + 2 + |b|
      && (forall j :: 0 <= j < |three| ==> s[v + j] == three[j])
      && (forall j :: 0 <= j < |four| ==> s[v + |three| + j] == four[j])
      && s[v + |three| + |four|] == 0 && s[v + |three| + |four| + 1] == 0
  {
    AroundThree(a, attr, n, first, three, four, b);
    AroundFour(a, attr, n, first, three, four, b);
    BehindFour(a, attr, n, first, three, four, b);
    var h := a + Head(attr, |first|, |first| + |three| + |four| + 4, n);
    forall j | 0 <= j < |three|
      ensures s[|a| + 6 + |first| + j] == three[j]
    {
      PartIn(s, h + first, three, (four + [0, 0]) + b, j);
    }
    forall j | 0 <= j < |four|
      ensures s[|a| + 6 + |first| + |three| + j] == four[j]
    {
      PartIn(s, h + (first + three), four, [0, 0] + b, j);
    }
    PartIn(s, h + (first + three + four), [0, 0], b, 0);
    PartIn(s, h + (first + three + four), [0, 0], b, 1);
  }

  /** A message lies in the buffer at `pos`, byte by byte. */
  ghost predicate RawAt(s: seq<Byte>, pos: nat, attr: AttrType, n: nat, first: seq<Byte>, three: seq<Byte>,
                        four: seq<Byte>) {
    var v := pos + 6 + |first|;
    && v + |three| + |four| + 2 <= |s|
    && s[pos] == EncodeAttrType(attr) && s[pos + 1] == |first| && s[pos + 4] == 0 && s[pos + 5] == n
    && s[pos + 6..v] == first
    && (forall j :: 0 <= j < |three| ==> s[v + j] == three[j])
    && (forall j :: 0 <= j < |four| ==> s[v + |three| + j] == four[j])
    && s[v + |three| + |four|] == 0 && s[v + |three| + |four| + 1] == 0
  }

  lemma RawIn(s: seq<Byte>, a: seq<Byte>, attr: AttrType, n: nat, first: seq<Byte>, three: seq<Byte>, four: seq<Byte>,
              b: seq<Byte>)
    requires |first| <= 34 && |three| <= 86 && |four| <= 64 && n < 256 && s == a + Raw(attr, n, first, three, four) + b
    ensures RawAt(s, |a|, attr, n, first, three, four)
  {
    CountIn(s, a, attr, n, first, three, four, b);
    VectorIn(s, a, attr, n, first, three, four, b);
    FirstIn(s, a, attr, n, first, three, four, b, first);
  }
}
