/**
 The packed event vectors of MRP, IEEE 802.1Q section 10.8 (msrp/vtss_msrp.c): three events of
 0..5 to a byte in base 6, four of 0..3 to a byte in base 4.
 */
module MrpPacking {
  import opened Octets

  type ThreeEvent = x: int | 0 <= x < 6
  type FourEvent = x: int | 0 <= x < 4

  function Pow(base: nat, k: nat): nat {
    if k == 0 then 1 else base * Pow(base, k - 1)
  }

  lemma Powers()
    ensures Pow(6, 0) == 1 && Pow(6, 1) == 6 && Pow(6, 2) == 36
    ensures Pow(4, 0) == 1 && Pow(4, 1) == 4 && Pow(4, 2) == 16 && Pow(4, 3) == 64
  {
    assert Pow(6, 2) == 6 * Pow(6, 1);
    assert Pow(4, 3) == 4 * Pow(4, 2) && Pow(4, 2) == 4 * Pow(4, 1);
  }

  // ----- the vectors as a whole

  function ThreeAt(events: seq<ThreeEvent>, k: nat): ThreeEvent {
    if k < |events| then events[k] else 0
  }

  function FourAt(events: seq<FourEvent>, k: nat): FourEvent {
    if k < |events| then events[k] else 0
  }

  function ThreeByte(events: seq<ThreeEvent>, j: nat): Byte {
    36 * ThreeAt(events, 3 * j) + 6 * ThreeAt(events, 3 * j + 1) + ThreeAt(events, 3 * j + 2)
  }

  function FourByte(events: seq<FourEvent>, j: nat): Byte {
    64 * FourAt(events, 4 * j) + 16 * FourAt(events, 4 * j + 1) + 4 * FourAt(events, 4 * j + 2)
      + FourAt(events, 4 * j + 3)
  }

  function ThreePacked(events: seq<ThreeEvent>): (s: seq<Byte>)
    ensures |s| == (|events| + 2) / 3
  {
    seq((|events| + 2) / 3, j requires 0 <= j < (|events| + 2) / 3 => ThreeByte(events, j))
  }

  function FourPacked(events: seq<FourEvent>): (s: seq<Byte>)
    ensures |s| == (|events| + 3) / 4
  {
    seq((|events| + 3) / 4, j requires 0 <= j < (|events| + 3) / 4 => FourByte(events, j))
  }

  // ----- one event at a time

  /** What an event adds to its byte. */
  function ThreeAmount(event: ThreeEvent, n: nat): nat {
    event * Pow(6, 2 - n % 3)
  }

  function FourAmount(event: FourEvent, n: nat): nat {
    event * Pow(4, 3 - n % 4)
  }

  /** A byte is replaced by its sum with `amount`, stored in an octet. */
  function AddAt(bytes: seq<Byte>, k: nat, amount: nat): (s: seq<Byte>)
    requires k < |bytes|
    ensures |s| == |bytes|
  {
    bytes[k := (bytes[k] + amount) % 256]
  }

  /** An event is added to the last byte, or to a new one if it is `grow`. */
  function Push(bytes: seq<Byte>, grow: bool, amount: nat): (s: seq<Byte>)
    requires grow || bytes != []
    ensures |s| == |bytes| + if grow then 1 else 0
  {
    AddAt(if grow then bytes + [0] else bytes, if grow then |bytes| else |bytes| - 1, amount)
  }

  /** What appending an event to a vector of `n` does to its bytes. */
  function PushThree(bytes: seq<Byte>, n: nat, event: ThreeEvent): (s: seq<Byte>)
    requires |bytes| == (n + 2) / 3
    ensures |s| == (n + 3) / 3
  {
    Push(bytes, n % 3 == 0, ThreeAmount(event, n))
  }

  function PushFour(bytes: seq<Byte>, n: nat, event: FourEvent): (s: seq<Byte>)
    requires |bytes| == (n + 3) / 4
    ensures |s| == (n + 4) / 4
  {
    Push(bytes, n % 4 == 0, FourAmount(event, n))
  }

  lemma ThreeByteKept(events: seq<ThreeEvent>, event: ThreeEvent, j: nat)
    requires 3 * j + 3 <= |events|
    ensures ThreeByte(events + [event], j) == ThreeByte(events, j)
  {
  }

  lemma ThreeByteGrown(events: seq<ThreeEvent>, event: ThreeEvent, q: nat, r: nat)
    requires |events| == 3 * q + r && r < 3
    ensures ThreeByte(events + [event], q) == (if r == 0 then 0 else ThreeByte(events, q)) + event * Pow(6, 2 - r)
  {
    Powers();
    var after := events + [event];
    assert after[3 * q + r] == event;
    assert r >= 1 ==> after[3 * q] == events[3 * q];
    assert r >= 2 ==> after[3 * q + 1] == events[3 * q + 1];
  }

  /** Pushing changes only the byte of the new event. */
  lemma PushedThree(bytes: seq<Byte>, n: nat, event: ThreeEvent, q: nat, r: nat)
    requires n == 3 * q + r && r < 3 && |bytes| == q + if r == 0 then 0 else 1
    ensures |PushThree(bytes, n, event)| == q + 1
    ensures forall j :: 0 <= j < q ==> PushThree(bytes, n, event)[j] == bytes[j]
    ensures PushThree(bytes, n, event)[q] == ((if r == 0 then 0 else bytes[q]) + event * Pow(6, 2 - r)) % 256
  {
  }

  /** Appending events one by one builds the packed vector: no digit carries into another and
      the sum never leaves the octet. */
  lemma ThreeAppends(events: seq<ThreeEvent>, event: ThreeEvent)
    ensures ThreePacked(events + [event]) == PushThree(ThreePacked(events), |events|, event)
  {
    var n := |events|;
    var q, r := n / 3, n % 3;
    PushedThree(ThreePacked(events), n, event, q, r);
    var after, pushed := ThreePacked(events + [event]), PushThree(ThreePacked(events), n, event);
    forall j | 0 <= j < |pushed|
      ensures after[j] == pushed[j]
    {
      if j < q {
        ThreeByteKept(events, event, j);
      } else {
        ThreeByteGrown(events, event, q, r);
      }
    }
  }

  lemma FourByteKept(events: seq<FourEvent>, event: FourEvent, j: nat)
    requires 4 * j + 4 <= |events|
    ensures FourByte(events + [event], j) == FourByte(events, j)
  {
  }

  lemma FourByteGrown(events: seq<FourEvent>, event: FourEvent, q: nat, r: nat)
    requires |events| == 4 * q + r && r < 4
    ensures FourByte(events + [event], q) == (if r == 0 then 0 else FourByte(events, q)) + event * Pow(4, 3 - r)
  {
    Powers();
    var after := events + [event];
    assert after[4 * q + r] == event;
    assert r >= 1 ==> after[4 * q] == events[4 * q];
    assert r >= 2 ==> after[4 * q + 1] == events[4 * q + 1];
    assert r >= 3 ==> after[4 * q + 2] == events[4 * q + 2];
  }

  /** Pushing changes only the byte of the new event. */
  lemma PushedFour(bytes: seq<Byte>, n: nat, event: FourEvent, q: nat, r: nat)
    requires n == 4 * q + r && r < 4 && |bytes| == q + if r == 0 then 0 else 1
    ensures |PushFour(bytes, n, event)| == q + 1
    ensures forall j :: 0 <= j < q ==> PushFour(bytes, n, event)[j] == bytes[j]
    ensures PushFour(bytes, n, event)[q] == ((if r == 0 then 0 else bytes[q]) + event * Pow(4, 3 - r)) % 256
  {
  }

  lemma FourAppends(events: seq<FourEvent>, event: FourEvent)
    ensures FourPacked(events + [event]) == PushFour(FourPacked(events), |events|, event)
  {
    var n := |events|;
    var q, r := n / 4, n % 4;
    PushedFour(FourPacked(events), n, event, q, r);
    var after, pushed := FourPacked(events + [event]), PushFour(FourPacked(events), n, event);
    forall j | 0 <= j < |pushed|
      ensures after[j] == pushed[j]
    {
      if j < q {
        FourByteKept(events, event, j);
      } else {
        FourByteGrown(events, event, q, r);
      }
    }
  }

  // ----- reading one event

  function ThreeDigit(vector: nat, i: nat): ThreeEvent
    requires i < 3
  {
    if i == 0 then vector / 36 % 6 else if i == 1 then vector / 6 % 6 else vector % 6
  }

  function FourDigit(vector: nat, i: nat): FourEvent
    requires i < 4
  {
    if i == 0 then vector / 64 % 4
    else if i == 1 then vector / 16 % 4
    else if i == 2 then vector / 4 % 4
    else vector % 4
  }

  /** Reading the i-th position of a packed vector gives the i-th event. */
  lemma ThreeDecodes(events: seq<ThreeEvent>, i: nat)
    requires i < |events|
    ensures ThreeDigit(ThreePacked(events)[i / 3], i % 3) == events[i]
  {
    var j := i / 3;
    ThreeDigits(ThreeAt(events, 3 * j), ThreeAt(events, 3 * j + 1), ThreeAt(events, 3 * j + 2));
  }

  lemma ThreeDigits(a: ThreeEvent, b: ThreeEvent, c: ThreeEvent)
    ensures var v := 36 * a + 6 * b + c; ThreeDigit(v, 0) == a && ThreeDigit(v, 1) == b && ThreeDigit(v, 2) == c
  {
  }

  lemma FourDecodes(events: seq<FourEvent>, i: nat)
    requires i < |events|
    ensures FourDigit(FourPacked(events)[i / 4], i % 4) == events[i]
  {
    var j := i / 4;
    FourDigits(FourAt(events, 4 * j), FourAt(events, 4 * j + 1), FourAt(events, 4 * j + 2), FourAt(events, 4 * j + 3));
  }

  lemma FourDigits(a: FourEvent, b: FourEvent, c: FourEvent, d: FourEvent)
    ensures var v := 64 * a + 16 * b + 4 * c + d;
      FourDigit(v, 0) == a && FourDigit(v, 1) == b && FourDigit(v, 2) == c && FourDigit(v, 3) == d
  {
    var v := 64 * a + 16 * b + 4 * c + d;
    assert v / 4 == 16 * a + 4 * b + c;
    assert v / 16 == 4 * a + b;
    assert v / 64 == a;
    LastFour(16 * a + 4 * b + c, d);
    LastFour(4 * a + b, c);
    LastFour(a, b);
  }

  lemma LastFour(h: nat, d: FourEvent)
    ensures (4 * h + d) % 4 == d
  {
  }

  // ----- the digit loops of the program

  method EncodeThreePacked(event: ThreeEvent, i: nat, vector: Byte) returns (r: int)
    requires i < 3
    ensures r == vector + event * Pow(6, 2 - i)
  {
    Powers();
    var e: int := event;
    for j := 0 to 2 - i
      invariant e == event * Pow(6, j)
    {
      e := e * 6;
      assert Pow(6, j + 1) == 6 * Pow(6, j);
    }
    r := vector + e;
  }

  method EncodeFourPacked(event: FourEvent, i: nat, vector: Byte) returns (r: int)
    requires i < 4
    ensures r == vector + event * Pow(4, 3 - i)
  {
    Powers();
    var e: int := event;
    for j := 0 to 3 - i
      invariant e == event * Pow(4, j)
    {
      e := e * 4;
      assert Pow(4, j + 1) == 4 * Pow(4, j);
    }
    r := vector + e;
  }

  method DecodeThreePacked(vector: Byte, i: nat) returns (r: ThreeEvent)
    requires i < 3
    ensures r == ThreeDigit(vector, i)
  {
    var v: int := vector;
    for j := 0 to 2 - i
      invariant v == if j == 0 then vector else if j == 1 then vector / 6 else vector / 36
    {
      v := v / 6;
    }
    r := v % 6;
  }

  method DecodeFourPacked(vector: Byte, i: nat) returns (r: FourEvent)
    requires i < 4
    ensures r == FourDigit(vector, i)
  {
    var v: int := vector;
    for j := 0 to 3 - i
      invariant v ==
        if j == 0 then vector else if j == 1 then vector / 4 else if j == 2 then vector / 16 else vector / 64
    {
      v := v / 4;
    }
    r := v % 4;
  }
}
