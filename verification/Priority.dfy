/**
 Priority vectors of IEEE 802.1AS section 10.3.4 and their comparison (ptp/gptpstatmch.c,
 ptp/vtss_gptp_private.h). The program keeps a vector as 28 big-endian bytes and compares it
 with memcmp; here a vector is the numbers those bytes spell, compared lexicographically, and
 the two comparisons are proved to agree.
 */
module Priority {
  import opened Octets

  const CLOCKS: int := 0x1_0000_0000_0000_0000
  const ROOTS: int := 0x1_0000_0000_0000_0000_0000_0000_0000

  /** `root` is the 14-byte system identity (priority1, clock class, accuracy, variance,
      priority2, clock identity) read as one number: a better system has a smaller one.
      `steps` is stepsRemoved, `source` and `sourcePort` the transmitting port, `rxPort` the
      number of the receiving port. */
  datatype Vector = Vector(root: nat, steps: nat, source: nat, sourcePort: nat, rxPort: nat) {
    predicate Wide() {
      root < ROOTS && steps < 65536 && source < CLOCKS && sourcePort < 65536 && rxPort < 65536
    }
  }

  /** The clock identity is the low 8 bytes of the system identity. */
  function ClockOf(root: nat): nat {
    root % CLOCKS
  }

  /** priority1 is its first byte. */
  function Priority1(root: nat): nat {
    root / 0x100_0000_0000_0000_0000_0000_0000
  }

  /** All bits set: the vector of a port or system without information. */
  const NOTHING := Vector(ROOTS - 1, 65535, CLOCKS - 1, 65535, 65535)

  /** Strictly better. */
  predicate Less(a: Vector, b: Vector) {
    if a.root != b.root then a.root < b.root
    else if a.steps != b.steps then a.steps < b.steps
    else if a.source != b.source then a.source < b.source
    else if a.sourcePort != b.sourcePort then a.sourcePort < b.sourcePort
    else a.rxPort < b.rxPort
  }

  predicate AtMost(a: Vector, b: Vector) {
    a == b || Less(a, b)
  }

  datatype Bmca = IsPresentMaster | RetainPresentMaster | ReplacePresentMaster

  /** `bmca_comparison`. */
  function Compare(present: Vector, challenger: Vector): Bmca {
    if Less(challenger, present) then ReplacePresentMaster
    else if challenger == present then IsPresentMaster
    else RetainPresentMaster
  }

  // ----- the comparison on bytes

  /** `memcmp`. */
  function Memcmp(a: seq<Byte>, b: seq<Byte>): int
    requires |a| == |b|
  {
    if a == [] then 0
    else if a[0] != b[0] then a[0] - b[0]
    else Memcmp(a[1..], b[1..])
  }

  function Pow256(k: nat): (p: int)
    ensures 0 < p
  {
    if k == 0 then 1 else 256 * Pow256(k - 1)
  }

  /** The structure as it lies in memory. */
  function Bytes(v: Vector): (s: seq<Byte>)
    ensures |s| == 28
  {
    BigEndian(v.root, 14) + (BigEndian(v.steps, 2) + (BigEndian(v.source, 8)
      + (BigEndian(v.sourcePort, 2) + BigEndian(v.rxPort, 2))))
  }

  lemma {:induction false} MemcmpConcat(a: seq<Byte>, b: seq<Byte>, c: seq<Byte>, d: seq<Byte>)
    requires |a| == |b| && |c| == |d|
    ensures Memcmp(a + c, b + d) == if Memcmp(a, b) != 0 then Memcmp(a, b) else Memcmp(c, d)
  {
    if a == [] {
      assert a + c == c && b + d == d;
    } else {
      assert (a + c)[1..] == a[1..] + c && (b + d)[1..] == b[1..] + d;
      MemcmpConcat(a[1..], b[1..], c, d);
    }
  }

  /** Bytes of equal width compare as the numbers they spell. */
  lemma {:induction false} MemcmpNumbers(m: nat, n: nat, k: nat)
    requires m < Pow256(k) && n < Pow256(k)
    ensures Memcmp(BigEndian(m, k), BigEndian(n, k)) < 0 <==> m < n
    ensures Memcmp(BigEndian(m, k), BigEndian(n, k)) == 0 <==> m == n
  {
    if k > 0 {
      MemcmpNumbers(m / 256, n / 256, k - 1);
      MemcmpConcat(BigEndian(m / 256, k - 1), BigEndian(n / 256, k - 1), [m % 256], [n % 256]);
    }
  }

  lemma Widths()
    ensures Pow256(2) == 65536 && Pow256(8) == CLOCKS && Pow256(14) == ROOTS
  {
    assert Pow256(4) == 0x1_0000_0000;
    assert Pow256(8) == 256 * (256 * (256 * (256 * Pow256(4))));
    assert Pow256(12) == 256 * (256 * (256 * (256 * Pow256(8))));
  }

  /** Comparing two structures byte by byte is comparing their fields lexicographically. */
  lemma MemcmpIsLess(a: Vector, b: Vector)
    requires a.Wide() && b.Wide()
    ensures Memcmp(Bytes(a), Bytes(b)) < 0 <==> Less(a, b)
    ensures Memcmp(Bytes(a), Bytes(b)) == 0 <==> a == b
    ensures Memcmp(Bytes(a), Bytes(b)) > 0 <==> Less(b, a)
  {
    Widths();
    MemcmpNumbers(a.root, b.root, 14);
    MemcmpNumbers(a.steps, b.steps, 2);
    MemcmpNumbers(a.source, b.source, 8);
    MemcmpNumbers(a.sourcePort, b.sourcePort, 2);
    MemcmpNumbers(a.rxPort, b.rxPort, 2);
    MemcmpTail(a, b);
  }

  lemma MemcmpTail(a: Vector, b: Vector)
    ensures Memcmp(Bytes(a), Bytes(b)) ==
      (var r := Memcmp(BigEndian(a.root, 14), BigEndian(b.root, 14));
       var s := Memcmp(BigEndian(a.steps, 2), BigEndian(b.steps, 2));
       var c := Memcmp(BigEndian(a.source, 8), BigEndian(b.source, 8));
       var p := Memcmp(BigEndian(a.sourcePort, 2), BigEndian(b.sourcePort, 2));
       var x := Memcmp(BigEndian(a.rxPort, 2), BigEndian(b.rxPort, 2));
       if r != 0 then r else if s != 0 then s else if c != 0 then c else if p != 0 then p else x)
  {
    var a4 := BigEndian(a.sourcePort, 2) + BigEndian(a.rxPort, 2);
    var b4 := BigEndian(b.sourcePort, 2) + BigEndian(b.rxPort, 2);
    var a3, b3 := BigEndian(a.source, 8) + a4, BigEndian(b.source, 8) + b4;
    var a2, b2 := BigEndian(a.steps, 2) + a3, BigEndian(b.steps, 2) + b3;
    MemcmpConcat(BigEndian(a.sourcePort, 2), BigEndian(b.sourcePort, 2),
                 BigEndian(a.rxPort, 2), BigEndian(b.rxPort, 2));
    MemcmpConcat(BigEndian(a.source, 8), BigEndian(b.source, 8), a4, b4);
    MemcmpConcat(BigEndian(a.steps, 2), BigEndian(b.steps, 2), a3, b3);
    MemcmpConcat(BigEndian(a.root, 14), BigEndian(b.root, 14), a2, b2);
  }
}
