/** Octets, and numbers spelled with them. */
module Octets {

  type Byte = x: int | 0 <= x < 256

  /** A number as `k` big-endian bytes. */
  function BigEndian(n: nat, k: nat): (s: seq<Byte>)
    ensures |s| == k
  {
    if k == 0 then [] else BigEndian(n / 256, k - 1) + [n % 256]
  }

  /** A 16-bit field. */
  function Short(n: nat): (s: seq<Byte>)
    ensures |s| == 2
  {
    [n / 256 % 256, n % 256]
  }

  function ShortAt(s: seq<Byte>, i: nat): (n: nat)
    requires i + 2 <= |s|
    ensures n < 65536
  {
    (s[i] as int) * 256 + s[i + 1] as int
  }

  // ----- sequences of things spelled with octets

  function Flat<T>(xs: seq<T>, code: T -> seq<Byte>): seq<Byte> {
    if xs == [] then [] else code(xs[0]) + Flat(xs[1..], code)
  }

  lemma {:induction false} FlatConcat<T>(xs: seq<T>, ys: seq<T>, code: T -> seq<Byte>)
    ensures Flat(xs + ys, code) == Flat(xs, code) + Flat(ys, code)
  {
    if xs == [] {
      assert xs + ys == ys;
    } else {
      assert (xs + ys)[1..] == xs[1..] + ys;
      FlatConcat(xs[1..], ys, code);
    }
  }

  lemma {:induction false} FlatAround<T>(xs: seq<T>, k: nat, code: T -> seq<Byte>)
    requires k < |xs|
    ensures Flat(xs, code) == Flat(xs[..k], code) + code(xs[k]) + Flat(xs[k + 1..], code)
  {
    if k == 0 {
      assert xs[..0] == [];
    } else {
      FlatAround(xs[1..], k - 1, code);
      assert xs[1..][..k - 1] == xs[..k][1..] && xs[1..][k..] == xs[k + 1..];
      Associate(code(xs[0]), Flat(xs[..k][1..], code), code(xs[k]), Flat(xs[k + 1..], code));
    }
  }

  lemma Associate(p: seq<Byte>, q: seq<Byte>, r: seq<Byte>, t: seq<Byte>)
    ensures p + (q + r + t) == (p + q) + r + t
  {
  }

  lemma FlatReplaced<T>(xs: seq<T>, k: nat, x: T, code: T -> seq<Byte>)
    requires k < |xs|
    ensures Flat(xs[k := x], code) == Flat(xs[..k], code) + code(x) + Flat(xs[k + 1..], code)
  {
    FlatAround(xs[k := x], k, code);
    assert xs[k := x][..k] == xs[..k] && xs[k := x][k + 1..] == xs[k + 1..];
  }

  lemma FlatAppend<T>(xs: seq<T>, x: T, code: T -> seq<Byte>)
    ensures Flat(xs + [x], code) == Flat(xs, code) + code(x)
  {
    FlatConcat(xs, [x], code);
    assert [x][1..] == [];
  }

  lemma FlatUpTo<T>(xs: seq<T>, k: nat, code: T -> seq<Byte>)
    requires k < |xs|
    ensures Flat(xs[..k + 1], code) == Flat(xs[..k], code) + code(xs[k])
  {
    assert xs[..k + 1] == xs[..k] + [xs[k]];
    FlatAppend(xs[..k], xs[k], code);
  }

  // ----- the same behind a prefix

  lemma FlatAt<T>(s: seq<Byte>, prefix: seq<Byte>, xs: seq<T>, k: nat, code: T -> seq<Byte>)
    requires s == prefix + Flat(xs, code) && k < |xs|
    ensures s == (prefix + Flat(xs[..k], code)) + code(xs[k]) + Flat(xs[k + 1..], code)
  {
    FlatAround(xs, k, code);
    Associate(prefix, Flat(xs[..k], code), code(xs[k]), Flat(xs[k + 1..], code));
  }

  lemma FlatUpdated<T>(s: seq<Byte>, prefix: seq<Byte>, xs: seq<T>, k: nat, x: T, code: T -> seq<Byte>)
    requires k < |xs| && s == (prefix + Flat(xs[..k], code)) + code(x) + Flat(xs[k + 1..], code)
    ensures s == prefix + Flat(xs[k := x], code)
  {
    FlatReplaced(xs, k, x, code);
    Associate(prefix, Flat(xs[..k], code), code(x), Flat(xs[k + 1..], code));
  }

  lemma FlatAppended<T>(s: seq<Byte>, prefix: seq<Byte>, xs: seq<T>, x: T, code: T -> seq<Byte>)
    requires s == (prefix + Flat(xs, code)) + code(x) + []
    ensures s == prefix + Flat(xs + [x], code)
  {
    FlatAppend(xs, x, code);
    Associate(prefix, Flat(xs, code), code(x), []);
  }

  lemma FlatLength<T>(prefix: seq<Byte>, xs: seq<T>, k: nat, code: T -> seq<Byte>)
    requires k < |xs|
    ensures |prefix + Flat(xs[..k + 1], code)| == |prefix + Flat(xs[..k], code)| + |code(xs[k])|
  {
    FlatUpTo(xs, k, code);
  }

  lemma FlatBetween<T>(s: seq<Byte>, prefix: seq<Byte>, xs: seq<T>, k: nat, rest: seq<Byte>, code: T -> seq<Byte>)
    requires s == prefix + Flat(xs, code) + rest && k < |xs|
    ensures s == (prefix + Flat(xs[..k], code)) + code(xs[k]) + (Flat(xs[k + 1..], code) + rest)
  {
    FlatAround(xs, k, code);
    Between(prefix, Flat(xs[..k], code), code(xs[k]), Flat(xs[k + 1..], code), rest);
  }

  lemma Between(p: seq<Byte>, q: seq<Byte>, r: seq<Byte>, t: seq<Byte>, u: seq<Byte>)
    ensures p + (q + r + t) + u == (p + q) + r + (t + u)
  {
  }
}
