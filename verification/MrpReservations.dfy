/**
 The reservation table of the MSRP application (msrp/vtss_msrp.c): a fixed array of records
 with a used flag, which the join and leave indications search and update.
 */
module MrpReservations {
  import opened MrpAttributes
  import opened Wrappers

  datatype Stream = Stream(high: nat, low: nat, latency: nat, failureCode: nat)

  datatype Reservation = Reservation(
    used: bool, high: nat, low: nat, direction: nat, declType: nat, latency: nat, failureCode: nat,
    port: nat, fourPacked: nat)

  /** What identifies a reservation. */
  datatype Key = Key(high: nat, low: nat, declType: nat, port: nat)

  const SLOTS: nat := 30

  function KeyOf(r: Reservation): Key {
    Key(r.high, r.low, r.declType, r.port)
  }

  predicate Holds(r: Reservation, k: Key) {
    r.used && KeyOf(r) == k
  }

  /** The set a table stands for. */
  ghost function Keys(table: seq<Reservation>): set<Key> {
    set i | 0 <= i < |table| && table[i].used :: KeyOf(table[i])
  }

  ghost predicate NoDuplicates(table: seq<Reservation>) {
    forall i, j :: 0 <= i < j < |table| && table[i].used && table[j].used ==> KeyOf(table[i]) != KeyOf(table[j])
  }

  /** The record of a new reservation. */
  function Made(t: AttrType, s: Stream, port: nat, fourPacked: nat): Reservation {
    match t
    case TalkerAdvertise => Reservation(true, s.high, s.low, 0, 0, s.latency, 0, port, 0)
    case TalkerFailed => Reservation(true, s.high, s.low, 0, 1, s.latency, s.failureCode, port, 0)
    case Listener => Reservation(true, s.high, s.low, 1, 2, s.latency, 0, port, fourPacked)
    case Domain => Reservation(true, 0, 0, 0, 0, 0, 0, 0, 0)
  }

  /** The key a join or leave of an attribute is about. */
  function Wanted(t: AttrType, s: Stream, port: nat): Key {
    Key(s.high, s.low, Code(t), port)
  }

  /** The key a leave looks up: for a listener the four-packed value stands where the
      attribute type belongs. */
  function Released(t: AttrType, s: Stream, port: nat, fourPacked: nat): Key {
    Key(s.high, s.low, if t == Listener then fourPacked else Code(t), port)
  }

  /** A table with one more record, in a slot that was free. */
  ghost predicate Added(before: seq<Reservation>, after: seq<Reservation>, r: Reservation) {
    exists i :: 0 <= i < |before| && !before[i].used && after == before[i := r]
  }

  class Reservations {
    const table: array<Reservation>

    constructor ()
      ensures fresh(table) && table.Length == SLOTS && Keys(table[..]) == {} && NoDuplicates(table[..])
    {
      table := new Reservation[SLOTS](_ => Reservation(false, 0, 0, 0, 0, 0, 0, 0, 0));
    }

    /** `msrp_find_reservation_by_declaration`: the first used record of the stream, port and
        attribute type, if there is one. */
    method Find(s: Stream, port: nat, subType: nat) returns (found: Option<nat>)
      ensures var k := Key(s.high, s.low, subType, port);
        match found
        case Some(i) =>
          i < table.Length && Holds(table[i], k) && k in Keys(table[..])
            && (forall j :: 0 <= j < i ==> !Holds(table[j], k))
        case None => k !in Keys(table[..])
      ensures match found
        case Some(i) =>
          var r := table[i]; r.used && r.high == s.high && r.low == s.low && r.declType == subType && r.port == port
        case None => forall i :: 0 <= i < table.Length ==>
          var r := table[i]; !(r.used && r.high == s.high && r.low == s.low && r.declType == subType && r.port == port)
    {
      for i := 0 to table.Length
        invariant forall j :: 0 <= j < i ==> !Holds(table[j], Key(s.high, s.low, subType, port))
      {
        var r := table[i];
        if r.used && r.high == s.high && r.low == s.low && r.declType == subType && r.port == port {
          assert table[..][i] == r;
          return Some(i);
        }
      }
      return None;
    }

    /** `msrp_get_free_reservation`: the first free record, zeroed and marked as used. */
    method GetFree() returns (slot: nat)
      requires exists i :: 0 <= i < table.Length && !table[i].used
      modifies table
      ensures slot < table.Length && !old(table[slot].used)
      ensures forall j :: 0 <= j < slot ==> old(table[j].used)
      ensures table[..] == old(table[..])[slot := Reservation(true, 0, 0, 0, 0, 0, 0, 0, 0)]
    {
      slot := 0;
      while table[slot].used
        invariant slot < table.Length && (forall j :: 0 <= j < slot ==> table[j].used)
        decreases table.Length - slot
      {
        slot := slot + 1;
      }
      table[slot] := Reservation(true, 0, 0, 0, 0, 0, 0, 0, 0);
    }

    /** `msrp_make_reservation`. */
    method Make(s: Stream, port: nat, t: AttrType, fourPacked: nat) returns (slot: nat)
      requires exists i :: 0 <= i < table.Length && !table[i].used
      modifies table
      ensures slot < table.Length && !old(table[slot].used)
      ensures table[..] == old(table[..])[slot := Made(t, s, port, fourPacked)]
    {
      slot := GetFree();
      var r := table[slot];
      if t == TalkerAdvertise {
        r := r.(port := port, high := s.high, low := s.low, direction := 0, declType := Code(t), latency := s.latency);
      } else if t == TalkerFailed {
        r := r.(port := port, high := s.high, low := s.low, direction := 0, declType := Code(t), latency := s.latency,
                failureCode := s.failureCode);
      } else if t == Listener {
        r := r.(port := port, high := s.high, low := s.low, direction := 1, declType := Code(t),
                fourPacked := fourPacked, latency := s.latency);
      }
      table[slot] := r;
    }

    /** `msrp_mad_join_ind`: a domain changes nothing, a missing stream fails, and otherwise
        the key is in the table afterwards, once, next to exactly what was there before. A new
        record holds the stream, the direction and the type of the attribute, the failure code
        of a failed talker, and the four-packed value of a listener. */
    method JoinIndication(t: AttrType, stream: Option<Stream>, port: nat, fourPacked: nat) returns (result: int)
      requires NoDuplicates(table[..])
      requires t != Domain && stream.Some? && Wanted(t, stream.value, port) !in Keys(table[..]) ==>
        exists i :: 0 <= i < table.Length && !table[i].used
      modifies table
      ensures NoDuplicates(table[..])
      ensures result == if t == Domain || stream.Some? then 1 else -1
      ensures Keys(table[..]) ==
        old(Keys(table[..])) + if t != Domain && stream.Some? then {Wanted(t, stream.value, port)} else {}
      ensures forall i :: 0 <= i < table.Length && old(table[i].used) ==> table[i] == old(table[i])
      ensures if t == Domain || stream.None? || Wanted(t, stream.value, port) in old(Keys(table[..]))
        then table[..] == old(table[..])
        else Added(old(table[..]), table[..], Reservation(
          true, stream.value.high, stream.value.low, if t == Listener then 1 else 0,
          match t case TalkerAdvertise => 0 case TalkerFailed => 1 case Listener => 2 case Domain => 3,
          stream.value.latency, if t == TalkerFailed then stream.value.failureCode else 0, port,
          if t == Listener then fourPacked else 0))
    {
      if t == Domain { return 1; }
      if stream.None? { return -1; }
      var found := Find(stream.value, port, Code(t));
      if found.None? {
        ghost var before := table[..];
        var slot := Make(stream.value, port, t, fourPacked);
        KeysAfterMake(before, slot, Made(t, stream.value, port, fourPacked));
        forall i | 0 <= i < table.Length && before[i].used
          ensures table[i] == before[i]
        {
          assert table[i] == table[..][i];
        }
      }
      return 1;
    }

    /** `msrp_mad_leave_indication`: exactly the looked-up key leaves the set. */
    method LeaveIndication(t: AttrType, s: Stream, port: nat, fourPacked: nat)
      requires NoDuplicates(table[..])
      modifies table
      ensures NoDuplicates(table[..])
      ensures Keys(table[..]) ==
        if t == Domain then old(Keys(table[..])) else old(Keys(table[..])) - {Released(t, s, port, fourPacked)}
      ensures forall i :: 0 <= i < table.Length && table[i].used ==> table[i] == old(table[i])
    {
      if t == Domain { return; }
      var found: Option<nat>;
      if t == TalkerAdvertise || t == TalkerFailed {
        found := Find(s, port, Code(t));
      } else {
        found := Find(s, port, fourPacked);
      }
      if found.Some? {
        ghost var before := table[..];
        table[found.value] := table[found.value].(used := false);
        KeysAfterRelease(before, found.value, table[..]);
      }
    }
  }

  /** A record with a new key in a free slot adds that key. */
  lemma KeysAfterMake(table: seq<Reservation>, slot: nat, r: Reservation)
    requires NoDuplicates(table) && slot < |table| && !table[slot].used && r.used && KeyOf(r) !in Keys(table)
    ensures NoDuplicates(table[slot := r]) && Keys(table[slot := r]) == Keys(table) + {KeyOf(r)}
  {
    var after := table[slot := r];
    forall k | k in Keys(table) + {KeyOf(r)}
      ensures k in Keys(after)
    {
      if k == KeyOf(r) {
        assert after[slot] == r;
      } else {
        var i :| 0 <= i < |table| && table[i].used && KeyOf(table[i]) == k;
        assert after[i] == table[i];
      }
    }
  }

  /** Releasing the record of a key removes that key, since no other record holds it. */
  lemma KeysAfterRelease(table: seq<Reservation>, slot: nat, after: seq<Reservation>)
    requires NoDuplicates(table) && slot < |table| && table[slot].used
    requires after == table[slot := table[slot].(used := false)]
    ensures NoDuplicates(after) && Keys(after) == Keys(table) - {KeyOf(table[slot])}
  {
    forall k | k in Keys(table) && k != KeyOf(table[slot])
      ensures k in Keys(after)
    {
      var i :| 0 <= i < |table| && table[i].used && KeyOf(table[i]) == k;
      assert after[i] == table[i];
    }
  }

  // ----- histories

  datatype Indication =
    | JoinOf(t: AttrType, stream: Stream, port: nat, fourPacked: nat)
    | LeaveOf(t: AttrType, stream: Stream, port: nat, fourPacked: nat)

  /** What an indication does to the set of keys, as the methods establish it. */
  ghost function Effect(keys: set<Key>, i: Indication): set<Key> {
    match i
    case JoinOf(t, s, p, f) => if t == Domain then keys else keys + {Wanted(t, s, p)}
    case LeaveOf(t, s, p, f) => if t == Domain then keys else keys - {Released(t, s, p, f)}
  }

  /** What it is meant to do: a leave takes back the join of the same attribute. */
  ghost function Intended(keys: set<Key>, i: Indication): set<Key> {
    match i
    case JoinOf(t, s, p, f) => if t == Domain then keys else keys + {Wanted(t, s, p)}
    case LeaveOf(t, s, p, f) => if t == Domain then keys else keys - {Wanted(t, s, p)}
  }

  ghost function EffectAll(keys: set<Key>, history: seq<Indication>): set<Key> {
    if history == [] then keys else Effect(EffectAll(keys, history[..|history| - 1]), history[|history| - 1])
  }

  ghost function IntendedAll(keys: set<Key>, history: seq<Indication>): set<Key> {
    if history == [] then keys else Intended(IntendedAll(keys, history[..|history| - 1]), history[|history| - 1])
  }

  /** A leave removes the key of its join exactly if it is a talker's, or a listener's whose
      four-packed value is 2 (Ready), which happens to be the number of the listener type. */
  lemma LeaveIsIntended(keys: set<Key>, t: AttrType, s: Stream, port: nat, fourPacked: nat)
    requires t != Domain && Wanted(t, s, port) in keys
    ensures Effect(keys, LeaveOf(t, s, port, fourPacked)) == Intended(keys, LeaveOf(t, s, port, fourPacked))
      <==> t != Listener || fourPacked == 2
  {
    if t == Listener && fourPacked != 2 {
      assert Wanted(t, s, port) in Effect(keys, LeaveOf(t, s, port, fourPacked));
    }
  }

  /** A listener that leaves with the value 0 (Ignore) ends the talker's reservation instead. */
  lemma ListenerEndsTalker(keys: set<Key>, s: Stream, port: nat)
    requires Wanted(Listener, s, port) in keys
    ensures var after := Effect(keys, LeaveOf(Listener, s, port, 0));
      Wanted(Listener, s, port) in after && Wanted(TalkerAdvertise, s, port) !in after
  {
  }

  ghost predicate LeavesAsReady(history: seq<Indication>) {
    forall k :: 0 <= k < |history| ==>
      (history[k].LeaveOf? && history[k].t == Listener ==> history[k].fourPacked == 2)
  }

  /** The table follows its intention through every history in which listeners leave as
      Ready. */
  lemma {:induction false} HistoryIntended(keys: set<Key>, history: seq<Indication>)
    requires LeavesAsReady(history)
    ensures EffectAll(keys, history) == IntendedAll(keys, history)
    decreases |history|
  {
    if history != [] {
      HistoryIntended(keys, history[..|history| - 1]);
    }
  }

  // ----- histories on the table

  lemma {:induction false} AllUsed(table: seq<Reservation>)
    requires NoDuplicates(table) && forall i :: 0 <= i < |table| ==> table[i].used
    ensures |Keys(table)| == |table|
    decreases |table|
  {
    if table == [] {
      assert Keys(table) == {};
    } else {
      var n := |table| - 1;
      AllUsed(table[..n]);
      KeysOfLast(table);
    }
  }

  lemma KeysOfLast(table: seq<Reservation>)
    requires table != [] && NoDuplicates(table) && forall i :: 0 <= i < |table| ==> table[i].used
    ensures var n := |table| - 1;
      Keys(table) == Keys(table[..n]) + {KeyOf(table[n])} && KeyOf(table[n]) !in Keys(table[..n])
  {
    var n := |table| - 1;
    forall k | k in Keys(table[..n])
      ensures k in Keys(table) && k != KeyOf(table[n])
    {
      var i :| 0 <= i < n && table[..n][i].used && KeyOf(table[..n][i]) == k;
      assert table[i] == table[..n][i];
    }
    forall k | k in Keys(table) && k != KeyOf(table[n])
      ensures k in Keys(table[..n])
    {
      var i :| 0 <= i < |table| && table[i].used && KeyOf(table[i]) == k;
      assert table[..n][i] == table[i];
    }
  }

  /** A table that holds fewer keys than it has records has a free one. */
  lemma FreeRecord(table: seq<Reservation>)
    requires NoDuplicates(table) && |Keys(table)| < |table|
    ensures exists i :: 0 <= i < |table| && !table[i].used
  {
    if forall i :: 0 <= i < |table| ==> table[i].used {
      AllUsed(table);
    }
  }

  /** A join of a new key finds the table with fewer keys than records. */
  ghost predicate HasRoom(keys: set<Key>, i: Indication, capacity: nat) {
    i.JoinOf? && i.t != Domain && Wanted(i.t, i.stream, i.port) !in keys ==> |keys| < capacity
  }

  /** One indication, as the state machine of an attribute gives it. */
  method Indicate(r: Reservations, i: Indication)
    requires NoDuplicates(r.table[..]) && HasRoom(Keys(r.table[..]), i, r.table.Length)
    modifies r.table
    ensures NoDuplicates(r.table[..]) && Keys(r.table[..]) == Effect(old(Keys(r.table[..])), i)
  {
    match i
    case JoinOf(t, s, port, fourPacked) =>
      if t != Domain && Wanted(t, s, port) !in Keys(r.table[..]) { FreeRecord(r.table[..]); }
      var _ := r.JoinIndication(t, Some(s), port, fourPacked);
    case LeaveOf(t, s, port, fourPacked) => r.LeaveIndication(t, s, port, fourPacked);
  }

  /** Any history within the capacity of the table. If listeners leave as Ready, the table then
      holds exactly what was joined and not taken back. */
  method Follow(r: Reservations, history: seq<Indication>)
    requires NoDuplicates(r.table[..])
    requires forall k :: 0 <= k < |history| ==>
      HasRoom(EffectAll(Keys(r.table[..]), history[..k]), history[k], r.table.Length)
    modifies r.table
    ensures NoDuplicates(r.table[..]) && Keys(r.table[..]) == EffectAll(old(Keys(r.table[..])), history)
    ensures LeavesAsReady(history) ==> Keys(r.table[..]) == IntendedAll(old(Keys(r.table[..])), history)
  {
    ghost var keys := Keys(r.table[..]);
    for k := 0 to |history|
      invariant NoDuplicates(r.table[..]) && Keys(r.table[..]) == EffectAll(keys, history[..k])
    {
      assert history[..k + 1][..k] == history[..k];
      Indicate(r, history[k]);
    }
    assert history[..|history|] == history;
    if LeavesAsReady(history) {
      HistoryIntended(keys, history);
    }
  }
}
