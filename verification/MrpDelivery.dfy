/**
 A series of calls of `doTx` (msrp/vtss_msrp.c), and what the receiver visits of it: every call
 is one visit with the call's attribute and event, behind the values of the message that takes
 it or with the call's own first value.
 */
module MrpDelivery {
  import opened Octets
  import opened MrpAttributes
  import opened MrpPacking
  import opened MrpPdu
  import opened MrpReceive

  // ----- the calls of doTx, from an empty PDU

  datatype Request = Request(attr: AttrType, first: seq<Byte>, event: ThreeEvent, check: Check)

  /** The messages after a series of calls, from an empty PDU. */
  function SentAll(requests: seq<Request>): seq<Message> {
    if requests == [] then []
    else
      var last := requests[|requests| - 1];
      Sent(SentAll(requests[..|requests| - 1]), last.attr, last.first, last.event, last.check)
  }

  /** The message that takes the k-th event has room for it in its count octet. */
  ghost predicate CountFits(requests: seq<Request>, k: nat)
    requires k < |requests|
  {
    var ms := SentAll(requests[..k]);
    var t := Target(ms, requests[k].attr, requests[k].check);
    t < |ms| ==> |ms[t].three| < 255
  }

  lemma SeriesBefore(requests: seq<Request>)
    requires requests != [] && forall k :: 0 <= k < |requests| ==>
      |requests[k].first| == FirstLength(requests[k].attr) && CountFits(requests, k)
    ensures var before := requests[..|requests| - 1]; forall k :: 0 <= k < |before| ==>
      |before[k].first| == FirstLength(before[k].attr) && CountFits(before, k)
  {
    var before := requests[..|requests| - 1];
    forall k | 0 <= k < |before|
      ensures |before[k].first| == FirstLength(before[k].attr) && CountFits(before, k)
    {
      assert before[k] == requests[k] && before[..k] == requests[..k] && CountFits(requests, k);
    }
  }

  /** A series of calls that never meets a full count keeps the PDU well-formed. */
  lemma {:induction false} RunWellFormed(requests: seq<Request>)
    requires forall k :: 0 <= k < |requests| ==>
      |requests[k].first| == FirstLength(requests[k].attr) && CountFits(requests, k)
    ensures forall j :: 0 <= j < |SentAll(requests)| ==> WellFormed(SentAll(requests)[j])
    decreases |requests|
  {
    if requests != [] {
      var n := |requests| - 1;
      var before := requests[..n];
      SeriesBefore(requests);
      RunWellFormed(before);
      assert CountFits(requests, n);
      SentWellFormed(SentAll(before), requests[n].attr, requests[n].first, requests[n].event, requests[n].check);
    }
  }

  function Values(ms: seq<Message>): nat {
    if ms == [] then 0 else Values(ms[..|ms| - 1]) + |ms[|ms| - 1].three|
  }

  lemma {:induction false} ValuesExtended(ms: seq<Message>, k: nat, event: ThreeEvent)
    requires k < |ms|
    ensures Values(ms[k := Extended(ms[k], event)]) == Values(ms) + 1
    decreases |ms|
  {
    var n, after := |ms| - 1, ms[k := Extended(ms[k], event)];
    if k == n {
      assert after[..n] == ms[..n];
    } else {
      assert after[..n] == ms[..n][k := Extended(ms[..n][k], event)];
      ValuesExtended(ms[..n], k, event);
    }
  }

  /** No event is lost or doubled: every call adds one value. */
  lemma {:induction false} EveryEventSent(requests: seq<Request>)
    ensures Values(SentAll(requests)) == |requests|
    decreases |requests|
  {
    if requests != [] {
      var before, last := requests[..|requests| - 1], requests[|requests| - 1];
      EveryEventSent(before);
      var ms := SentAll(before);
      var k := Target(ms, last.attr, last.check);
      if k < |ms| {
        ValuesExtended(ms, k, last.event);
      } else {
        assert SentAll(requests)[..|ms|] == ms;
      }
    }
  }

  // ----- one call and the visits

  lemma {:induction false} VisitsConcat(ms: seq<Message>, ns: seq<Message>)
    ensures SentVisitsAll(ms + ns) == SentVisitsAll(ms) + SentVisitsAll(ns)
  {
    if ms == [] {
      assert ms + ns == ns;
    } else {
      assert (ms + ns)[1..] == ms[1..] + ns;
      VisitsConcat(ms[1..], ns);
      AssociateVisits(SentVisits(ms[0]), SentVisitsAll(ms[1..]), SentVisitsAll(ns));
    }
  }

  lemma VisitsUpTo(ms: seq<Message>, k: nat)
    requires k < |ms|
    ensures SentVisitsAll(ms[..k + 1]) == SentVisitsAll(ms[..k]) + SentVisits(ms[k])
  {
    assert ms[..k + 1] == ms[..k] + [ms[k]] && [ms[k]][1..] == [];
    VisitsConcat(ms[..k], [ms[k]]);
  }

  lemma VisitsAround(ms: seq<Message>, k: nat)
    requires k < |ms|
    ensures SentVisitsAll(ms) == SentVisitsAll(ms[..k + 1]) + SentVisitsAll(ms[k + 1..])
  {
    assert ms == ms[..k + 1] + ms[k + 1..];
    VisitsConcat(ms[..k + 1], ms[k + 1..]);
  }

  lemma ExtendedVisits(m: Message, event: ThreeEvent)
    requires |m.four| == (if HasFourPacked(m.attr) then |m.three| else 0)
    ensures SentVisits(Extended(m, event)) ==
      SentVisits(m) + [Value(m.attr, m.first, |m.three|, event, if m.attr == Listener then 2 else 0)]
  {
  }

  lemma VisitsReplaced(ms: seq<Message>, k: nat, m: Message, visit: Visit)
    requires k < |ms| && SentVisits(m) == SentVisits(ms[k]) + [visit]
    ensures SentVisitsAll(ms[k := m]) == SentVisitsAll(ms[..k + 1]) + [visit] + SentVisitsAll(ms[k + 1..])
  {
    var after := ms[k := m];
    VisitsAround(after, k);
    VisitsUpTo(after, k);
    VisitsUpTo(ms, k);
    assert after[..k] == ms[..k] && after[k + 1..] == ms[k + 1..];
    AssociateVisits(SentVisitsAll(ms[..k]), SentVisits(ms[k]), [visit]);
  }

  /** A call is one visit more, of the call's attribute and event, and Ready for a listener:
      the last one of the first message that has the attribute and passes the check, unless
      the attribute is a domain; if there is none, the last one of all, with the call's first
      value. All other visits stay. */
  lemma OneMoreVisit(ms: seq<Message>, attr: AttrType, first: seq<Byte>, event: ThreeEvent, check: Check, k: nat)
    requires k <= |ms| && forall j :: 0 <= j < |ms| ==> WellFormed(ms[j])
    requires forall j :: 0 <= j < k ==> ms[j].attr != attr || attr == Domain || !check(|ms[j].three|, ms[j].first)
    requires k < |ms| ==> ms[k].attr == attr && attr != Domain && check(|ms[k].three|, ms[k].first)
    ensures var after, four := SentVisitsAll(Sent(ms, attr, first, event, check)), if attr == Listener then 2 else 0;
      if k == |ms| then after == SentVisitsAll(ms) + [Value(attr, first, 0, event, four)]
      else
        && SentVisitsAll(ms) == SentVisitsAll(ms[..k + 1]) + SentVisitsAll(ms[k + 1..])
        && after == SentVisitsAll(ms[..k + 1]) + [Value(attr, ms[k].first, |ms[k].three|, event, four)]
                    + SentVisitsAll(ms[k + 1..])
  {
    if k == |ms| {
      TargetNone(ms, attr, check);
      var m := Message(attr, first, [], []);
      ExtendedVisits(m, event);
      var after := ms + [Extended(m, event)];
      VisitsUpTo(after, |ms|);
      assert after[..|ms| + 1] == after && after[..|ms|] == ms && SentVisits(m) == [];
    } else {
      TargetIs(ms, attr, check, k);
      ExtendedVisits(ms[k], event);
      VisitsAround(ms, k);
      VisitsReplaced(ms, k, Extended(ms[k], event),
                     Value(attr, ms[k].first, |ms[k].three|, event, if attr == Listener then 2 else 0));
    }
  }

  // ----- a series of calls and the visits

  /** The first value of a message. */
  ghost predicate Starts(v: Visit) {
    v.Value? && v.index == 0
  }

  /** The visit of a call that opened a message: the message carries the call's first value. */
  ghost predicate Opens(v: Visit, r: Request) {
    v == Value(r.attr, r.first, 0, r.event, if r.attr == Listener then 2 else 0)
  }

  /** The visit of a call that a message took: it is the next value behind the visit before,
      of the same attribute, and passed the call's check. */
  ghost predicate Continues(before: Visit, v: Visit, r: Request) {
    && before.Value? && before.attr == r.attr != Domain && r.check(before.index + 1, before.first)
    && v == Value(r.attr, before.first, before.index + 1, r.event, if r.attr == Listener then 2 else 0)
  }

  /** The p-th visit is of the call `from[p]`, and the calls of a message are in their order. */
  ghost predicate IsOf(from: seq<nat>, requests: seq<Request>, visits: seq<Visit>, p: nat)
    requires p < |from| == |visits|
  {
    && from[p] < |requests|
    && (|| Opens(visits[p], requests[from[p]])
        || (p > 0 && from[p - 1] < from[p] && Continues(visits[p - 1], visits[p], requests[from[p]])))
  }

  /** Which call every visit is of: each call is visited once, and the messages are in the order
      of the calls that opened them. */
  ghost predicate Explains(from: seq<nat>, requests: seq<Request>, visits: seq<Visit>) {
    && |from| == |visits| == |requests|
    && (forall p :: 0 <= p < |from| ==> IsOf(from, requests, visits, p))
    && (forall p, q :: 0 <= p < q < |from| ==> from[p] != from[q])
    && (forall p, q :: 0 <= p < q < |from| && Starts(visits[p]) && Starts(visits[q]) ==> from[p] < from[q])
  }

  ghost predicate Explained(requests: seq<Request>, visits: seq<Visit>) {
    exists from :: Explains(from, requests, visits)
  }

  /** The attributes and events of a series of calls, and of a series of visits. */
  function Asked(requests: seq<Request>): seq<(AttrType, ThreeEvent)> {
    seq(|requests|, i requires 0 <= i < |requests| => (requests[i].attr, requests[i].event))
  }

  /** No visit is a LeaveAll. */
  ghost predicate AllValues(visits: seq<Visit>) {
    forall v :: v in visits ==> v.Value?
  }

  function Told(visits: seq<Visit>): seq<(AttrType, ThreeEvent)>
    requires AllValues(visits)
  {
    seq(|visits|, i requires 0 <= i < |visits| => (visits[i].attr, visits[i].three))
  }

  lemma {:induction false} StartsAtZero(ms: seq<Message>)
    requires ms != [] && ms[0].three != []
    ensures SentVisitsAll(ms) != [] && Starts(SentVisitsAll(ms)[0])
  {
  }

  /** A call more, whose visit comes behind the first `a` ones. */
  ghost predicate Inserts(from: seq<nat>, with: seq<nat>, requests: seq<Request>, a: seq<Visit>, v: Visit,
                          b: seq<Visit>) {
    && requests != [] && Explains(from, requests[..|requests| - 1], a + b)
    && with == from[..|a|] + [|requests| - 1] + from[|a|..]
    && (b != [] ==> Starts(b[0]))
    && (if b == [] && Opens(v, requests[|requests| - 1]) then true
        else a != [] && Continues(a[|a| - 1], v, requests[|requests| - 1]))
  }

  lemma InsertedAt(from: seq<nat>, with: seq<nat>, requests: seq<Request>, a: seq<Visit>, v: Visit, b: seq<Visit>,
                   p: nat)
    requires Inserts(from, with, requests, a, v, b) && p < |with|
    ensures if p == |a| then with[p] == |requests| - 1 && (a + [v] + b)[p] == v
      else var o := if p < |a| then p else p - 1;
        with[p] == from[o] && with[p] < |requests| - 1 && requests[with[p]] == requests[..|requests| - 1][from[o]]
          && (a + [v] + b)[p] == (a + b)[o]
  {
    var o := if p < |a| then p else p - 1;
    if p != |a| {
      assert IsOf(from, requests[..|requests| - 1], a + b, o);
    }
  }

  lemma InsertedStep(from: seq<nat>, with: seq<nat>, requests: seq<Request>, a: seq<Visit>, v: Visit, b: seq<Visit>,
                     p: nat)
    requires Inserts(from, with, requests, a, v, b) && p < |with|
    ensures IsOf(with, requests, a + [v] + b, p)
  {
    InsertedAt(from, with, requests, a, v, b, p);
    if p > 0 { InsertedAt(from, with, requests, a, v, b, p - 1); }
    if p < |a| {
      assert IsOf(from, requests[..|requests| - 1], a + b, p);
    } else if p > |a| {
      assert IsOf(from, requests[..|requests| - 1], a + b, p - 1);
      if p == |a| + 1 { assert (a + b)[|a|] == b[0]; }
    }
  }

  lemma InsertedPair(from: seq<nat>, with: seq<nat>, requests: seq<Request>, a: seq<Visit>, v: Visit, b: seq<Visit>,
                     p: nat, q: nat)
    requires Inserts(from, with, requests, a, v, b) && p < q < |with|
    ensures with[p] != with[q]
    ensures var after := a + [v] + b; Starts(after[p]) && Starts(after[q]) ==> with[p] < with[q]
  {
    InsertedAt(from, with, requests, a, v, b, p);
    InsertedAt(from, with, requests, a, v, b, q);
  }

  lemma Inserted(from: seq<nat>, with: seq<nat>, requests: seq<Request>, a: seq<Visit>, v: Visit, b: seq<Visit>)
    requires Inserts(from, with, requests, a, v, b)
    ensures Explained(requests, a + [v] + b)
  {
    forall p | 0 <= p < |with|
      ensures IsOf(with, requests, a + [v] + b, p)
    {
      InsertedStep(from, with, requests, a, v, b, p);
    }
    forall p, q | 0 <= p < q < |with|
      ensures with[p] != with[q]
      ensures var after := a + [v] + b; Starts(after[p]) && Starts(after[q]) ==> with[p] < with[q]
    {
      InsertedPair(from, with, requests, a, v, b, p, q);
    }
    assert Explains(with, requests, a + [v] + b);
  }

  lemma LastOfMessage(ms: seq<Message>, k: nat)
    requires k < |ms| && WellFormed(ms[k])
    ensures var a := SentVisitsAll(ms[..k + 1]); a != [] && a[|a| - 1] == Sender(ms[k], |ms[k].three| - 1)
  {
    VisitsUpTo(ms, k);
  }

  /** Where the visit of a call comes, and what it is. */
  lemma NewVisit(ms: seq<Message>, r: Request) returns (a: seq<Visit>, v: Visit, b: seq<Visit>)
    requires forall j :: 0 <= j < |ms| ==> WellFormed(ms[j])
    ensures SentVisitsAll(ms) == a + b
    ensures SentVisitsAll(Sent(ms, r.attr, r.first, r.event, r.check)) == a + [v] + b
    ensures b != [] ==> Starts(b[0])
    ensures if b == [] && Opens(v, r) then true else a != [] && Continues(a[|a| - 1], v, r)
  {
    var k := Target(ms, r.attr, r.check);
    OneMoreVisit(ms, r.attr, r.first, r.event, r.check, k);
    var four := if r.attr == Listener then 2 else 0;
    if k == |ms| {
      a, v, b := SentVisitsAll(ms), Value(r.attr, r.first, 0, r.event, four), [];
      assert a + [] == a && a + [v] + [] == a + [v];
    } else {
      v := Value(r.attr, ms[k].first, |ms[k].three|, r.event, four);
      a, b := SentVisitsAll(ms[..k + 1]), SentVisitsAll(ms[k + 1..]);
      LastOfMessage(ms, k);
      if b != [] { StartsAtZero(ms[k + 1..]); }
    }
  }

  /** One more call keeps the visits explained, wherever its visit comes. */
  lemma ExplainedStep(requests: seq<Request>, ms: seq<Message>)
    requires requests != [] && (forall j :: 0 <= j < |ms| ==> WellFormed(ms[j]))
    requires Explained(requests[..|requests| - 1], SentVisitsAll(ms))
    ensures var r := requests[|requests| - 1];
      Explained(requests, SentVisitsAll(Sent(ms, r.attr, r.first, r.event, r.check)))
  {
    var from :| Explains(from, requests[..|requests| - 1], SentVisitsAll(ms));
    var a, v, b := NewVisit(ms, requests[|requests| - 1]);
    Inserted(from, from[..|a|] + [|requests| - 1] + from[|a|..], requests, a, v, b);
  }

  lemma ToldInserted(a: seq<Visit>, v: Visit, b: seq<Visit>)
    requires AllValues(a + b) && v.Value?
    ensures AllValues(a + [v] + b)
    ensures multiset(Told(a + [v] + b)) == multiset(Told(a + b)) + multiset{(v.attr, v.three)}
  {
    forall w | w in a
      ensures w in a + b
    {
    }
    assert forall w :: w in b ==> w in a + b;
    assert Told(a + b) == Told(a) + Told(b);
    assert Told(a + [v] + b) == Told(a) + [(v.attr, v.three)] + Told(b);
  }

  lemma AskedLast(requests: seq<Request>)
    requires requests != []
    ensures var r := requests[|requests| - 1];
      multiset(Asked(requests)) == multiset(Asked(requests[..|requests| - 1])) + multiset{(r.attr, r.event)}
  {
    var r := requests[|requests| - 1];
    assert Asked(requests) == Asked(requests[..|requests| - 1]) + [(r.attr, r.event)];
  }

  /** A series of calls that never meets a full count is visited call by call: no LeaveAll,
      exactly the attributes and events that were asked for, and every visit explained. */
  lemma {:induction false} SeriesVisited(requests: seq<Request>)
    requires forall k :: 0 <= k < |requests| ==>
      |requests[k].first| == FirstLength(requests[k].attr) && CountFits(requests, k)
    ensures var visits := SentVisitsAll(SentAll(requests));
      && AllValues(visits) && multiset(Told(visits)) == multiset(Asked(requests))
      && Explained(requests, visits)
    decreases |requests|
  {
    if requests == [] {
      assert Explains([], requests, []);
    } else {
      var before := requests[..|requests| - 1];
      SeriesBefore(requests);
      SeriesVisited(before);
      RunWellFormed(before);
      ExplainedStep(requests, SentAll(before));
      var a, v, b := NewVisit(SentAll(before), requests[|requests| - 1]);
      ToldInserted(a, v, b);
      AskedLast(requests);
    }
  }
}
