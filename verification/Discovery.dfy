/** The multicast listener's duplicate filter. */
module Discovery {
  import opened Protocol
  import opened Names

  /** Two seconds, in nanoseconds. */
  const WINDOW: int := 2_000_000_000

  datatype Announcement = Announcement(fingerprint: string, port: int, announce: bool)

  /** A datagram: msg is None when it cannot be decoded; routable tells whether its source is a UDP address. */
  datatype Packet = Packet(msg: Option<Announcement>, routable: bool, at: int)

  datatype Verdict = Malformed | SelfEcho | Duplicate | Unroutable | Delivered(answered: bool)

  datatype Identity = Identity(fingerprint: string, port: int)

  type LastReceived = map<string, int>

  function Key(fingerprint: string, port: int): string {
    fingerprint + ":" + Decimal(port)
  }

  function KeyOf(p: Packet): string
    requires p.msg.Some?
  {
    Key(p.msg.value.fingerprint, p.msg.value.port)
  }

  function Judge(me: Identity, last: LastReceived, p: Packet): Verdict {
    if p.msg.None? then Malformed
    else if p.msg.value.fingerprint == me.fingerprint && p.msg.value.port == me.port then SelfEcho
    else if KeyOf(p) in last && p.at - last[KeyOf(p)] < WINDOW then Duplicate
    else if !p.routable then Unroutable
    else Delivered(p.msg.value.announce && p.msg.value.port > 0)
  }

  predicate Recorded(v: Verdict) {
    v.Unroutable? || v.Delivered?
  }

  function Remember(me: Identity, last: LastReceived, p: Packet): LastReceived {
    if Recorded(Judge(me, last, p)) then last[KeyOf(p) := p.at] else last
  }

  /** The table after a whole trace. */
  function After(me: Identity, trace: seq<Packet>): LastReceived {
    if trace == [] then map[]
    else Remember(me, After(me, trace[..|trace| - 1]), trace[|trace| - 1])
  }

  function VerdictAt(me: Identity, trace: seq<Packet>, i: nat): Verdict
    requires i < |trace|
  {
    Judge(me, After(me, trace[..i]), trace[i])
  }

  // ----- the key -----

  lemma SeparatorNotBefore(s: string, t: string, s': string, t': string, c: char)
    requires c !in t && s + [c] + t == s' + [c] + t'
    ensures |s'| <= |s|
  {
    var u := s + [c] + t;
    assert u[|s'|] == (s' + [c] + t')[|s'|] == c;
    assert forall k :: |s| < k < |u| ==> u[k] == t[k - |s| - 1];
  }

  lemma LastSeparatorSplits(s: string, t: string, s': string, t': string, c: char)
    requires c !in t && c !in t' && s + [c] + t == s' + [c] + t'
    ensures s == s' && t == t'
  {
    SeparatorNotBefore(s, t, s', t', c);
    SeparatorNotBefore(s', t', s, t, c);
    var u := s + [c] + t;
    assert u[..|s|] == s && u[..|s|] == s';
    assert u[|s| + 1..] == t && u[|s| + 1..] == t';
  }

  /** Different pairs get different keys, even when fingerprints contain colons. */
  lemma KeyInjective(f: string, p: int, f': string, p': int)
    requires Key(f, p) == Key(f', p')
    ensures f == f' && p == p'
  {
    DigitsAreDigits(if p < 0 then -p else p);
    DigitsAreDigits(if p' < 0 then -p' else p');
    LastSeparatorSplits(f, Decimal(p), f', Decimal(p'), ':');
    DecimalInjective(p, p');
  }

  // ----- traces -----

  ghost predicate TimeOrdered(trace: seq<Packet>) {
    forall i, j :: 0 <= i <= j < |trace| ==> trace[i].at <= trace[j].at
  }

  predicate SameSender(p: Packet, q: Packet) {
    && p.msg.Some? && q.msg.Some?
    && p.msg.value.fingerprint == q.msg.value.fingerprint && p.msg.value.port == q.msg.value.port
  }

  lemma AfterOneMore(me: Identity, trace: seq<Packet>, n: nat)
    requires n < |trace|
    ensures After(me, trace[..n + 1]) == Remember(me, After(me, trace[..n]), trace[n])
  {
    assert trace[..n + 1][..n] == trace[..n];
  }

  /** Packet i was recorded and has this key. */
  predicate RecordedAs(me: Identity, trace: seq<Packet>, i: nat, key: string)
    requires i < |trace|
  {
    Recorded(VerdictAt(me, trace, i)) && KeyOf(trace[i]) == key
  }

  lemma RememberAt(me: Identity, last: LastReceived, p: Packet, key: string)
    ensures var after := Remember(me, last, p);
      if Recorded(Judge(me, last, p)) && KeyOf(p) == key then key in after && after[key] == p.at
      else (key in after <==> key in last) && (key in last ==> after[key] == last[key])
  {
  }

  /** No packet after i and before n was recorded with this key. */
  ghost predicate NoneBetween(me: Identity, trace: seq<Packet>, i: nat, n: nat, key: string)
    requires n <= |trace|
  {
    forall k :: i < k < n ==> !RecordedAs(me, trace, k, key)
  }

  /** A key in the table was put there by a recorded packet, the last one with that key. */
  lemma {:induction false} TableHoldsLastRecorded(me: Identity, trace: seq<Packet>, n: nat, key: string)
    returns (i: nat)
    requires n <= |trace| && key in After(me, trace[..n])
    ensures i < n && RecordedAs(me, trace, i, key) && After(me, trace[..n])[key] == trace[i].at
    ensures NoneBetween(me, trace, i, n, key)
  {
    AfterOneMore(me, trace, n - 1);
    RememberAt(me, After(me, trace[..n - 1]), trace[n - 1], key);
    if RecordedAs(me, trace, n - 1, key) {
      i := n - 1;
    } else {
      assert key in After(me, trace[..n - 1]);
      i := TableHoldsLastRecorded(me, trace, n - 1, key);
      NoneBetweenOneMore(me, trace, i, n, key);
    }
  }

  lemma NoneBetweenOneMore(me: Identity, trace: seq<Packet>, i: nat, n: nat, key: string)
    requires i < n <= |trace| && NoneBetween(me, trace, i, n - 1, key)
    requires !RecordedAs(me, trace, n - 1, key)
    ensures NoneBetween(me, trace, i, n, key)
  {
  }

  /** A recorded packet leaves its key in the table for as long as the trace goes on. */
  lemma {:induction false} RecordedStays(me: Identity, trace: seq<Packet>, i: nat, n: nat)
    requires i < n <= |trace| && Recorded(VerdictAt(me, trace, i))
    ensures KeyOf(trace[i]) in After(me, trace[..n])
  {
    AfterOneMore(me, trace, n - 1);
    if i < n - 1 {
      RecordedStays(me, trace, i, n - 1);
    }
  }

  /** Two deliveries for the same sender are at least the window apart. */
  lemma DeliveriesAreSpaced(me: Identity, trace: seq<Packet>, i: nat, j: nat)
    requires TimeOrdered(trace) && i < j < |trace|
    requires Recorded(VerdictAt(me, trace, i)) && Recorded(VerdictAt(me, trace, j))
    requires SameSender(trace[i], trace[j])
    ensures trace[j].at - trace[i].at >= 2_000_000_000
  {
    var key := KeyOf(trace[j]);
    RecordedStays(me, trace, i, j);
    var k := TableHoldsLastRecorded(me, trace, j, key);
    assert RecordedAs(me, trace, i, key);
    assert trace[i].at <= trace[k].at;
  }

  /** Packet i was recorded, has the sender of packet j, and came less than the window before it. */
  ghost predicate RecentFor(me: Identity, trace: seq<Packet>, j: nat, i: nat)
    requires i < j < |trace|
  {
    && (VerdictAt(me, trace, i).Unroutable? || VerdictAt(me, trace, i).Delivered?)
    && SameSender(trace[i], trace[j]) && trace[j].at - trace[i].at < 2_000_000_000
  }

  /** A packet is dropped as a duplicate exactly when a recorded one of the same sender came less than the window
      before it. */
  lemma DroppedIffRecent(me: Identity, trace: seq<Packet>, j: nat)
    requires TimeOrdered(trace) && j < |trace|
    requires trace[j].msg.Some? && VerdictAt(me, trace, j) != SelfEcho
    ensures VerdictAt(me, trace, j) == Duplicate <==> exists i :: 0 <= i < j && RecentFor(me, trace, j, i)
  {
    if VerdictAt(me, trace, j) == Duplicate {
      var i := TableHoldsLastRecorded(me, trace, j, KeyOf(trace[j]));
      KeyInjective(trace[i].msg.value.fingerprint, trace[i].msg.value.port,
                   trace[j].msg.value.fingerprint, trace[j].msg.value.port);
      assert RecentFor(me, trace, j, i);
    } else if exists i :: 0 <= i < j && RecentFor(me, trace, j, i) {
      var i :| 0 <= i < j && RecentFor(me, trace, j, i);
      DeliveriesAreSpaced(me, trace, i, j);
    }
  }

  /** What becomes of every packet of a trace: an undecodable one is dropped, then one with the own fingerprint from the
      own port, then one that follows a recorded one of its sender too soon; of the others those with a UDP source are
      delivered, and answered if they ask for it and name a port. */
  lemma VerdictsExactly(me: Identity, trace: seq<Packet>, j: nat)
    requires TimeOrdered(trace) && j < |trace|
    ensures var p, v := trace[j], VerdictAt(me, trace, j);
      var recent := exists i :: 0 <= i < j && RecentFor(me, trace, j, i);
      if p.msg.None? then v == Malformed
      else if p.msg.value.fingerprint == me.fingerprint && p.msg.value.port == me.port then v == SelfEcho
      else if recent then v == Duplicate
      else if !p.routable then v == Unroutable
      else v.Delivered? && (v.answered <==> p.msg.value.announce && p.msg.value.port > 0)
  {
    if trace[j].msg.Some? && VerdictAt(me, trace, j) != SelfEcho {
      DroppedIffRecent(me, trace, j);
    }
  }

  // ----- the listener -----

  class Listener {
    const me: Identity
    var lastReceived: LastReceived

    constructor (me: Identity)
      ensures this.me == me && lastReceived == map[]
    {
      this.me, lastReceived := me, map[];
    }

    method HandlePacket(p: Packet) returns (verdict: Verdict)
      modifies this
      ensures verdict == Judge(me, old(lastReceived), p)
      ensures lastReceived == Remember(me, old(lastReceived), p)
      ensures verdict.Delivered? ==> p.routable && (verdict.answered <==> p.msg.value.announce && p.msg.value.port > 0)
    {
      if p.msg.None? {
        return Malformed;
      }
      var msg := p.msg.value;
      if msg.fingerprint == me.fingerprint && msg.port == me.port {
        return SelfEcho;
      }
      var dedupKey := Key(msg.fingerprint, msg.port);
      if dedupKey in lastReceived {
        if p.at - lastReceived[dedupKey] < WINDOW {
          return Duplicate;
        }
      }
      lastReceived := lastReceived[dedupKey := p.at];
      if !p.routable {
        return Unroutable;
      }
      verdict := Delivered(msg.announce && msg.port > 0);
    }

    /** The receive loop over the packets of one connection. */
    method HandleConn(trace: seq<Packet>) returns (verdicts: seq<Verdict>)
      requires lastReceived == map[]
      modifies this
      ensures |verdicts| == |trace| && lastReceived == After(me, trace)
      ensures forall i :: 0 <= i < |trace| ==> verdicts[i] == VerdictAt(me, trace, i)
    {
      verdicts := [];
      for n := 0 to |trace|
        invariant |verdicts| == n && lastReceived == After(me, trace[..n])
        invariant forall i :: 0 <= i < n ==> verdicts[i] == VerdictAt(me, trace, i)
      {
        AfterOneMore(me, trace, n);
        var verdict := HandlePacket(trace[n]);
        verdicts := verdicts + [verdict];
      }
      assert trace[..|trace|] == trace;
    }
  }
}
