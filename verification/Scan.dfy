/** The legacy scan: which endpoints it probes, and the pool of 64 slots that probes them. */
module Scan {
  import opened Names

  const DEFAULT_PORT: int := 53317

  const SLOTS: nat := 64

  type Octet = x: int | 0 <= x < 256

  datatype Ip = Ip(a: Octet, b: Octet, c: Octet, d: Octet)

  datatype Endpoint = Endpoint(ip: Ip, port: int)

  datatype Identity = Identity(fingerprint: string, port: int)

  const LOOPBACK := Ip(127, 0, 0, 1)

  /** The dotted text that the program compares. */
  function Dotted(ip: Ip): string {
    Digits(ip.a) + "." + (Digits(ip.b) + "." + (Digits(ip.c) + "." + Digits(ip.d)))
  }

  lemma FirstSeparatorSplits(s: string, t: string, s': string, t': string, c: char)
    requires c !in s && c !in s' && s + [c] + t == s' + [c] + t'
    ensures s == s' && t == t'
  {
    var u := s + [c] + t;
    assert u[|s|] == c && u[|s'|] == (s' + [c] + t')[|s'|] == c;
    assert forall k :: 0 <= k < |s| ==> u[k] == s[k];
    assert forall k :: 0 <= k < |s'| ==> u[k] == (s' + [c] + t')[k] == s'[k];
    assert |s| == |s'|;
    assert u[..|s|] == s && u[..|s|] == s';
    assert u[|s| + 1..] == t && u[|s| + 1..] == t';
  }

  /** Comparing texts is comparing addresses. */
  lemma DottedInjective(x: Ip, y: Ip)
    requires Dotted(x) == Dotted(y)
    ensures x == y
  {
    DigitsAreDigits(x.a); DigitsAreDigits(x.b); DigitsAreDigits(x.c);
    DigitsAreDigits(y.a); DigitsAreDigits(y.b); DigitsAreDigits(y.c);
    var x2, y2 := Digits(x.c) + "." + Digits(x.d), Digits(y.c) + "." + Digits(y.d);
    var x1, y1 := Digits(x.b) + "." + x2, Digits(y.b) + "." + y2;
    FirstSeparatorSplits(Digits(x.a), x1, Digits(y.a), y1, '.');
    FirstSeparatorSplits(Digits(x.b), x2, Digits(y.b), y2, '.');
    FirstSeparatorSplits(Digits(x.c), Digits(x.d), Digits(y.c), Digits(y.d), '.');
    DigitsInjective(x.a, y.a);
    DigitsInjective(x.b, y.b);
    DigitsInjective(x.c, y.c);
    DigitsInjective(x.d, y.d);
  }

  /** Section 3 of RFC 1918. */
  predicate IsPrivate(ip: Ip) {
    ip.a == 10 || (ip.a == 172 && 16 <= ip.b <= 31) || (ip.a == 192 && ip.b == 168)
  }

  function Number(ip: Ip): int {
    ((ip.a * 256 + ip.b) * 256 + ip.c) * 256 + ip.d
  }

  /** 10/8, 172.16/12 and 192.168/16, as ranges of numbers. */
  lemma PrivateBlocks(ip: Ip)
    ensures IsPrivate(ip) <==>
      || Number(Ip(10, 0, 0, 0)) <= Number(ip) <= Number(Ip(10, 255, 255, 255))
      || Number(Ip(172, 16, 0, 0)) <= Number(ip) <= Number(Ip(172, 31, 255, 255))
      || Number(Ip(192, 168, 0, 0)) <= Number(ip) <= Number(Ip(192, 168, 255, 255))
  {
  }

  predicate IsSelf(me: Identity, localIPs: seq<Ip>, e: Endpoint) {
    me.fingerprint != "" && e.port == me.port && (e.ip == LOOPBACK || e.ip in localIPs)
  }

  /** The conflict ports of the machine itself. */
  predicate InFirstPhase(me: Identity, localIPs: seq<Ip>, e: Endpoint) {
    && (e.ip == LOOPBACK || e.ip in localIPs)
    && DEFAULT_PORT <= e.port <= DEFAULT_PORT + 9
    && !IsSelf(me, localIPs, e)
  }

  predicate SameSubnet(x: Ip, y: Ip) {
    x.a == y.a && x.b == y.b && x.c == y.c
  }

  /** The default port of a host that is not the scanner's. */
  predicate IsHost(localIPs: seq<Ip>, e: Endpoint) {
    1 <= e.ip.d <= 254 && e.ip !in localIPs && e.port == DEFAULT_PORT
  }

  /** The default port of every other host of every local subnet. */
  predicate InSecondPhase(localIPs: seq<Ip>, e: Endpoint) {
    IsHost(localIPs, e) && exists i :: 0 <= i < |localIPs| && SameSubnet(localIPs[i], e.ip)
  }

  /** Local addresses are private, so the phases never probe the same endpoint. */
  lemma PhasesDisjoint(me: Identity, localIPs: seq<Ip>, e: Endpoint)
    requires forall ip :: ip in localIPs ==> IsPrivate(ip)
    ensures !(InFirstPhase(me, localIPs, e) && InSecondPhase(localIPs, e))
  {
    if InSecondPhase(localIPs, e) {
      var i :| 0 <= i < |localIPs| && SameSubnet(localIPs[i], e.ip);
      assert IsPrivate(localIPs[i]);
    }
  }

  /** How often these addresses list the endpoint of a first-phase target. */
  function ListedPort(me: Identity, localIPs: seq<Ip>, ips: seq<Ip>, e: Endpoint): nat {
    if InFirstPhase(me, localIPs, e) then multiset(ips)[e.ip] else 0
  }

  /** Each conflict port of an address is a target as often as the address is listed. */
  method FirstPhase(me: Identity, localIPs: seq<Ip>) returns (targets: seq<Endpoint>)
    ensures forall e :: e in targets <==> InFirstPhase(me, localIPs, e)
    ensures forall e :: multiset(targets)[e] == ListedPort(me, localIPs, localIPs + [LOOPBACK], e)
  {
    targets := [];
    var ips := localIPs + [LOOPBACK];
    for n := 0 to |ips|
      invariant forall e :: multiset(targets)[e] == ListedPort(me, localIPs, ips[..n], e)
    {
      assert ips[..n + 1] == ips[..n] + [ips[n]];
      for port := DEFAULT_PORT to DEFAULT_PORT + 10
        invariant forall e ::
          multiset(targets)[e] == ListedPort(me, localIPs, ips[..n], e)
            + Flag(InFirstPhase(me, localIPs, e) && e.ip == ips[n] && e.port < port)
      {
        if !IsSelf(me, localIPs, Endpoint(ips[n], port)) {
          targets := targets + [Endpoint(ips[n], port)];
        }
      }
    }
    assert ips[..|ips|] == ips;
    forall e
      ensures e in targets <==> InFirstPhase(me, localIPs, e)
    {
      assert e in targets <==> multiset(targets)[e] > 0;
      assert e.ip in ips <==> multiset(ips)[e.ip] > 0;
    }
  }

  function Subnet(ip: Ip): Ip {
    Ip(ip.a, ip.b, ip.c, 0)
  }

  function Subnets(ips: seq<Ip>): seq<Ip> {
    seq(|ips|, i requires 0 <= i < |ips| => Subnet(ips[i]))
  }

  /** How many of these addresses share the host's subnet. */
  function ListedHost(localIPs: seq<Ip>, ips: seq<Ip>, e: Endpoint): nat {
    if IsHost(localIPs, e) then multiset(Subnets(ips))[Subnet(e.ip)] else 0
  }

  lemma OneMoreSubnet(localIPs: seq<Ip>, ips: seq<Ip>, base: Ip)
    ensures forall e ::
      ListedHost(localIPs, ips + [base], e)
        == ListedHost(localIPs, ips, e) + Flag(IsHost(localIPs, e) && SameSubnet(base, e.ip))
  {
    assert Subnets(ips + [base]) == Subnets(ips) + [Subnet(base)];
  }

  /** The hosts of one local address's subnet, once each. */
  method SubnetHosts(base: Ip, localIPs: seq<Ip>) returns (targets: seq<Endpoint>)
    ensures forall e :: multiset(targets)[e] == Flag(IsHost(localIPs, e) && SameSubnet(base, e.ip))
  {
    targets := [];
    for d := 1 to 255
      invariant forall e :: multiset(targets)[e] == Flag(IsHost(localIPs, e) && SameSubnet(base, e.ip) && e.ip.d < d)
    {
      var ip := Ip(base.a, base.b, base.c, d);
      if ip !in localIPs {
        targets := targets + [Endpoint(ip, DEFAULT_PORT)];
      }
    }
  }

  /** A host is a target once for each local address of its subnet. */
  method SecondPhase(localIPs: seq<Ip>) returns (targets: seq<Endpoint>)
    ensures forall e :: e in targets <==> InSecondPhase(localIPs, e)
    ensures forall e :: multiset(targets)[e] == ListedHost(localIPs, localIPs, e)
  {
    targets := [];
    for n := 0 to |localIPs|
      invariant forall e :: multiset(targets)[e] == ListedHost(localIPs, localIPs[..n], e)
    {
      var hosts := SubnetHosts(localIPs[n], localIPs);
      targets := targets + hosts;
      assert localIPs[..n + 1] == localIPs[..n] + [localIPs[n]];
      OneMoreSubnet(localIPs, localIPs[..n], localIPs[n]);
    }
    assert localIPs[..|localIPs|] == localIPs;
    CountedAreListed(localIPs, targets);
  }

  lemma CountedAreListed(localIPs: seq<Ip>, targets: seq<Endpoint>)
    requires forall e :: multiset(targets)[e] == ListedHost(localIPs, localIPs, e)
    ensures forall e :: e in targets <==> InSecondPhase(localIPs, e)
  {
    forall e
      ensures e in targets <==> InSecondPhase(localIPs, e)
    {
      assert e in targets <==> multiset(targets)[e] > 0;
      SubnetListed(localIPs, e.ip);
    }
  }

  lemma SubnetListed(ips: seq<Ip>, ip: Ip)
    ensures multiset(Subnets(ips))[Subnet(ip)] > 0 <==> exists i :: 0 <= i < |ips| && SameSubnet(ips[i], ip)
  {
    var subnets := Subnets(ips);
    if Subnet(ip) in subnets {
      var i :| 0 <= i < |subnets| && subnets[i] == Subnet(ip);
      assert SameSubnet(ips[i], ip);
    }
    if i :| 0 <= i < |ips| && SameSubnet(ips[i], ip) {
      assert subnets[i] == Subnet(ip);
    }
  }

  /** Every .1 to .254 host of every local subnet is probed on the default port, except the scanner itself. */
  lemma SubnetsAreCovered(me: Identity, localIPs: seq<Ip>, host: Ip)
    requires forall ip :: ip in localIPs ==> IsPrivate(ip)
    requires exists i :: 0 <= i < |localIPs| && SameSubnet(localIPs[i], host)
    requires 1 <= host.d <= 254
    ensures var e := Endpoint(host, DEFAULT_PORT);
      (InFirstPhase(me, localIPs, e) || InSecondPhase(localIPs, e)) <==>
        !(me.fingerprint != "" && me.port == 53317 && host in localIPs)
  {
    var i :| 0 <= i < |localIPs| && SameSubnet(localIPs[i], host);
    assert IsPrivate(localIPs[i]);
  }

  /** Ports 53317 to 53326 of the own addresses and of loopback are probed, except where the scanner itself listens, and
      no other port of these. */
  lemma OwnPortsAreCovered(me: Identity, localIPs: seq<Ip>, ip: Ip, port: int)
    requires ip == Ip(127, 0, 0, 1) || ip in localIPs
    requires forall local :: local in localIPs ==> IsPrivate(local)
    ensures var e := Endpoint(ip, port);
      InFirstPhase(me, localIPs, e) || InSecondPhase(localIPs, e) <==>
        53317 <= port <= 53326 && !(me.fingerprint != "" && port == me.port)
  {
    LoopbackIsNoHost(localIPs, port);
  }

  lemma LoopbackIsNoHost(localIPs: seq<Ip>, port: int)
    requires forall local :: local in localIPs ==> IsPrivate(local)
    ensures !InSecondPhase(localIPs, Endpoint(LOOPBACK, port))
  {
    forall i | 0 <= i < |localIPs|
      ensures !SameSubnet(localIPs[i], LOOPBACK)
    {
      assert localIPs[i] in localIPs;
    }
  }

  /** Nothing else is probed: neither a foreign subnet, nor a network or broadcast address, nor another port. */
  lemma OthersAreSpared(me: Identity, localIPs: seq<Ip>, e: Endpoint)
    requires InFirstPhase(me, localIPs, e) || InSecondPhase(localIPs, e)
    requires e.ip != Ip(127, 0, 0, 1) && e.ip !in localIPs
    ensures e.port == 53317 && 1 <= e.ip.d <= 254
    ensures exists i ::
      0 <= i < |localIPs| && localIPs[i].a == e.ip.a && localIPs[i].b == e.ip.b && localIPs[i].c == e.ip.c
  {
    var i :| 0 <= i < |localIPs| && SameSubnet(localIPs[i], e.ip);
    assert localIPs[i].a == e.ip.a && localIPs[i].b == e.ip.b && localIPs[i].c == e.ip.c;
  }

  // ----- the pool -----

  /** Where the scanning goroutine stands: before wg.Add, before taking a slot, before starting the probe,
      in wg.Wait, or back. */
  datatype Scanner = AtAdd | AtAcquire | AtSpawn | AtWait | Returned

  /** next counts the targets handed out; slots and pending are the semaphore's length and the wait group's counter. */
  datatype Pool = Pool(
    scanner: Scanner,
    next: nat,
    slots: int,
    pending: int,
    probing: set<nat>,
    leaving: set<nat>,
    finished: set<nat>)

  datatype Move = Advance | Release(i: nat) | Done(i: nat)

  const EMPTY_POOL := Pool(AtAdd, 0, 0, 0, {}, {}, {})

  /** n is the number of targets. */
  predicate CanMove(n: nat, p: Pool, m: Move) {
    match m
    case Advance =>
      (match p.scanner
       case AtAcquire => p.slots < SLOTS
       case AtWait => p.pending == 0
       case Returned => false
       case _ => true)
    case Release(i) => i in p.probing
    case Done(i) => i in p.leaving
  }

  function MoveOn(n: nat, p: Pool, m: Move): Pool
    requires CanMove(n, p, m)
  {
    match m
    case Advance =>
      (match p.scanner
       case AtAdd => if p.next == n then p.(scanner := AtWait) else p.(scanner := AtAcquire, pending := p.pending + 1)
       case AtAcquire => p.(scanner := AtSpawn, slots := p.slots + 1)
       case AtSpawn => p.(scanner := AtAdd, next := p.next + 1, probing := p.probing + {p.next})
       case _ => p.(scanner := Returned))
    case Release(i) => p.(slots := p.slots - 1, probing := p.probing - {i}, leaving := p.leaving + {i})
    case Done(i) => p.(pending := p.pending - 1, leaving := p.leaving - {i}, finished := p.finished + {i})
  }

  function Flag(b: bool): nat {
    if b then 1 else 0
  }

  /** Every target handed out is probing, leaving or finished, and only one of the three. */
  ghost predicate Partitioned(p: Pool) {
    && (forall i: nat :: i < p.next <==> i in p.probing || i in p.leaving || i in p.finished)
    && (forall i :: i in p.probing ==> i !in p.leaving && i !in p.finished)
    && (forall i :: i in p.leaving ==> i !in p.finished)
  }

  /** The slots taken are those of the running probes, and of the one about to start; the wait group counts the
      targets that are not done. */
  ghost predicate Counted(n: nat, p: Pool) {
    && p.slots == |p.probing| + Flag(p.scanner == AtSpawn)
    && p.slots <= SLOTS
    && p.pending == |p.probing| + |p.leaving| + Flag(p.scanner == AtAcquire || p.scanner == AtSpawn)
    && p.next <= n
    && (p.scanner == AtAcquire || p.scanner == AtSpawn ==> p.next < n)
    && (p.scanner == AtWait || p.scanner == Returned ==> p.next == n)
    && (p.scanner == Returned ==> p.pending == 0)
  }

  ghost predicate Sound(n: nat, p: Pool) {
    Partitioned(p) && Counted(n, p)
  }

  /** How many moves are left at most. */
  function Remaining(n: nat, p: Pool): int {
    5 * (n - p.next) + 2 * |p.probing| + |p.leaving| +
    match p.scanner
    case AtAdd => 2
    case AtAcquire => 1
    case AtSpawn => 0
    case AtWait => 1
    case Returned => 0
  }

  lemma MoveKeepsPartition(n: nat, p: Pool, m: Move)
    requires Partitioned(p) && CanMove(n, p, m)
    ensures Partitioned(MoveOn(n, p, m))
  {
  }

  lemma MoveKeepsCounts(n: nat, p: Pool, m: Move)
    requires Sound(n, p) && CanMove(n, p, m)
    ensures Counted(n, MoveOn(n, p, m))
    ensures 0 <= Remaining(n, MoveOn(n, p, m)) < Remaining(n, p)
  {
    match m
    case Advance => AdvanceKeepsCounts(n, p);
    case Release(i) => ReleaseKeepsCounts(n, p, i);
    case Done(i) => DoneKeepsCounts(n, p, i);
  }

  lemma AdvanceKeepsCounts(n: nat, p: Pool)
    requires Sound(n, p) && CanMove(n, p, Advance)
    ensures Counted(n, MoveOn(n, p, Advance))
    ensures 0 <= Remaining(n, MoveOn(n, p, Advance)) < Remaining(n, p)
  {
    assert p.next !in p.probing;
    assert |p.probing + {p.next}| == |p.probing| + 1;
  }

  lemma ReleaseKeepsCounts(n: nat, p: Pool, i: nat)
    requires Sound(n, p) && CanMove(n, p, Release(i))
    ensures Counted(n, MoveOn(n, p, Release(i)))
    ensures 0 <= Remaining(n, MoveOn(n, p, Release(i))) < Remaining(n, p)
  {
    assert |p.probing - {i}| == |p.probing| - 1 && |p.leaving + {i}| == |p.leaving| + 1;
  }

  lemma DoneKeepsCounts(n: nat, p: Pool, i: nat)
    requires Sound(n, p) && CanMove(n, p, Done(i))
    ensures Counted(n, MoveOn(n, p, Done(i)))
    ensures 0 <= Remaining(n, MoveOn(n, p, Done(i))) < Remaining(n, p)
  {
    assert |p.leaving - {i}| == |p.leaving| - 1;
  }

  /** Until the scan returns, some goroutine can move: nothing deadlocks. */
  lemma SomeoneCanMove(n: nat, p: Pool)
    requires Sound(n, p) && p.scanner != Returned
    ensures exists m :: CanMove(n, p, m)
  {
    if p.scanner == AtAdd || p.scanner == AtSpawn {
      assert CanMove(n, p, Advance);
    } else if p.probing != {} {
      var i :| i in p.probing;
      assert CanMove(n, p, Release(i));
    } else if p.leaving != {} {
      var i :| i in p.leaving;
      assert CanMove(n, p, Done(i));
    } else {
      assert CanMove(n, p, Advance);
    }
  }

  ghost predicate IsSchedule(n: nat, ps: seq<Pool>, ms: seq<Move>) {
    && |ps| == |ms| + 1 && ps[0] == EMPTY_POOL
    && forall k :: 0 <= k < |ms| ==>
      CanMove(n, ps[k], ms[k]) && ps[k + 1] == MoveOn(n, ps[k], ms[k])
  }

  /** In every interleaving: at most 64 probes run, the semaphore counts exactly them (and one about to start),
      Wait returns only after every target is done, and no interleaving is longer than 5n + 2 moves. */
  lemma {:induction false} PoolIsSafe(n: nat, ps: seq<Pool>, ms: seq<Move>, k: nat)
    requires IsSchedule(n, ps, ms) && k < |ps|
    ensures Sound(n, ps[k]) && |ps[k].probing| <= 64
    ensures ps[k].scanner == Returned ==> forall i: nat :: i < n ==> i in ps[k].finished
    ensures k + Remaining(n, ps[k]) <= 5 * n + 2 && Remaining(n, ps[k]) >= 0
  {
    if k > 0 {
      PoolIsSafe(n, ps, ms, k - 1);
      assert CanMove(n, ps[k - 1], ms[k - 1]);
      MoveKeepsPartition(n, ps[k - 1], ms[k - 1]);
      MoveKeepsCounts(n, ps[k - 1], ms[k - 1]);
    }
    if ps[k].scanner == Returned {
      assert ps[k].probing == {} && ps[k].leaving == {};
    }
  }
}
