/**
 * The GCE cluster driver: how it names, creates, patches and deletes the
 * per-port-range firewalls that carry the cluster's ACLs, how it sets up
 * the cluster network and internal firewall, and how it boots and stops
 * instances and waits for the provider to catch up.
 */
module Google {
  import opened GoText
  import opened Seqs
  import opened Compute
  import opened Acl
  import opened Polling

  /** The source range a firewall is created with before `SetACLs` patches it. */
  const Placeholder: string := "127.0.0.1/32"

  /** `machine.Machine`, as far as `Boot` and `Stop` read it. */
  datatype Machine = Machine(id: string, size: string, region: string, sshKeys: seq<string>)

  // ---------------------------------------------------------------------
  // Firewall names and bodies

  /** `fmt.Sprintf("%d-%d", minPort, maxPort)`. */
  function PortsString(minPort: int, maxPort: int): string
  {
    IntToString(minPort) + "-" + IntToString(maxPort)
  }

  /** `fmt.Sprintf("%s-%s", ns, ports)`: the firewall that carries one port range. */
  function FirewallName(ns: string, minPort: int, maxPort: int): string
  {
    ns + "-" + PortsString(minPort, maxPort)
  }

  /** The name of the cluster's internal firewall. */
  function InternalName(ns: string): string
  {
    ns + "-internal"
  }

  /** The firewall `insertFirewall` creates: tcp and udp on `ports`, and icmp. */
  function NewFirewall(name: string, ports: string, ranges: seq<string>): Firewall
  {
    Firewall(name, [Allowed("tcp", [ports]), Allowed("udp", [ports]), Allowed("icmp", [])], ranges)
  }

  /** Distinct port ranges get distinct firewalls. */
  lemma FirewallNameInjective(ns: string, min1: int, max1: int, min2: int, max2: int)
    requires FirewallName(ns, min1, max1) == FirewallName(ns, min2, max2)
    ensures min1 == min2 && max1 == max2
  {
    var p1, p2 := PortsString(min1, max1), PortsString(min2, max2);
    assert FirewallName(ns, min1, max1) == (ns + "-") + p1;
    assert FirewallName(ns, min2, max2) == (ns + "-") + p2;
    assert p1 == FirewallName(ns, min1, max1)[|ns| + 1..];
    assert p2 == FirewallName(ns, min2, max2)[|ns| + 1..];
    PairToStringInjective(min1, max1, min2, max2);
  }

  /** No port range's firewall is the internal firewall. */
  lemma InternalIsNoRange(ns: string, minPort: int, maxPort: int)
    ensures InternalName(ns) != FirewallName(ns, minPort, maxPort)
  {
    var s := IntToString(minPort);
    assert s[0] == '-' || IsDigit(s[0]) by {
      if minPort >= 0 {
        assert IsDigit(NatToString(minPort)[0]);
      }
    }
    assert InternalName(ns)[|ns| + 1] == 'i';
    assert FirewallName(ns, minPort, maxPort)[|ns| + 1] == s[0];
  }

  /** A printed port range holds no ','. */
  lemma PortsStringNoComma(minPort: nat, maxPort: nat)
    ensures ',' !in PortsString(minPort, maxPort)
  {
    var a, b := NatToString(minPort), NatToString(maxPort);
    assert forall i :: 0 <= i < |a| ==> IsDigit(a[i]);
    assert forall i :: 0 <= i < |b| ==> IsDigit(b[i]);
    assert PortsString(minPort, maxPort) == a + "-" + b;
  }

  /** A created firewall's port tokens: its ports string, once for tcp and once for udp. */
  lemma NewFirewallTokens(name: string, ports: string, ranges: seq<string>)
    requires ',' !in ports
    ensures Tokens(NewFirewall(name, ports, ranges).allowed) == [ports, ports]
  {
    var allowed := NewFirewall(name, ports, ranges).allowed;
    SplitWithout(ports, ',');
    var inner := (al: Allowed) => ConcatMap(al.ports, (ps: string) => Split(ps, ','));
    ConcatMapSnoc([], ports, (ps: string) => Split(ps, ','));
    assert [] + [ports] == [ports];
    assert inner(allowed[0]) == [ports];
    assert inner(allowed[1]) == [ports];
    assert inner(allowed[2]) == [];
    ConcatMapSnoc([], allowed[0], inner);
    assert [] + [allowed[0]] == [allowed[0]];
    ConcatMapSnoc([allowed[0]], allowed[1], inner);
    assert [allowed[0]] + [allowed[1]] == [allowed[0], allowed[1]];
    ConcatMapSnoc([allowed[0], allowed[1]], allowed[2], inner);
    assert [allowed[0], allowed[1]] + [allowed[2]] == allowed;
    assert Tokens(allowed) == ConcatMap(allowed, inner);
  }

  /**
   * A firewall created for a non-negative port range reads back, through
   * `parseACLs`, as that range: each of its source ranges once for tcp and
   * once for udp, nothing for icmp.
   */
  lemma NewFirewallParsesBack(ns: string, minPort: nat, maxPort: nat, ranges: seq<string>, a: ACL)
    requires minPort <= MaxInt64 && maxPort <= MaxInt64
    ensures var fw := NewFirewall(FirewallName(ns, minPort, maxPort), PortsString(minPort, maxPort), ranges);
      && |FirewallACLs(fw)| == 2 * |ranges|
      && (a in FirewallACLs(fw) <==> a.cidrIP in ranges && a.minPort == minPort && a.maxPort == maxPort)
  {
    var ports := PortsString(minPort, maxPort);
    var fw := NewFirewall(FirewallName(ns, minPort, maxPort), ports, ranges);
    PortsStringNoComma(minPort, maxPort);
    NewFirewallTokens(fw.name, ports, ranges);
    assert ports == NatToString(minPort) + "-" + NatToString(maxPort);
    TokenRoundTrip(minPort, maxPort);
    assert forall c :: TokenACL(c, ports) == ACL(c, minPort, maxPort);
    FirewallACLsShape(fw, a);
    if a.cidrIP in ranges && a.minPort == minPort && a.maxPort == maxPort {
      assert ports in Tokens(fw.allowed) && a == TokenACL(a.cidrIP, ports);
    }
  }

  // ---------------------------------------------------------------------
  // What a firewall should look like once a port range is reconciled

  /**
   * Starting from the listing `fws0`, the firewall called `name` ends up
   * carrying exactly `target`; an empty target means it is deleted, unless
   * it already stood in `fws0` with no source ranges, which `SetACLs`
   * leaves alone.
   */
  predicate Reconciled(fws0: seq<Firewall>, fws: seq<Firewall>, name: string, target: seq<string>)
  {
    match FindFirewall(fws, name)
    case Some(fw) => fw.sourceRanges == target && (target == [] ==> InSync(fws0, name, []))
    case None => target == []
  }

  /** The firewall called `name` exists and already carries `target`: `SetACLs` leaves it alone. */
  predicate InSync(fws: seq<Firewall>, name: string, target: seq<string>)
  {
    FindFirewall(fws, name).Some? && FindFirewall(fws, name).value.sourceRanges == target
  }

  /** Every port range of `grouped` already has its firewall, carrying its target. */
  ghost predicate AllInSync(fws: seq<Firewall>, ns: string, grouped: map<ACL, seq<string>>)
  {
    forall key :: key in grouped ==> InSync(fws, FirewallName(ns, key.minPort, key.maxPort), grouped[key])
  }

  /** Every port range of `grouped` outside `todo` is reconciled from `fws0` to `fws`. */
  ghost predicate RangesDone(fws0: seq<Firewall>, fws: seq<Firewall>, ns: string, grouped: map<ACL, seq<string>>,
                             todo: set<ACL>)
  {
    forall key :: key in grouped && key !in todo ==>
      Reconciled(fws0, fws, FirewallName(ns, key.minPort, key.maxPort), grouped[key])
  }

  /** Every firewall not named after a range of `grouped` outside `todo` is as it was in `fws0`. */
  ghost predicate OthersUntouched(fws: seq<Firewall>, fws0: seq<Firewall>, ns: string,
                            grouped: map<ACL, seq<string>>, todo: set<ACL>)
  {
    forall n :: (forall key :: key in grouped && key !in todo ==> n != FirewallName(ns, key.minPort, key.maxPort)) ==>
      FindFirewall(fws, n) == FindFirewall(fws0, n)
  }

  // ---------------------------------------------------------------------
  // The two waits' tests

  /**
   * The busy loop side by side with its correction: a machine that never
   * shows up keeps the written `wait` listing for ever, while the corrected
   * one reports the timeout after `MaxRounds` listings.
   */
  lemma WaitBusyLoop(names: seq<string>, live: bool, listed: nat -> set<string>, fails: nat -> bool, k: nat, fuel: nat)
    requires names != []
    requires forall j :: j >= k ==> !fails(j) && (names[0] in listed(j)) != live
    ensures WaitAsWritten(names, Present(listed, live), fails, k, fuel) == StillSpinning
    ensures WaitSpec(names, Present(listed, live), fails, k) == TimedOut(k + MaxRounds)
  {
    var ok := Present(listed, live);
    forall j | j >= k
      ensures !fails(j) && !ok(names[0], j)
    {
    }
    SpinsForever(names, ok, fails, k, fuel);
    StuckRoundsTimeOut(names, ok, fails, k, 0);
  }

  /** `wait`'s test on a name: its presence in the listing made by call `j` equals `live`. */
  function Present(listed: nat -> set<string>, live: bool): (string, nat) -> bool
  {
    (n: string, j: nat) => (n in listed(j)) == live
  }

  /** `operationWait`'s test on an operation: its status at call `j` is "DONE". */
  function Done(opStatus: (nat, nat) -> string): (Operation, nat) -> bool
  {
    (op: Operation, j: nat) => opStatus(op.id, j) == "DONE"
  }

  /** Every request of `rqs` is about `name`. */
  predicate AllAbout(rqs: seq<Request>, name: string)
  {
    forall i :: 0 <= i < |rqs| ==> Subject(rqs[i]) == name
  }

  lemma AllAboutConcat(a: seq<Request>, b: seq<Request>, name: string)
    requires AllAbout(a, name) && AllAbout(b, name)
    ensures AllAbout(a + b, name)
  {
  }

  /** Two consecutive runs of requests about `name` make one run about `name`. */
  lemma AllAboutSplit(rq0: seq<Request>, rq1: seq<Request>, rq2: seq<Request>, name: string)
    requires rq0 <= rq1 <= rq2
    requires AllAbout(rq1[|rq0|..], name) && AllAbout(rq2[|rq1|..], name)
    ensures AllAbout(rq2[|rq0|..], name)
  {
    assert rq2[|rq0|..] == rq1[|rq0|..] + rq2[|rq1|..];
    AllAboutConcat(rq1[|rq0|..], rq2[|rq1|..], name);
  }

  /** The firewall names of a set of port ranges. */
  function RangeNames(ns: string, keys: set<ACL>): set<string>
  {
    set key | key in keys :: FirewallName(ns, key.minPort, key.maxPort)
  }

  /** Every request of `rqs` is about one of `names`. */
  predicate AllAboutSome(rqs: seq<Request>, names: set<string>)
  {
    forall i :: 0 <= i < |rqs| ==> Subject(rqs[i]) in names
  }

  /** A run about some of `names` followed by a run about `name` is a run about `names` and `name`. */
  lemma AllAboutSomeGrow(rq0: seq<Request>, rq1: seq<Request>, rq2: seq<Request>, names: set<string>, name: string)
    requires rq0 <= rq1 <= rq2
    requires AllAboutSome(rq1[|rq0|..], names) && AllAbout(rq2[|rq1|..], name)
    ensures AllAboutSome(rq2[|rq0|..], names + {name})
  {
    var a, b := rq1[|rq0|..], rq2[|rq1|..];
    assert rq2[|rq0|..] == a + b;
    forall i | 0 <= i < |a + b|
      ensures Subject((a + b)[i]) in names + {name}
    {
      if i >= |a| {
        assert (a + b)[i] == b[i - |a|];
      }
    }
  }

  /** Two port-range keys with the same firewall name are the same key. */
  lemma RangeKeyNames(ns: string, k1: ACL, k2: ACL)
    requires k1.cidrIP == "" && k2.cidrIP == ""
    ensures FirewallName(ns, k1.minPort, k1.maxPort) == FirewallName(ns, k2.minPort, k2.maxPort) ==> k1 == k2
  {
    if FirewallName(ns, k1.minPort, k1.maxPort) == FirewallName(ns, k2.minPort, k2.maxPort) {
      FirewallNameInjective(ns, k1.minPort, k1.maxPort, k2.minPort, k2.maxPort);
    }
  }

  // ---------------------------------------------------------------------
  // Boot and Stop: which requests go out, which names are waited on

  /** The instance or firewall or network a request is about. */
  function Subject(rq: Request): string
  {
    match rq
    case InsertInstance(name, _, _) => name
    case DeleteInstance(name, _) => name
    case InsertFirewall(fw) => fw.name
    case PatchFirewall(name, _) => name
    case DeleteFirewall(name) => name
    case InsertNetwork(name, _) => name
  }

  function Subjects(rqs: seq<Request>): seq<string>
  {
    MapSeq(Subject, rqs)
  }

  /**
   * The instance inserts `Boot` gets accepted: machine `i` is named
   * "quilt-" and the `u + i`-th fresh name, and is requested by call `k + i`,
   * which is accepted unless it fails.
   */
  function BootRequests(fails: nat -> bool, uuid: nat -> string, k: nat, u: nat, ms: seq<Machine>): seq<Request>
  {
    if ms == [] then []
    else
      var n := |ms| - 1;
      BootRequests(fails, uuid, k, u, ms[..n])
      + (if fails(k + n) then [] else [BootInsert(uuid(u + n), ms[n])])
  }

  /** The insert `Boot` sends for machine `m` under the fresh id `id`. */
  function BootInsert(id: string, m: Machine): Request
  {
    Request.InsertInstance("quilt-" + id, m.size, m.region)
  }

  /** The instance deletes `Stop` gets accepted: machine `i` is requested by call `k + i`. */
  function StopRequests(fails: nat -> bool, k: nat, ms: seq<Machine>): seq<Request>
  {
    if ms == [] then []
    else
      var n := |ms| - 1;
      StopRequests(fails, k, ms[..n])
      + (if fails(k + n) then [] else [Request.DeleteInstance(ms[n].id, ms[n].region)])
  }

  /** Every request in `Boot`'s log is the insert of a machine whose call succeeded. */
  lemma {:induction false} BootRequestsSound(fails: nat -> bool, uuid: nat -> string, k: nat, u: nat, ms: seq<Machine>, rq: Request)
    requires rq in BootRequests(fails, uuid, k, u, ms)
    ensures exists i :: 0 <= i < |ms| && !fails(k + i) && rq == BootInsert(uuid(u + i), ms[i])
  {
    var n := |ms| - 1;
    var init := ms[..n];
    if rq in BootRequests(fails, uuid, k, u, init) {
      BootRequestsSound(fails, uuid, k, u, init, rq);
      var i :| 0 <= i < |init| && !fails(k + i) && rq == BootInsert(uuid(u + i), init[i]);
      assert init[i] == ms[i];
    } else {
      assert !fails(k + n) && rq == BootInsert(uuid(u + n), ms[n]);
    }
  }

  /** Every machine whose call succeeded has its insert in `Boot`'s log. */
  lemma {:induction false} BootRequestsComplete(fails: nat -> bool, uuid: nat -> string, k: nat, u: nat, ms: seq<Machine>, i: nat)
    requires i < |ms| && !fails(k + i)
    ensures BootInsert(uuid(u + i), ms[i]) in BootRequests(fails, uuid, k, u, ms)
  {
    var n := |ms| - 1;
    if i < n {
      BootRequestsComplete(fails, uuid, k, u, ms[..n], i);
      assert ms[..n][i] == ms[i];
    }
  }

  /** A request is in `Boot`'s log exactly when it is the insert of a machine whose call succeeded. */
  lemma BootRequestsMember(fails: nat -> bool, uuid: nat -> string, k: nat, u: nat, ms: seq<Machine>, rq: Request)
    ensures rq in BootRequests(fails, uuid, k, u, ms) <==>
      exists i :: 0 <= i < |ms| && !fails(k + i) && rq == BootInsert(uuid(u + i), ms[i])
  {
    if rq in BootRequests(fails, uuid, k, u, ms) {
      BootRequestsSound(fails, uuid, k, u, ms, rq);
    }
    if exists i :: 0 <= i < |ms| && !fails(k + i) && rq == BootInsert(uuid(u + i), ms[i]) {
      var i :| 0 <= i < |ms| && !fails(k + i) && rq == BootInsert(uuid(u + i), ms[i]);
      BootRequestsComplete(fails, uuid, k, u, ms, i);
    }
  }

  /** When no call fails, every machine of `Boot` is requested, in order. */
  lemma {:induction false} BootRequestsAll(fails: nat -> bool, uuid: nat -> string, k: nat, u: nat, ms: seq<Machine>)
    requires forall j :: k <= j < k + |ms| ==> !fails(j)
    ensures |BootRequests(fails, uuid, k, u, ms)| == |ms|
    ensures forall i :: 0 <= i < |ms| ==>
      BootRequests(fails, uuid, k, u, ms)[i] == BootInsert(uuid(u + i), ms[i])
  {
    if ms != [] {
      var n := |ms| - 1;
      BootRequestsAll(fails, uuid, k, u, ms[..n]);
      assert forall i :: 0 <= i < n ==> ms[..n][i] == ms[i];
    }
  }

  /** Every request in `Stop`'s log is the delete of a machine whose call succeeded. */
  lemma {:induction false} StopRequestsSound(fails: nat -> bool, k: nat, ms: seq<Machine>, rq: Request)
    requires rq in StopRequests(fails, k, ms)
    ensures exists i :: 0 <= i < |ms| && !fails(k + i) && rq == Request.DeleteInstance(ms[i].id, ms[i].region)
  {
    var n := |ms| - 1;
    var init := ms[..n];
    if rq in StopRequests(fails, k, init) {
      StopRequestsSound(fails, k, init, rq);
      var i :| 0 <= i < |init| && !fails(k + i) && rq == Request.DeleteInstance(init[i].id, init[i].region);
      assert init[i] == ms[i];
    } else {
      assert !fails(k + n) && rq == Request.DeleteInstance(ms[n].id, ms[n].region);
    }
  }

  /** Every machine whose delete call succeeded has its delete in `Stop`'s log. */
  lemma {:induction false} StopRequestsComplete(fails: nat -> bool, k: nat, ms: seq<Machine>, i: nat)
    requires i < |ms| && !fails(k + i)
    ensures Request.DeleteInstance(ms[i].id, ms[i].region) in StopRequests(fails, k, ms)
  {
    var n := |ms| - 1;
    if i < n {
      StopRequestsComplete(fails, k, ms[..n], i);
      assert ms[..n][i] == ms[i];
    }
  }

  /** A request is in `Stop`'s log exactly when it is the delete of a machine whose call succeeded. */
  lemma StopRequestsMember(fails: nat -> bool, k: nat, ms: seq<Machine>, rq: Request)
    ensures rq in StopRequests(fails, k, ms) <==>
      exists i :: 0 <= i < |ms| && !fails(k + i) && rq == Request.DeleteInstance(ms[i].id, ms[i].region)
  {
    if rq in StopRequests(fails, k, ms) {
      StopRequestsSound(fails, k, ms, rq);
    }
    if exists i :: 0 <= i < |ms| && !fails(k + i) && rq == Request.DeleteInstance(ms[i].id, ms[i].region) {
      var i :| 0 <= i < |ms| && !fails(k + i) && rq == Request.DeleteInstance(ms[i].id, ms[i].region);
      StopRequestsComplete(fails, k, ms, i);
    }
  }

  lemma BootRequestsSnoc(fails: nat -> bool, uuid: nat -> string, k: nat, u: nat, ms: seq<Machine>, i: nat)
    requires i < |ms|
    ensures BootRequests(fails, uuid, k, u, ms[..i + 1]) == BootRequests(fails, uuid, k, u, ms[..i])
      + (if fails(k + i) then [] else [BootInsert(uuid(u + i), ms[i])])
  {
    assert ms[..i + 1][..i] == ms[..i];
  }

  lemma StopRequestsSnoc(fails: nat -> bool, k: nat, ms: seq<Machine>, i: nat)
    requires i < |ms|
    ensures StopRequests(fails, k, ms[..i + 1]) == StopRequests(fails, k, ms[..i])
      + (if fails(k + i) then [] else [Request.DeleteInstance(ms[i].id, ms[i].region)])
  {
    assert ms[..i + 1][..i] == ms[..i];
  }

  // ---------------------------------------------------------------------
  // The loops of `groupACLsByPorts` and `SetACLs` that build values

  /** `groupACLsByPorts`. */
  method GroupACLsByPorts(acls: seq<ACL>) returns (grouped: map<ACL, seq<string>>)
    ensures grouped == GroupByPorts(acls)
  {
    grouped := map[];
    for i := 0 to |acls|
      invariant grouped == GroupByPorts(acls[..i])
    {
      assert acls[..i + 1][..i] == acls[..i];
      var a := acls[i];
      var key := ACL("", a.minPort, a.maxPort);
      if key !in grouped {
        grouped := grouped[key := []];
      }
      if a.cidrIP != "" {
        grouped := grouped[key := grouped[key] + [a.cidrIP]];
      }
    }
    assert acls[..|acls|] == acls;
  }

  /** The `toSet` list of `SetACLs`: additions, then the desired side of each pair, then a marker per removal. */
  method BuildToSet(j: Join) returns (toSet: seq<ACL>)
    ensures toSet == ToSet(j)
  {
    toSet := [];
    for i := 0 to |j.toAdd|
      invariant toSet == j.toAdd[..i]
    {
      toSet := toSet + [j.toAdd[i]];
    }
    assert j.toAdd[..|j.toAdd|] == j.toAdd;
    for i := 0 to |j.pairs|
      invariant toSet == j.toAdd + Lefts(j.pairs[..i])
    {
      MapSeqPrefix((p: Pair) => p.l, j.pairs, i);
      toSet := toSet + [j.pairs[i].l];
    }
    assert j.pairs[..|j.pairs|] == j.pairs;
    for i := 0 to |j.toRemove|
      invariant toSet == j.toAdd + Lefts(j.pairs) + MapSeq(RangeKey, j.toRemove[..i])
    {
      MapSeqPrefix(RangeKey, j.toRemove, i);
      toSet := toSet + [ACL("", j.toRemove[i].minPort, j.toRemove[i].maxPort)];
    }
    assert j.toRemove[..|j.toRemove|] == j.toRemove;
  }

  // ---------------------------------------------------------------------
  // The loop nest of `parseACLs`, one level per method

  /** One `Ports` string, split at ','. */
  method ParsePorts(cidrIP: string, portsStr: string) returns (acls: seq<ACL>)
    ensures acls == PortsACLs(cidrIP, portsStr)
  {
    var toks := Split(portsStr, ',');
    acls := [];
    for t := 0 to |toks|
      invariant acls == TokensACLs(cidrIP, toks[..t])
    {
      TokensACLsSnoc(cidrIP, toks, t);
      acls := acls + [TokenACL(cidrIP, toks[t])];
    }
    assert toks[..|toks|] == toks;
  }

  /** One `Allowed` entry: each of its `Ports` strings in turn. */
  method ParseAllowed(cidrIP: string, allowed: Allowed) returns (acls: seq<ACL>)
    ensures acls == AllowedACLs(cidrIP, allowed)
  {
    acls := [];
    for p := 0 to |allowed.ports|
      invariant acls == PortStringsACLs(cidrIP, allowed.ports[..p])
    {
      PortStringsACLsSnoc(cidrIP, allowed.ports, p);
      var more := ParsePorts(cidrIP, allowed.ports[p]);
      acls := acls + more;
    }
    assert allowed.ports[..|allowed.ports|] == allowed.ports;
  }

  /** One source range with every `Allowed` entry of the firewall. */
  method ParseRange(cidrIP: string, allowed: seq<Allowed>) returns (acls: seq<ACL>)
    ensures acls == RangeACLs(cidrIP, allowed)
  {
    acls := [];
    for a := 0 to |allowed|
      invariant acls == RangeACLs(cidrIP, allowed[..a])
    {
      RangeACLsSnoc(cidrIP, allowed, a);
      var more := ParseAllowed(cidrIP, allowed[a]);
      acls := acls + more;
    }
    assert allowed[..|allowed|] == allowed;
  }

  /** One firewall: each source range in turn. */
  method ParseFirewall(fw: Firewall) returns (acls: seq<ACL>)
    ensures acls == FirewallACLs(fw)
  {
    acls := [];
    for c := 0 to |fw.sourceRanges|
      invariant acls == SourcesACLs(fw.sourceRanges[..c], fw.allowed)
    {
      SourcesACLsSnoc(fw.sourceRanges, fw.allowed, c);
      var more := ParseRange(fw.sourceRanges[c], fw.allowed);
      acls := acls + more;
    }
    assert fw.sourceRanges[..|fw.sourceRanges|] == fw.sourceRanges;
  }

  // ---------------------------------------------------------------------
  // The cluster

  /** `google.Cluster`: one namespace on a GCE project, reached through `gce`. */
  class Cluster {
    /** The cluster namespace. */
    const ns: string
    /** The internal firewall's name. */
    const intFW: string := InternalName(ns)
    /** The internal network's range. */
    const ipv4Range: string := "192.168.0.0/16"
    /** The provider. */
    const gce: Gce

    constructor (namespace: string, gce: Gce)
      ensures ns == namespace && intFW == InternalName(namespace)
      ensures ipv4Range == "192.168.0.0/16" && this.gce == gce
    {
      ns := namespace;
      this.gce := gce;
    }

    /**
     * `New`: a cluster whose network and internal firewall exist. On an
     * error the cluster is not handed out.
     */
    static method New(namespace: string, gce: Gce) returns (r: Result<Cluster>)
      modifies gce`calls, gce`networks, gce`firewalls, gce`requests
      ensures r.Ok? ==> fresh(r.value) && r.value.gce == gce
      ensures r.Ok? ==> r.value.ns == namespace && r.value.intFW == InternalName(namespace)
      ensures r.Ok? ==> namespace in gce.networks && FindFirewall(gce.firewalls, InternalName(namespace)).Some?
    {
      var clst := new Cluster(namespace, gce);
      var n := clst.NetInit();
      if n.Fail? {
        return Err(n.error);
      }
      var f := clst.FwInit();
      if f.Fail? {
        return Err(f.error);
      }
      return Ok(clst);
    }

    /** `parseACLs`: the ACLs the firewall listing `fws` carries, the internal firewall skipped. */
    method ParseACLs(fws: seq<Firewall>) returns (acls: seq<ACL>)
      ensures acls == ParsedACLs(intFW, fws)
    {
      acls := [];
      for i := 0 to |fws|
        invariant acls == ParsedACLs(intFW, fws[..i])
      {
        ParsedACLsSnoc(intFW, fws, i);
        var fw := fws[i];
        if fw.name == intFW {
          continue;
        }
        var more := ParseFirewall(fw);
        acls := acls + more;
      }
      assert fws[..|fws|] == fws;
    }

    // -------------------------------------------------------------------
    // Waiting

    /** `operationWait`: poll the operations, front first, until all are "DONE". */
    method OperationWait(ops: seq<Operation>) returns (r: Outcome)
      modifies gce`calls
      ensures Report(WaitSpec(ops, Done(gce.opStatus), gce.fails, old(gce.calls)), OperationTimeout) == Some((r, gce.calls))
    {
      if ops == [] {
        return Pass;
      }
      ghost var ok := Done(gce.opStatus);
      ghost var spec := WaitSpec(ops, ok, gce.fails, old(gce.calls));
      var pending := ops;
      var round := 0;
      while round < MaxRounds
        invariant round <= MaxRounds && pending != []
        invariant spec == Rounds(pending, ok, gce.fails, gce.calls, round)
        decreases MaxRounds - round
      {
        var p := PollOperations(pending);
        if p.PollFailed? {
          return Fail(ApiError(p.call));
        }
        if p.rest == [] {
          return Pass;
        }
        assert spec == Rounds(p.rest, ok, gce.fails, gce.calls, round + 1);
        pending := p.rest;
        round := round + 1;
      }
      return Fail(OperationTimeout);
    }

    /** One tick of `operationWait`: get the pending operations in order until one is not DONE. */
    method PollOperations(ops: seq<Operation>) returns (p: PollEnd<Operation>)
      modifies gce`calls
      ensures p == Poll(ops, Done(gce.opStatus), gce.fails, old(gce.calls))
      ensures p.Polled? ==> gce.calls == p.next
      ensures p.PollFailed? ==> gce.calls == p.call + 1
    {
      ghost var ok := Done(gce.opStatus);
      var pending := ops;
      while pending != []
        invariant Poll(ops, ok, gce.fails, old(gce.calls)) == Poll(pending, ok, gce.fails, gce.calls)
        decreases |pending|
      {
        var k := gce.calls;
        var op := gce.GetOperation(pending[0]);
        if op.Err? {
          return PollFailed(k);
        }
        if op.value != "DONE" {
          return Polled(pending, gce.calls);
        }
        pending := pending[1..];
      }
      return Polled([], gce.calls);
    }

    /**
     * `wait`, corrected: poll the instance listing until the presence of
     * every name equals `live`, moving on to the next tick at the first
     * name that has not converged.
     */
    method Wait(names: seq<string>, live: bool) returns (r: Outcome)
      modifies gce`calls
      ensures Report(WaitSpec(names, Present(gce.listed, live), gce.fails, old(gce.calls)), WaitTimeout) == Some((r, gce.calls))
    {
      if names == [] {
        return Pass;
      }
      ghost var ok := Present(gce.listed, live);
      ghost var spec := WaitSpec(names, ok, gce.fails, old(gce.calls));
      var pending := names;
      var round := 0;
      while round < MaxRounds
        invariant round <= MaxRounds && pending != []
        invariant spec == Rounds(pending, ok, gce.fails, gce.calls, round)
        decreases MaxRounds - round
      {
        var p := PollInstances(pending, live);
        if p.PollFailed? {
          return Fail(ApiError(p.call));
        }
        if p.rest == [] {
          return Pass;
        }
        assert spec == Rounds(p.rest, ok, gce.fails, gce.calls, round + 1);
        pending := p.rest;
        round := round + 1;
      }
      return Fail(WaitTimeout);
    }

    /**
     * One tick of the corrected `wait`: list the instances once per pending
     * name, dropping names whose presence equals `live`, until one does not.
     */
    method PollInstances(names: seq<string>, live: bool) returns (p: PollEnd<string>)
      modifies gce`calls
      ensures p == Poll(names, Present(gce.listed, live), gce.fails, old(gce.calls))
      ensures p.Polled? ==> gce.calls == p.next
      ensures p.PollFailed? ==> gce.calls == p.call + 1
    {
      ghost var ok := Present(gce.listed, live);
      var pending := names;
      while pending != []
        invariant Poll(names, ok, gce.fails, old(gce.calls)) == Poll(pending, ok, gce.fails, gce.calls)
        decreases |pending|
      {
        var k := gce.calls;
        var instances := gce.ListInstances();
        if instances.Err? {
          return PollFailed(k);
        }
        var present := pending[0] in instances.value;
        if live != present {
          return Polled(pending, gce.calls);
        }
        pending := pending[1..];
      }
      return Polled([], gce.calls);
    }

    // -------------------------------------------------------------------
    // Instances

    /** `Boot`: one insert per machine under a fresh name, then wait for the accepted ones to show up. */
    method Boot(bootSet: seq<Machine>) returns (r: Outcome)
      modifies gce`calls, gce`uuids, gce`requests
      ensures gce.uuids == old(gce.uuids) + |bootSet|
      ensures gce.requests == old(gce.requests) + BootRequests(gce.fails, gce.uuid, old(gce.calls), old(gce.uuids), bootSet)
      ensures Report(WaitSpec(Subjects(BootRequests(gce.fails, gce.uuid, old(gce.calls), old(gce.uuids), bootSet)),
                              Present(gce.listed, true), gce.fails, old(gce.calls) + |bootSet|), WaitTimeout)
        == Some((r, gce.calls))
    {
      var names := InsertBoots(bootSet);
      r := Wait(names, true);
    }

    /** The insert loop of `Boot`: the names of the accepted inserts, in order. */
    method InsertBoots(bootSet: seq<Machine>) returns (names: seq<string>)
      modifies gce`calls, gce`uuids, gce`requests
      ensures gce.calls == old(gce.calls) + |bootSet| && gce.uuids == old(gce.uuids) + |bootSet|
      ensures gce.requests == old(gce.requests) + BootRequests(gce.fails, gce.uuid, old(gce.calls), old(gce.uuids), bootSet)
      ensures names == Subjects(BootRequests(gce.fails, gce.uuid, old(gce.calls), old(gce.uuids), bootSet))
    {
      names := [];
      ghost var c0, u0, rq0 := gce.calls, gce.uuids, gce.requests;
      for i := 0 to |bootSet|
        invariant Booted(bootSet, c0, u0, rq0, i, names)
      {
        names := InsertNext(bootSet, c0, u0, rq0, i, names);
      }
      assert bootSet[..|bootSet|] == bootSet;
    }

    /** The insert loop of `Boot` after its first `i` machines, from call `c0`, name `u0` and requests `rq0`. */
    ghost predicate Booted(bootSet: seq<Machine>, c0: nat, u0: nat, rq0: seq<Request>, i: nat, names: seq<string>)
      reads gce
      requires i <= |bootSet|
    {
      && gce.calls == c0 + i && gce.uuids == u0 + i
      && gce.requests == rq0 + BootRequests(gce.fails, gce.uuid, c0, u0, bootSet[..i])
      && names == Subjects(BootRequests(gce.fails, gce.uuid, c0, u0, bootSet[..i]))
    }

    /** Machine `i` of the insert loop of `Boot`. */
    method InsertNext(bootSet: seq<Machine>, ghost c0: nat, ghost u0: nat, ghost rq0: seq<Request>, i: nat,
                      names: seq<string>) returns (names': seq<string>)
      requires i < |bootSet| && Booted(bootSet, c0, u0, rq0, i, names)
      modifies gce`calls, gce`uuids, gce`requests
      ensures Booted(bootSet, c0, u0, rq0, i + 1, names')
    {
      ghost var done := BootRequests(gce.fails, gce.uuid, c0, u0, bootSet[..i]);
      ghost var step := if gce.fails(c0 + i) then [] else [BootInsert(gce.uuid(u0 + i), bootSet[i])];
      assert BootRequests(gce.fails, gce.uuid, c0, u0, bootSet[..i + 1]) == done + step by {
        BootRequestsSnoc(gce.fails, gce.uuid, c0, u0, bootSet, i);
      }
      var name, accepted := InsertOne(bootSet[i]);
      if accepted {
        assert names + [name] == Subjects(done + step) by {
          MapSeqAppend(Subject, done, step);
        }
        names' := names + [name];
      } else {
        assert done + step == done;
        names' := names;
      }
    }

    /** One machine of `Boot`'s insert loop: a fresh name, and one insert request under it. */
    method InsertOne(m: Machine) returns (name: string, accepted: bool)
      modifies gce`calls, gce`uuids, gce`requests
      ensures gce.calls == old(gce.calls) + 1 && gce.uuids == old(gce.uuids) + 1
      ensures accepted == !gce.fails(old(gce.calls))
      ensures name == Subject(BootInsert(gce.uuid(old(gce.uuids)), m))
      ensures gce.requests == old(gce.requests) + (if accepted then [BootInsert(gce.uuid(old(gce.uuids)), m)] else [])
    {
      var id := gce.NewName();
      name := "quilt-" + id;
      var op := gce.InsertInstance(name, m.size, m.region);
      accepted := op.Ok?;
    }

    /** `Stop`: one delete per machine, then wait for the accepted ones to be gone. */
    method Stop(machines: seq<Machine>) returns (r: Outcome)
      modifies gce`calls, gce`requests
      ensures gce.requests == old(gce.requests) + StopRequests(gce.fails, old(gce.calls), machines)
      ensures Report(WaitSpec(Subjects(StopRequests(gce.fails, old(gce.calls), machines)),
                              Present(gce.listed, false), gce.fails, old(gce.calls) + |machines|), WaitTimeout)
        == Some((r, gce.calls))
    {
      var names := DeleteAll(machines);
      r := Wait(names, false);
    }

    /** The delete loop of `Stop`: the IDs of the accepted deletions, in order. */
    method DeleteAll(machines: seq<Machine>) returns (names: seq<string>)
      modifies gce`calls, gce`requests
      ensures gce.calls == old(gce.calls) + |machines|
      ensures gce.requests == old(gce.requests) + StopRequests(gce.fails, old(gce.calls), machines)
      ensures names == Subjects(StopRequests(gce.fails, old(gce.calls), machines))
    {
      names := [];
      ghost var c0, rq0 := gce.calls, gce.requests;
      for i := 0 to |machines|
        invariant Deleted(machines, c0, rq0, i, names)
      {
        names := DeleteNext(machines, c0, rq0, i, names);
      }
      assert machines[..|machines|] == machines;
    }

    /** The delete loop of `Stop` after its first `i` machines, from call `c0` and requests `rq0`. */
    ghost predicate Deleted(machines: seq<Machine>, c0: nat, rq0: seq<Request>, i: nat, names: seq<string>)
      reads gce
      requires i <= |machines|
    {
      && gce.calls == c0 + i
      && gce.requests == rq0 + StopRequests(gce.fails, c0, machines[..i])
      && names == Subjects(StopRequests(gce.fails, c0, machines[..i]))
    }

    /** Machine `i` of the delete loop of `Stop`. */
    method DeleteNext(machines: seq<Machine>, ghost c0: nat, ghost rq0: seq<Request>, i: nat,
                      names: seq<string>) returns (names': seq<string>)
      requires i < |machines| && Deleted(machines, c0, rq0, i, names)
      modifies gce`calls, gce`requests
      ensures Deleted(machines, c0, rq0, i + 1, names')
    {
      var m := machines[i];
      ghost var done := StopRequests(gce.fails, c0, machines[..i]);
      ghost var step := if gce.fails(c0 + i) then [] else [Request.DeleteInstance(m.id, m.region)];
      assert StopRequests(gce.fails, c0, machines[..i + 1]) == done + step by {
        StopRequestsSnoc(gce.fails, c0, machines, i);
      }
      var op := gce.DeleteInstance(m.id, m.region);
      if op.Ok? {
        assert names + [m.id] == Subjects(done + step) by {
          MapSeqAppend(Subject, done, step);
        }
        names' := names + [m.id];
      } else {
        assert done + step == done;
        names' := names;
      }
    }

    // -------------------------------------------------------------------
    // Firewalls and the network

    /** `getFirewall`: the first listed firewall called `name`, if any. */
    method GetFirewall(name: string) returns (r: Result<Option<Firewall>>)
      modifies gce`calls
      ensures gce.calls == old(gce.calls) + 1
      ensures r == if gce.fails(old(gce.calls)) then Err(ApiError(old(gce.calls)))
                   else Ok(FindFirewall(gce.firewalls, name))
    {
      var list := gce.ListFirewalls();
      if list.Err? {
        return Err(list.error);
      }
      var items := list.value;
      var i := 0;
      while i < |items|
        invariant i <= |items|
        invariant FindFirewall(items, name) == FindFirewall(items[i..], name)
      {
        if items[i].name == name {
          return Ok(Some(items[i]));
        }
        assert items[i..][1..] == items[i + 1..];
        i := i + 1;
      }
      return Ok(None);
    }

    /**
     * `getCreateFirewall`: the firewall of a port range, created with the
     * placeholder source range when the listing does not show it. The
     * listing's error is ignored, as in the source: the insert is then
     * tried, and the provider refuses it if the firewall exists.
     */
    method GetCreateFirewall(minPort: int, maxPort: int) returns (r: Result<Firewall>)
      modifies gce`calls, gce`firewalls, gce`requests
      ensures r.Ok? ==> FindFirewall(gce.firewalls, FirewallName(ns, minPort, maxPort)) == Some(r.value)
      ensures FindFirewall(old(gce.firewalls), FirewallName(ns, minPort, maxPort)).Some? ==>
        gce.firewalls == old(gce.firewalls) && gce.requests == old(gce.requests)
      ensures var created := NewFirewall(FirewallName(ns, minPort, maxPort), PortsString(minPort, maxPort), [Placeholder]);
        || (gce.firewalls == old(gce.firewalls) && gce.requests == old(gce.requests))
        || (&& FindFirewall(old(gce.firewalls), FirewallName(ns, minPort, maxPort)).None?
            && gce.firewalls == old(gce.firewalls) + [created]
            && gce.requests == old(gce.requests) + [Request.InsertFirewall(created)])
      ensures forall n :: n != FirewallName(ns, minPort, maxPort) ==>
        FindFirewall(gce.firewalls, n) == FindFirewall(old(gce.firewalls), n)
      ensures old(gce.requests) <= gce.requests
      ensures AllAbout(gce.requests[|old(gce.requests)|..], FirewallName(ns, minPort, maxPort))
    {
      var ports := PortsString(minPort, maxPort);
      var fwName := ns + "-" + ports;
      var found := GetFirewall(fwName);
      if found.Ok? && found.value.Some? {
        return Ok(found.value.value);
      }
      var created := NewFirewall(fwName, ports, [Placeholder]);
      var op := gce.InsertFirewall(created);
      if op.Err? {
        return Err(op.error);
      }
      assert gce.requests[|old(gce.requests)|..] == [Request.InsertFirewall(created)];
      FindAfterAppend(old(gce.firewalls), created, fwName);
      forall n | n != fwName
        ensures FindFirewall(gce.firewalls, n) == FindFirewall(old(gce.firewalls), n)
      {
        FindAfterAppend(old(gce.firewalls), created, n);
      }
      var w := OperationWait([op.value]);
      if w.Fail? {
        return Err(w.error);
      }
      var again := GetFirewall(fwName);
      if again.Err? {
        return Err(again.error);
      }
      return Ok(again.value.value);
    }

    /**
     * The patch-or-delete step of `SetACLs` for one firewall: with no
     * source ranges left it is deleted, otherwise its source ranges become
     * exactly `cidrIPs`; then the operation is awaited.
     */
    method PatchOrDelete(name: string, cidrIPs: seq<string>) returns (r: Outcome)
      modifies gce`calls, gce`firewalls, gce`requests
      ensures r.Pass? ==> Reconciled(old(gce.firewalls), gce.firewalls, name, cidrIPs)
      ensures r.Pass? && cidrIPs == [] ==> FindFirewall(gce.firewalls, name).None?
      ensures forall n :: n != name ==> FindFirewall(gce.firewalls, n) == FindFirewall(old(gce.firewalls), n)
      ensures old(gce.requests) <= gce.requests
      ensures gce.requests[|old(gce.requests)|..] <=
        [if cidrIPs == [] then Request.DeleteFirewall(name) else Request.PatchFirewall(name, cidrIPs)]
      ensures AllAbout(gce.requests[|old(gce.requests)|..], name)
    {
      var op;
      if |cidrIPs| == 0 {
        op := gce.DeleteFirewall(name);
        if op.Err? {
          return Fail(op.error);
        }
        assert gce.requests[|old(gce.requests)|..] == [Request.DeleteFirewall(name)];
        FindAfterRemove(old(gce.firewalls), name, name);
        forall n | n != name
          ensures FindFirewall(gce.firewalls, n) == FindFirewall(old(gce.firewalls), n)
        {
          FindAfterRemove(old(gce.firewalls), name, n);
        }
        assert Reconciled(old(gce.firewalls), gce.firewalls, name, cidrIPs);
      } else {
        op := gce.PatchFirewall(name, cidrIPs);
        if op.Err? {
          return Fail(op.error);
        }
        assert gce.requests[|old(gce.requests)|..] == [Request.PatchFirewall(name, cidrIPs)];
        FindAfterPatch(old(gce.firewalls), name, cidrIPs, name);
        forall n | n != name
          ensures FindFirewall(gce.firewalls, n) == FindFirewall(old(gce.firewalls), n)
        {
          FindAfterPatch(old(gce.firewalls), name, cidrIPs, n);
        }
        assert Reconciled(old(gce.firewalls), gce.firewalls, name, cidrIPs);
      }
      assert AllAbout(gce.requests[|old(gce.requests)|..], name);
      r := OperationWait([op.value]);
    }

    /**
     * One port range of `SetACLs`: make the range's firewall carry exactly
     * `cidrIPs`, deleting it when there are none, and leave it alone when
     * it already does.
     */
    method SetRange(key: ACL, cidrIPs: seq<string>) returns (r: Outcome)
      modifies gce`calls, gce`firewalls, gce`requests
      ensures r.Pass? ==> Reconciled(old(gce.firewalls), gce.firewalls, FirewallName(ns, key.minPort, key.maxPort), cidrIPs)
      ensures forall n :: n != FirewallName(ns, key.minPort, key.maxPort) ==>
        FindFirewall(gce.firewalls, n) == FindFirewall(old(gce.firewalls), n)
      ensures InSync(old(gce.firewalls), FirewallName(ns, key.minPort, key.maxPort), cidrIPs) ==>
        gce.firewalls == old(gce.firewalls) && gce.requests == old(gce.requests)
      ensures old(gce.requests) <= gce.requests
      ensures AllAbout(gce.requests[|old(gce.requests)|..], FirewallName(ns, key.minPort, key.maxPort))
    {
      ghost var name := FirewallName(ns, key.minPort, key.maxPort);
      var got := GetCreateFirewall(key.minPort, key.maxPort);
      if got.Err? {
        return Fail(got.error);
      }
      var fw := got.value;
      if fw.sourceRanges == cidrIPs {
        return Pass;
      }
      ghost var rq1, fws1 := gce.requests, gce.firewalls;
      r := PatchOrDelete(fw.name, cidrIPs);
      AllAboutSplit(old(gce.requests), rq1, gce.requests, name);
      forall n | n != name
        ensures FindFirewall(gce.firewalls, n) == FindFirewall(old(gce.firewalls), n)
      {
        assert FindFirewall(gce.firewalls, n) == FindFirewall(fws1, n);
      }
    }

    /**
     * The loop of `SetACLs` over the grouped target, in whatever order the
     * map hands out its keys; the first error ends it. On an error, `bad` is
     * the range that failed and `unreached` the ranges the loop never got
     * to: their firewalls are untouched and no request is about them.
     */
    method SetRanges(grouped: map<ACL, seq<string>>) returns (r: Outcome, ghost unreached: set<ACL>, ghost bad: ACL)
      requires forall key :: key in grouped ==> key.cidrIP == ""
      modifies gce`calls, gce`firewalls, gce`requests
      ensures r.Pass? ==> unreached == {} && forall key :: key in grouped ==>
        Reconciled(old(gce.firewalls), gce.firewalls, FirewallName(ns, key.minPort, key.maxPort), grouped[key])
      ensures r.Fail? ==> bad in grouped && unreached <= grouped.Keys && bad !in unreached
      ensures r.Fail? ==> RangesDone(old(gce.firewalls), gce.firewalls, ns, grouped, unreached + {bad})
      ensures OthersUntouched(gce.firewalls, old(gce.firewalls), ns, grouped, unreached)
      ensures old(gce.requests) <= gce.requests
      ensures AllAboutSome(gce.requests[|old(gce.requests)|..], RangeNames(ns, grouped.Keys - unreached))
      ensures (forall key :: key in grouped ==>
                 InSync(old(gce.firewalls), FirewallName(ns, key.minPort, key.maxPort), grouped[key])) ==>
        gce.firewalls == old(gce.firewalls) && gce.requests == old(gce.requests)
    {
      ghost var sync := AllInSync(old(gce.firewalls), ns, grouped);
      var todo := grouped.Keys;
      bad := ACL("", 0, 0);
      assert gce.requests[|old(gce.requests)|..] == [];
      while todo != {}
        invariant todo <= grouped.Keys
        invariant RangesDone(old(gce.firewalls), gce.firewalls, ns, grouped, todo)
        invariant OthersUntouched(gce.firewalls, old(gce.firewalls), ns, grouped, todo)
        invariant old(gce.requests) <= gce.requests
        invariant AllAboutSome(gce.requests[|old(gce.requests)|..], RangeNames(ns, grouped.Keys - todo))
        invariant sync ==> gce.firewalls == old(gce.firewalls) && gce.requests == old(gce.requests)
        decreases |todo|
      {
        var key :| key in todo;
        assert sync ==> InSync(gce.firewalls, FirewallName(ns, key.minPort, key.maxPort), grouped[key]);
        var rr := SetNext(grouped, todo, key, old(gce.firewalls), old(gce.requests));
        if rr.Fail? {
          assert todo - {key} + {key} == todo;
          return rr, todo - {key}, key;
        }
        assert |todo - {key}| < |todo|;
        todo := todo - {key};
      }
      assert RangesDone(old(gce.firewalls), gce.firewalls, ns, grouped, {});
      return Pass, {}, bad;
    }

    /** One range of the `SetACLs` loop: the ranges before it stay reconciled, and it joins them. */
    method SetNext(grouped: map<ACL, seq<string>>, todo: set<ACL>, key: ACL,
                   ghost fws0: seq<Firewall>, ghost rq0: seq<Request>)
        returns (r: Outcome)
      requires key in todo && todo <= grouped.Keys
      requires forall k :: k in grouped ==> k.cidrIP == ""
      requires RangesDone(fws0, gce.firewalls, ns, grouped, todo)
      requires OthersUntouched(gce.firewalls, fws0, ns, grouped, todo)
      requires rq0 <= gce.requests
      requires AllAboutSome(gce.requests[|rq0|..], RangeNames(ns, grouped.Keys - todo))
      modifies gce`calls, gce`firewalls, gce`requests
      ensures RangesDone(fws0, gce.firewalls, ns, grouped, todo)
      ensures r.Pass? ==> RangesDone(fws0, gce.firewalls, ns, grouped, todo - {key})
      ensures OthersUntouched(gce.firewalls, fws0, ns, grouped, todo - {key})
      ensures rq0 <= gce.requests
      ensures AllAboutSome(gce.requests[|rq0|..], RangeNames(ns, grouped.Keys - (todo - {key})))
      ensures InSync(old(gce.firewalls), FirewallName(ns, key.minPort, key.maxPort), grouped[key]) ==>
        gce.firewalls == old(gce.firewalls) && gce.requests == old(gce.requests)
    {
      ghost var name := FirewallName(ns, key.minPort, key.maxPort);
      ghost var rq1 := gce.requests;
      r := SetRange(key, grouped[key]);
      AllAboutSomeGrow(rq0, rq1, gce.requests, RangeNames(ns, grouped.Keys - todo), name);
      assert RangeNames(ns, grouped.Keys - todo) + {name} == RangeNames(ns, grouped.Keys - (todo - {key}));
      forall other | other in grouped && other != key
        ensures FirewallName(ns, other.minPort, other.maxPort) != name
      {
        RangeKeyNames(ns, other, key);
      }
      assert FindFirewall(old(gce.firewalls), name) == FindFirewall(fws0, name);
      forall k | k in grouped && k !in todo
        ensures Reconciled(fws0, gce.firewalls, FirewallName(ns, k.minPort, k.maxPort), grouped[k])
      {
        assert Reconciled(fws0, old(gce.firewalls), FirewallName(ns, k.minPort, k.maxPort), grouped[k]);
      }
      forall n | forall k :: k in grouped && k !in todo - {key} ==> n != FirewallName(ns, k.minPort, k.maxPort)
        ensures FindFirewall(gce.firewalls, n) == FindFirewall(fws0, n)
      {
        assert n != name;
      }
    }

    /**
     * `SetACLs`: bring every port range of the desired and the current
     * ACLs to its target. `j` is the join of desired and current ACLs the
     * run used.
     */
    method SetACLs(acls: seq<ACL>) returns (r: Outcome, ghost j: Join, ghost unreached: set<ACL>, ghost bad: ACL)
      modifies gce`calls, gce`firewalls, gce`requests
      ensures r.Pass? ==> IsJoin(j, acls, ParsedACLs(intFW, old(gce.firewalls)))
      ensures r.Pass? ==> unreached == {} && forall key :: key in Target(j) ==>
        Reconciled(old(gce.firewalls), gce.firewalls, FirewallName(ns, key.minPort, key.maxPort), Target(j)[key])
      ensures r.Fail? ==> unreached <= Target(j).Keys && bad !in unreached
      ensures r.Fail? && gce.requests != old(gce.requests) ==> bad in Target(j)
      ensures r.Fail? ==> RangesDone(old(gce.firewalls), gce.firewalls, ns, Target(j), unreached + {bad})
      ensures OthersUntouched(gce.firewalls, old(gce.firewalls), ns, Target(j), unreached)
      ensures FindFirewall(gce.firewalls, intFW) == FindFirewall(old(gce.firewalls), intFW)
      ensures old(gce.requests) <= gce.requests
      ensures AllAboutSome(gce.requests[|old(gce.requests)|..], RangeNames(ns, Target(j).Keys - unreached))
      ensures (forall key :: key in Target(j) ==>
                 InSync(old(gce.firewalls), FirewallName(ns, key.minPort, key.maxPort), Target(j)[key])) ==>
        gce.firewalls == old(gce.firewalls) && gce.requests == old(gce.requests)
    {
      var list := gce.ListFirewalls();
      if list.Err? {
        j, unreached, bad := Join([], [], []), {}, ACL("", 0, 0);
        assert gce.requests[|old(gce.requests)|..] == [];
        return Fail(list.error), j, unreached, bad;
      }
      var current := ParseACLs(list.value);
      JoinExists(acls, current);
      var join :| IsJoin(join, acls, current);
      j := join;
      var toSet := BuildToSet(join);
      var grouped := GroupACLsByPorts(toSet);
      forall key | key in grouped
        ensures key.cidrIP == ""
      {
        GroupByPortsSpec(toSet, key);
      }
      assert grouped == Target(j);
      forall key | key in grouped
        ensures intFW != FirewallName(ns, key.minPort, key.maxPort)
      {
        InternalIsNoRange(ns, key.minPort, key.maxPort);
      }
      r, unreached, bad := SetRanges(grouped);
    }

    /** `netInit`: create the cluster network unless it exists. */
    method NetInit() returns (r: Outcome)
      modifies gce`calls, gce`networks, gce`requests
      ensures r.Pass? ==> ns in gce.networks
      ensures ns in old(gce.networks) ==> gce.networks == old(gce.networks) && gce.requests == old(gce.requests)
      ensures || (gce.networks == old(gce.networks) && gce.requests == old(gce.requests))
              || (&& ns !in old(gce.networks)
                  && gce.networks == old(gce.networks) + {ns}
                  && gce.requests == old(gce.requests) + [Request.InsertNetwork(ns, ipv4Range)])
    {
      var list := gce.ListNetworks();
      if list.Err? {
        return Fail(list.error);
      }
      if ns in list.value {
        return Pass;
      }
      var op := gce.InsertNetwork(ns, ipv4Range);
      if op.Err? {
        return Fail(op.error);
      }
      r := OperationWait([op.value]);
    }

    /** `fwInit`: create the internal firewall, open to the internal network on every port, unless it exists. */
    method FwInit() returns (r: Outcome)
      modifies gce`calls, gce`firewalls, gce`requests
      ensures r.Pass? ==> FindFirewall(gce.firewalls, intFW).Some?
      ensures FindFirewall(old(gce.firewalls), intFW).Some? ==>
        gce.firewalls == old(gce.firewalls) && gce.requests == old(gce.requests)
      ensures var created := NewFirewall(intFW, "1-65535", [ipv4Range]);
        || (gce.firewalls == old(gce.firewalls) && gce.requests == old(gce.requests))
        || (&& FindFirewall(old(gce.firewalls), intFW).None?
            && gce.firewalls == old(gce.firewalls) + [created]
            && gce.requests == old(gce.requests) + [Request.InsertFirewall(created)])
    {
      var found := GetFirewall(intFW);
      if found.Err? {
        return Fail(found.error);
      }
      var ops: seq<Operation> := [];
      if found.value.None? {
        var created := NewFirewall(intFW, "1-65535", [ipv4Range]);
        var op := gce.InsertFirewall(created);
        if op.Err? {
          return Fail(op.error);
        }
        FindAfterAppend(old(gce.firewalls), created, intFW);
        ops := ops + [op.value];
      }
      r := OperationWait(ops);
    }
  }
}
