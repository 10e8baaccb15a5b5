/**
 * Firewall rules as ACL triples: how the GCE firewall listing is read as
 * ACLs (`parseACLs`), how ACLs are grouped per port range
 * (`groupACLsByPorts`), and the per-range target `SetACLs` computes from
 * the join of desired and current ACLs.
 */
module Acl {
  import opened GoText
  import opened Seqs
  import opened Compute

  /** `acl.ACL`: one allowed ingress rule. */
  datatype ACL = ACL(cidrIP: string, minPort: int, maxPort: int)

  /** The map key `groupACLsByPorts` files an ACL under: its port range, CIDR "". */
  function RangeKey(a: ACL): (k: ACL)
    ensures k.cidrIP == "" && k.minPort == a.minPort && k.maxPort == a.maxPort
  {
    ACL("", a.minPort, a.maxPort)
  }

  // ---------------------------------------------------------------------
  // parseACLs

  /** The (MinPort, MaxPort) that `parseACLs` reads from one comma-separated token. */
  function TokenRange(tok: string): (int, int)
  {
    var portRange := Split(tok, '-');
    if |portRange| == 1 then (Atoi(portRange[0]), Atoi(portRange[0]))
    else (Atoi(portRange[0]), Atoi(portRange[1]))
  }

  function TokenACL(cidr: string, tok: string): ACL
  {
    ACL(cidr, TokenRange(tok).0, TokenRange(tok).1)
  }

  /** Every token of every `Ports` string of every `Allowed` entry, in listing order. */
  function Tokens(allowed: seq<Allowed>): seq<string>
  {
    ConcatMap(allowed, (al: Allowed) => ConcatMap(al.ports, (ps: string) => Split(ps, ',')))
  }

  /** The ACLs of one source range and a list of port tokens: one per token (the innermost loop). */
  function TokensACLs(cidr: string, toks: seq<string>): seq<ACL>
  {
    MapSeq((tok: string) => TokenACL(cidr, tok), toks)
  }

  /** The ACLs of one source range and one `Ports` string. */
  function PortsACLs(cidr: string, portsStr: string): seq<ACL>
  {
    TokensACLs(cidr, Split(portsStr, ','))
  }

  /** The ACLs of one source range and a list of `Ports` strings. */
  function PortStringsACLs(cidr: string, ports: seq<string>): seq<ACL>
  {
    ConcatMap(ports, (ps: string) => PortsACLs(cidr, ps))
  }

  function AllowedACLs(cidr: string, al: Allowed): seq<ACL>
  {
    PortStringsACLs(cidr, al.ports)
  }

  /** The ACLs of one source range and a list of `Allowed` entries. */
  function RangeACLs(cidr: string, allowed: seq<Allowed>): seq<ACL>
  {
    ConcatMap(allowed, (al: Allowed) => AllowedACLs(cidr, al))
  }

  /** The ACLs of a list of source ranges, each with every `Allowed` entry. */
  function SourcesACLs(ranges: seq<string>, allowed: seq<Allowed>): seq<ACL>
  {
    ConcatMap(ranges, (c: string) => RangeACLs(c, allowed))
  }

  function FirewallACLs(fw: Firewall): seq<ACL>
  {
    SourcesACLs(fw.sourceRanges, fw.allowed)
  }

  /** What `parseACLs` returns for the listing `fws`, skipping the firewall called `intFW`. */
  function ParsedACLs(intFW: string, fws: seq<Firewall>): seq<ACL>
  {
    ConcatMap(fws, (fw: Firewall) => if fw.name == intFW then [] else FirewallACLs(fw))
  }

  // One more loop iteration of `parseACLs`, level by level.

  lemma TokensACLsSnoc(cidr: string, toks: seq<string>, t: nat)
    requires t < |toks|
    ensures TokensACLs(cidr, toks[..t + 1]) == TokensACLs(cidr, toks[..t]) + [TokenACL(cidr, toks[t])]
  {
    MapSeqPrefix((tok: string) => TokenACL(cidr, tok), toks, t);
  }

  lemma PortStringsACLsSnoc(cidr: string, ports: seq<string>, p: nat)
    requires p < |ports|
    ensures PortStringsACLs(cidr, ports[..p + 1]) == PortStringsACLs(cidr, ports[..p]) + PortsACLs(cidr, ports[p])
  {
    ConcatMapPrefix(ports, p, (ps: string) => PortsACLs(cidr, ps));
  }

  lemma RangeACLsSnoc(cidr: string, allowed: seq<Allowed>, a: nat)
    requires a < |allowed|
    ensures RangeACLs(cidr, allowed[..a + 1]) == RangeACLs(cidr, allowed[..a]) + AllowedACLs(cidr, allowed[a])
  {
    ConcatMapPrefix(allowed, a, (al: Allowed) => AllowedACLs(cidr, al));
  }

  lemma SourcesACLsSnoc(ranges: seq<string>, allowed: seq<Allowed>, c: nat)
    requires c < |ranges|
    ensures SourcesACLs(ranges[..c + 1], allowed) == SourcesACLs(ranges[..c], allowed) + RangeACLs(ranges[c], allowed)
  {
    ConcatMapPrefix(ranges, c, (c: string) => RangeACLs(c, allowed));
  }

  lemma ParsedACLsSnoc(intFW: string, fws: seq<Firewall>, i: nat)
    requires i < |fws|
    ensures ParsedACLs(intFW, fws[..i + 1]) ==
      ParsedACLs(intFW, fws[..i]) + (if fws[i].name == intFW then [] else FirewallACLs(fws[i]))
  {
    ConcatMapPrefix(fws, i, (fw: Firewall) => if fw.name == intFW then [] else FirewallACLs(fw));
  }

  /** A token without '-' is a single port. */
  lemma TokenSinglePort(tok: string)
    requires '-' !in tok
    ensures TokenRange(tok) == (Atoi(tok), Atoi(tok))
  {
    SplitWithout(tok, '-');
  }

  /** A token "A-B..." reads A and the piece after the first '-'; anything after a second '-' is ignored. */
  lemma TokenPortRange(a: string, rest: string)
    requires '-' !in a
    ensures TokenRange(a + "-" + rest) == (Atoi(a), Atoi(Split(rest, '-')[0]))
  {
    SplitAt(a, rest, '-');
  }

  /** A malformed bound of "A-B" ("", "+", "8a", "x1", ...) reads as port 0, because the Atoi error is discarded. */
  lemma TokenUnparsable(a: string, b: string)
    requires '-' !in a && '-' !in b
    ensures SyntaxError(Unsigned(a)) ==> TokenRange(a + "-" + b).0 == 0
    ensures SyntaxError(Unsigned(b)) ==> TokenRange(a + "-" + b).1 == 0
  {
    TokenPortRange(a, b);
    SplitWithout(b, '-');
    if SyntaxError(Unsigned(a)) {
      AtoiSyntax(a);
    }
    if SyntaxError(Unsigned(b)) {
      AtoiSyntax(b);
    }
  }

  /** The "min-max" string a firewall is created with reads back as (min, max). */
  lemma TokenRoundTrip(min: nat, max: nat)
    requires min <= MaxInt64 && max <= MaxInt64
    ensures TokenRange(NatToString(min) + "-" + NatToString(max)) == (min, max)
  {
    var a, b := NatToString(min), NatToString(max);
    assert '-' !in a by { assert forall i :: 0 <= i < |a| ==> IsDigit(a[i]); }
    assert '-' !in b by { assert forall i :: 0 <= i < |b| ==> IsDigit(b[i]); }
    TokenPortRange(a, b);
    SplitWithout(b, '-');
    AtoiNatToString(min);
    AtoiNatToString(max);
  }

  /**
   * A range with a negative lower bound does not read back: "-N-M" splits
   * into "", "N" and "M", so it reads as 0 to N.
   */
  lemma NegativeRangeMisread(n: nat, max: nat)
    requires n <= MaxInt64
    ensures TokenRange("-" + NatToString(n) + "-" + NatToString(max)) == (0, n)
  {
    var a, b := NatToString(n), NatToString(max);
    assert '-' !in a by { assert forall i :: 0 <= i < |a| ==> IsDigit(a[i]); }
    assert "-" + a + "-" + b == "" + "-" + (a + "-" + b);
    TokenPortRange("", a + "-" + b);
    SplitAt(a, b, '-');
    AtoiNatToString(n);
  }

  /** One source range yields one ACL per token, all with that CIDR. */
  lemma RangeACLsAreTokens(cidr: string, allowed: seq<Allowed>)
    ensures RangeACLs(cidr, allowed) == MapSeq((tok: string) => TokenACL(cidr, tok), Tokens(allowed))
  {
    var g := (tok: string) => TokenACL(cidr, tok);
    var inner := (al: Allowed) => ConcatMap(al.ports, (ps: string) => Split(ps, ','));
    forall al: Allowed
      ensures AllowedACLs(cidr, al) == MapSeq(g, inner(al))
    {
      ConcatMapMapSeq(al.ports, (ps: string) => Split(ps, ','), g, (ps: string) => PortsACLs(cidr, ps));
    }
    ConcatMapMapSeq(allowed, inner, g, (al: Allowed) => AllowedACLs(cidr, al));
  }

  /**
   * A firewall yields one ACL per (source range, port token): there are
   * |SourceRanges| * |tokens| of them, and each is a source range paired
   * with the range read from a token.
   */
  lemma FirewallACLsShape(fw: Firewall, a: ACL)
    ensures |FirewallACLs(fw)| == |fw.sourceRanges| * |Tokens(fw.allowed)|
    ensures a in FirewallACLs(fw) <==>
      exists c, tok :: c in fw.sourceRanges && tok in Tokens(fw.allowed) && a == TokenACL(c, tok)
  {
    var f := (c: string) => RangeACLs(c, fw.allowed);
    forall c | c in fw.sourceRanges
      ensures |f(c)| == |Tokens(fw.allowed)|
    {
      RangeACLsAreTokens(c, fw.allowed);
    }
    ConcatMapUniformLength(fw.sourceRanges, f, |Tokens(fw.allowed)|);
    ConcatMapMember(fw.sourceRanges, f, a);
    if a in FirewallACLs(fw) {
      var c :| c in fw.sourceRanges && a in f(c);
      RangeACLsAreTokens(c, fw.allowed);
      var i :| 0 <= i < |f(c)| && f(c)[i] == a;
      assert Tokens(fw.allowed)[i] in Tokens(fw.allowed);
    }
    if exists c, tok :: c in fw.sourceRanges && tok in Tokens(fw.allowed) && a == TokenACL(c, tok) {
      var c, tok :| c in fw.sourceRanges && tok in Tokens(fw.allowed) && a == TokenACL(c, tok);
      RangeACLsAreTokens(c, fw.allowed);
      var i :| 0 <= i < |Tokens(fw.allowed)| && Tokens(fw.allowed)[i] == tok;
      assert f(c)[i] == a;
    }
  }

  /** Every parsed ACL comes from a firewall other than `intFW`, and every such firewall contributes all of its ACLs. */
  lemma ParsedACLsMember(intFW: string, fws: seq<Firewall>, a: ACL)
    ensures a in ParsedACLs(intFW, fws) <==>
      exists fw :: fw in fws && fw.name != intFW && a in FirewallACLs(fw)
  {
    var f := (fw: Firewall) => if fw.name == intFW then [] else FirewallACLs(fw);
    ConcatMapMember(fws, f, a);
  }

  /** The internal firewall, wherever it stands in the listing, contributes nothing. */
  lemma ParsedACLsSkipsInternal(intFW: string, before: seq<Firewall>, fw: Firewall, after: seq<Firewall>)
    requires fw.name == intFW
    ensures ParsedACLs(intFW, before + [fw] + after) == ParsedACLs(intFW, before + after)
  {
    var f := (fw: Firewall) => if fw.name == intFW then [] else FirewallACLs(fw);
    ConcatMapAppend(before + [fw], after, f);
    ConcatMapSnoc(before, fw, f);
    ConcatMapAppend(before, after, f);
  }

  // ---------------------------------------------------------------------
  // groupACLsByPorts

  /** The map `groupACLsByPorts(acls)` returns. */
  function GroupByPorts(acls: seq<ACL>): map<ACL, seq<string>>
  {
    if acls == [] then map[]
    else
      var g := GroupByPorts(acls[..|acls| - 1]);
      var a := acls[|acls| - 1];
      GroupStep(g, a)
  }

  /** One iteration of the grouping loop. */
  function GroupStep(g: map<ACL, seq<string>>, a: ACL): map<ACL, seq<string>>
  {
    var key := RangeKey(a);
    var cur := if key in g then g[key] else [];
    g[key := if a.cidrIP != "" then cur + [a.cidrIP] else cur]
  }

  /** Reference definition: the non-empty CIDRs of the ACLs whose range is `key`, in order. */
  function CidrsIn(acls: seq<ACL>, key: ACL): seq<string>
  {
    if acls == [] then []
    else (if RangeKey(acls[0]) == key && acls[0].cidrIP != "" then [acls[0].cidrIP] else [])
         + CidrsIn(acls[1..], key)
  }

  lemma {:induction false} CidrsInSnoc(acls: seq<ACL>, a: ACL, key: ACL)
    ensures CidrsIn(acls + [a], key) ==
      CidrsIn(acls, key) + (if RangeKey(a) == key && a.cidrIP != "" then [a.cidrIP] else [])
  {
    if acls != [] {
      assert (acls + [a])[1..] == acls[1..] + [a];
      CidrsInSnoc(acls[1..], a, key);
    }
  }

  lemma {:induction false} CidrsInAppend(a: seq<ACL>, b: seq<ACL>, key: ACL)
    ensures CidrsIn(a + b, key) == CidrsIn(a, key) + CidrsIn(b, key)
  {
    if a == [] {
      assert a + b == b;
    } else {
      assert (a + b)[1..] == a[1..] + b;
      CidrsInAppend(a[1..], b, key);
    }
  }

  /**
   * The keys of `groupACLsByPorts(acls)` are exactly the distinct port
   * ranges of `acls` (with CidrIP ""), and each key lists the non-empty
   * CIDRs of the ACLs with that range, in input order.
   */
  lemma {:induction false} GroupByPortsSpec(acls: seq<ACL>, key: ACL)
    ensures key in GroupByPorts(acls) <==> exists a :: a in acls && RangeKey(a) == key
    ensures key in GroupByPorts(acls) ==> GroupByPorts(acls)[key] == CidrsIn(acls, key)
  {
    if acls != [] {
      var init, a := acls[..|acls| - 1], acls[|acls| - 1];
      assert acls == init + [a];
      GroupByPortsSpec(init, key);
      CidrsInSnoc(init, a, key);
      if key !in GroupByPorts(init) && key == RangeKey(a) {
        assert CidrsIn(init, key) == [] by { CidrsInAbsent(init, key); }
      }
      if exists b :: b in acls && RangeKey(b) == key {
        var b :| b in acls && RangeKey(b) == key;
        if b != a {
          assert b in init;
        }
      }
    }
  }

  lemma {:induction false} CidrsInAbsent(acls: seq<ACL>, key: ACL)
    requires forall a :: a in acls ==> RangeKey(a) != key
    ensures CidrsIn(acls, key) == []
  {
    if acls != [] {
      CidrsInAbsent(acls[1..], key);
    }
  }

  /**
   * How often a CIDR occurs in `CidrsIn(acls, key)`: as often as the ACL
   * (cidr, key's range) occurs in `acls`, and never for the empty CIDR.
   */
  lemma {:induction false} CidrsInCount(acls: seq<ACL>, key: ACL, c: string)
    requires key.cidrIP == ""
    ensures multiset(CidrsIn(acls, key))[c] ==
      if c == "" then 0 else multiset(acls)[ACL(c, key.minPort, key.maxPort)]
  {
    if acls != [] {
      var a, rest := acls[0], acls[1..];
      CidrsInCount(rest, key, c);
      assert acls == [a] + rest;
      CidrsInCountStep(a, rest, key, c);
    }
  }

  /** The inductive step of `CidrsInCount`: one more ACL in front. */
  lemma CidrsInCountStep(a: ACL, rest: seq<ACL>, key: ACL, c: string)
    requires key.cidrIP == ""
    requires multiset(CidrsIn(rest, key))[c] ==
      if c == "" then 0 else multiset(rest)[ACL(c, key.minPort, key.maxPort)]
    ensures multiset(CidrsIn([a] + rest, key))[c] ==
      if c == "" then 0 else multiset([a] + rest)[ACL(c, key.minPort, key.maxPort)]
  {
    HeadCount(a, key, c);
    var head := if RangeKey(a) == key && a.cidrIP != "" then [a.cidrIP] else [];
    assert ([a] + rest)[0] == a && ([a] + rest)[1..] == rest;
    assert CidrsIn([a] + rest, key) == head + CidrsIn(rest, key);
  }

  /** The one-ACL case of `CidrsInCount`. */
  lemma HeadCount(a: ACL, key: ACL, c: string)
    requires key.cidrIP == ""
    ensures multiset(if RangeKey(a) == key && a.cidrIP != "" then [a.cidrIP] else [])[c] ==
      if c == "" then 0 else multiset([a])[ACL(c, key.minPort, key.maxPort)]
  {
    if c != "" && a == ACL(c, key.minPort, key.maxPort) {
      assert RangeKey(a) == key;
    }
  }

  // ---------------------------------------------------------------------
  // The join of desired and current ACLs, and SetACLs' target

  /** A matched pair: `l` from the desired side, `r` from the current side. */
  datatype Pair = Pair(l: ACL, r: ACL)

  /** The three results of `join.HashJoin`. */
  datatype Join = Join(pairs: seq<Pair>, toAdd: seq<ACL>, toRemove: seq<ACL>)

  function Lefts(pairs: seq<Pair>): seq<ACL>
  {
    MapSeq((p: Pair) => p.l, pairs)
  }

  function Rights(pairs: seq<Pair>): seq<ACL>
  {
    MapSeq((p: Pair) => p.r, pairs)
  }

  /**
   * What the model takes as given about `join.HashJoin`, whose code is not part of this
   * model: it is total (every desired ACL is a pair's left side or in
   * `toAdd`, every current ACL a pair's right side or in `toRemove`, each
   * exactly once) and it only pairs ACLs of the same port range. Its key is
   * left open.
   */
  predicate IsJoin(j: Join, desired: seq<ACL>, current: seq<ACL>)
  {
    && multiset(j.toAdd) + multiset(Lefts(j.pairs)) == multiset(desired)
    && multiset(j.toRemove) + multiset(Rights(j.pairs)) == multiset(current)
    && forall i :: 0 <= i < |j.pairs| ==> RangeKey(j.pairs[i].l) == RangeKey(j.pairs[i].r)
  }

  /** A join always exists: pairing nothing is one. */
  lemma JoinExists(desired: seq<ACL>, current: seq<ACL>)
    ensures IsJoin(Join([], desired, current), desired, current)
  {
    assert Lefts([]) == [] && Rights([]) == [];
  }

  /** The `toSet` list `SetACLs` builds: additions, then pairs' desired sides, then an empty-CIDR marker per removal. */
  function ToSet(j: Join): seq<ACL>
  {
    j.toAdd + Lefts(j.pairs) + MapSeq(RangeKey, j.toRemove)
  }

  /** The target source ranges per port range. */
  function Target(j: Join): map<ACL, seq<string>>
  {
    GroupByPorts(ToSet(j))
  }

  /**
   * The ranges `SetACLs` acts on are exactly the port ranges of the
   * desired and the current ACLs.
   */
  lemma TargetKeys(j: Join, desired: seq<ACL>, current: seq<ACL>, key: ACL)
    requires IsJoin(j, desired, current)
    ensures key in Target(j) <==>
      exists a :: (a in desired || a in current) && RangeKey(a) == key
  {
    GroupByPortsSpec(ToSet(j), key);
    if exists a :: a in ToSet(j) && RangeKey(a) == key {
      var a :| a in ToSet(j) && RangeKey(a) == key;
      ToSetSound(j, desired, current, a);
    }
    if exists a :: (a in desired || a in current) && RangeKey(a) == key {
      var a :| (a in desired || a in current) && RangeKey(a) == key;
      ToSetComplete(j, desired, current, a);
    }
  }

  /** An entry of `toSet` has the port range of a desired or a current ACL. */
  lemma ToSetSound(j: Join, desired: seq<ACL>, current: seq<ACL>, a: ACL)
    requires IsJoin(j, desired, current)
    requires a in ToSet(j)
    ensures exists b :: (b in desired || b in current) && RangeKey(b) == RangeKey(a)
  {
    if a in j.toAdd {
      assert a in multiset(desired);
    } else if a in Lefts(j.pairs) {
      assert a in multiset(desired);
    } else {
      assert a in MapSeq(RangeKey, j.toRemove);
      var i :| 0 <= i < |j.toRemove| && RangeKey(j.toRemove[i]) == a;
      assert j.toRemove[i] in multiset(current);
      RangeKeyIdempotent(j.toRemove[i]);
    }
  }

  /** Every desired or current ACL's port range has an entry in `toSet`. */
  lemma ToSetComplete(j: Join, desired: seq<ACL>, current: seq<ACL>, a: ACL)
    requires IsJoin(j, desired, current)
    requires a in desired || a in current
    ensures exists b :: b in ToSet(j) && RangeKey(b) == RangeKey(a)
  {
    var ts := ToSet(j);
    if a in desired {
      assert a in multiset(j.toAdd) + multiset(Lefts(j.pairs));
      assert a in ts;
    } else {
      assert a in multiset(j.toRemove) + multiset(Rights(j.pairs));
      if a in j.toRemove {
        var i :| 0 <= i < |j.toRemove| && j.toRemove[i] == a;
        assert MapSeq(RangeKey, j.toRemove)[i] in ts;
        RangeKeyIdempotent(a);
      } else {
        var i :| 0 <= i < |j.pairs| && Rights(j.pairs)[i] == a;
        assert Lefts(j.pairs)[i] in ts;
      }
    }
  }

  lemma RangeKeyIdempotent(a: ACL)
    ensures RangeKey(RangeKey(a)) == RangeKey(a)
  {
  }

  /**
   * The target for a range holds the desired non-empty CIDRs of that
   * range, each as often as it is desired: what is added and what is kept,
   * never something only removed.
   */
  lemma TargetContents(j: Join, desired: seq<ACL>, current: seq<ACL>, key: ACL)
    requires IsJoin(j, desired, current)
    requires key in Target(j)
    ensures multiset(Target(j)[key]) == multiset(CidrsIn(desired, key))
  {
    GroupByPortsSpec(ToSet(j), key);
    var markers := MapSeq(RangeKey, j.toRemove);
    assert key.cidrIP == "" by {
      var a :| a in ToSet(j) && RangeKey(a) == key;
    }
    forall c
      ensures multiset(CidrsIn(ToSet(j), key))[c] == multiset(CidrsIn(desired, key))[c]
    {
      CidrsInCount(ToSet(j), key, c);
      CidrsInCount(desired, key, c);
      if c != "" {
        var x := ACL(c, key.minPort, key.maxPort);
        assert multiset(ToSet(j)) == multiset(j.toAdd) + multiset(Lefts(j.pairs)) + multiset(markers);
        assert x !in markers;
      }
    }
  }

  /** A CIDR appears in a range's target exactly when it is desired for that range. */
  lemma TargetMember(j: Join, desired: seq<ACL>, current: seq<ACL>, key: ACL, c: string)
    requires IsJoin(j, desired, current)
    requires key in Target(j)
    ensures c in Target(j)[key] <==> c != "" && ACL(c, key.minPort, key.maxPort) in desired
  {
    TargetContents(j, desired, current, key);
    assert key.cidrIP == "" by {
      GroupByPortsSpec(ToSet(j), key);
      var a :| a in ToSet(j) && RangeKey(a) == key;
    }
    CidrsInCount(desired, key, c);
    assert c in Target(j)[key] <==> c in multiset(Target(j)[key]);
  }
}
