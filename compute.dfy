/**
 * The slice of the Google Compute Engine API that the cluster code calls,
 * as a provider object. What the provider does on its own (instances
 * coming up or going away, operations finishing, calls failing, the names
 * `uuid.NewV4` hands out) is fixed up front by oracle functions indexed by
 * the number of API calls made so far; what the cluster itself changes
 * (firewalls, networks) is state that its requests update.
 */
module Compute {

  datatype Option<T> = None | Some(value: T)

  /** One entry of a firewall's `Allowed` list. */
  datatype Allowed = Allowed(ipProtocol: string, ports: seq<string>)

  /** A firewall resource as `Firewalls.List` returns it. */
  datatype Firewall = Firewall(name: string, allowed: seq<Allowed>, sourceRanges: seq<string>)

  /** A long-running operation handle, named by the call that created it. */
  datatype Operation = Operation(id: nat)

  datatype Error =
    | ApiError(call: nat)      // the API call with this number returned an error
    | OperationTimeout         // "operationWait(): timeout"
    | WaitTimeout              // "wait(): timeout"

  datatype Result<T> = Ok(value: T) | Err(error: Error)

  datatype Outcome = Pass | Fail(error: Error)

  /** A mutating request the provider accepted. */
  datatype Request =
    | InsertInstance(name: string, size: string, zone: string)
    | DeleteInstance(name: string, zone: string)
    | InsertFirewall(fw: Firewall)
    | PatchFirewall(name: string, sourceRanges: seq<string>)
    | DeleteFirewall(name: string)
    | InsertNetwork(name: string, ipv4Range: string)

  // ---------------------------------------------------------------------
  // The firewall table

  /** The first firewall called `name`, as `getFirewall` finds it. */
  function FindFirewall(fws: seq<Firewall>, name: string): (r: Option<Firewall>)
    ensures r.Some? ==> r.value in fws && r.value.name == name
    ensures r.None? <==> forall i :: 0 <= i < |fws| ==> fws[i].name != name
  {
    if fws == [] then None
    else if fws[0].name == name then Some(fws[0])
    else FindFirewall(fws[1..], name)
  }

  /** `Firewalls.Patch`: the firewall called `name` gets new source ranges. */
  function PatchRanges(fws: seq<Firewall>, name: string, ranges: seq<string>): (r: seq<Firewall>)
    ensures |r| == |fws|
    ensures forall i :: 0 <= i < |fws| ==>
      r[i] == if fws[i].name == name then fws[i].(sourceRanges := ranges) else fws[i]
  {
    if fws == [] then []
    else [if fws[0].name == name then fws[0].(sourceRanges := ranges) else fws[0]]
         + PatchRanges(fws[1..], name, ranges)
  }

  /** `Firewalls.Delete`: the firewall called `name` is gone. */
  function RemoveFirewall(fws: seq<Firewall>, name: string): seq<Firewall>
  {
    if fws == [] then []
    else (if fws[0].name == name then [] else [fws[0]]) + RemoveFirewall(fws[1..], name)
  }

  lemma {:induction false} FindAfterPatch(fws: seq<Firewall>, name: string, ranges: seq<string>, other: string)
    ensures FindFirewall(PatchRanges(fws, name, ranges), other) ==
      if other == name && FindFirewall(fws, name).Some?
      then Some(FindFirewall(fws, name).value.(sourceRanges := ranges))
      else FindFirewall(fws, other)
  {
    if fws != [] {
      FindAfterPatch(fws[1..], name, ranges, other);
      assert PatchRanges(fws, name, ranges)[1..] == PatchRanges(fws[1..], name, ranges);
    }
  }

  lemma {:induction false} FindAfterRemove(fws: seq<Firewall>, name: string, other: string)
    ensures FindFirewall(RemoveFirewall(fws, name), other) ==
      if other == name then None else FindFirewall(fws, other)
  {
    if fws != [] {
      FindAfterRemove(fws[1..], name, other);
      var rest := RemoveFirewall(fws[1..], name);
      if fws[0].name == name {
        assert RemoveFirewall(fws, name) == rest;
      } else {
        assert RemoveFirewall(fws, name) == [fws[0]] + rest;
        assert ([fws[0]] + rest)[1..] == rest;
      }
    }
  }

  lemma {:induction false} FindAfterAppend(fws: seq<Firewall>, fw: Firewall, other: string)
    ensures FindFirewall(fws + [fw], other) ==
      if FindFirewall(fws, other).None? && other == fw.name then Some(fw)
      else FindFirewall(fws, other)
  {
    if fws != [] {
      FindAfterAppend(fws[1..], fw, other);
      assert (fws + [fw])[1..] == fws[1..] + [fw];
    }
  }

  // ---------------------------------------------------------------------
  // The provider

  class Gce {
    /** Whether API call number `k` returns an error. */
    const fails: nat -> bool
    /** The instance names that an instance listing made as call `k` reports. */
    const listed: nat -> set<string>
    /** The status operation `id` reports when polled as call `k`. */
    const opStatus: (nat, nat) -> string
    /** The `k`-th name `uuid.NewV4` produces. */
    const uuid: nat -> string

    /** API calls made so far. */
    var calls: nat
    /** Names drawn from `uuid` so far. */
    var uuids: nat
    var firewalls: seq<Firewall>
    var networks: set<string>
    /** Every mutating request the provider accepted, oldest first. */
    var requests: seq<Request>

    constructor (fails: nat -> bool, listed: nat -> set<string>, opStatus: (nat, nat) -> string,
                 uuid: nat -> string, firewalls: seq<Firewall>, networks: set<string>)
      ensures this.fails == fails && this.listed == listed && this.opStatus == opStatus
      ensures this.uuid == uuid && this.firewalls == firewalls && this.networks == networks
      ensures calls == 0 && uuids == 0 && requests == []
    {
      this.fails, this.listed, this.opStatus, this.uuid := fails, listed, opStatus, uuid;
      this.firewalls, this.networks := firewalls, networks;
      calls, uuids, requests := 0, 0, [];
    }

    /** `uuid.NewV4().String()`: a local draw, not an API call. */
    method NewName() returns (name: string)
      modifies this`uuids
      ensures name == uuid(old(uuids)) && uuids == old(uuids) + 1
    {
      name := uuid(uuids);
      uuids := uuids + 1;
    }

    /** `Instances.List` over the cluster's zones. */
    method ListInstances() returns (r: Result<set<string>>)
      modifies this`calls
      ensures calls == old(calls) + 1
      ensures r == if fails(old(calls)) then Err(ApiError(old(calls))) else Ok(listed(old(calls)))
    {
      var k := calls;
      calls := calls + 1;
      if fails(k) {
        r := Err(ApiError(k));
      } else {
        r := Ok(listed(k));
      }
    }

    /** `Instances.Insert`. */
    method InsertInstance(name: string, size: string, zone: string) returns (r: Result<Operation>)
      modifies this`calls, this`requests
      ensures calls == old(calls) + 1
      ensures r == if fails(old(calls)) then Err(ApiError(old(calls))) else Ok(Operation(old(calls)))
      ensures requests == old(requests) + (if r.Ok? then [Request.InsertInstance(name, size, zone)] else [])
    {
      var k := calls;
      calls := calls + 1;
      if fails(k) {
        r := Err(ApiError(k));
      } else {
        r := Ok(Operation(k));
        requests := requests + [Request.InsertInstance(name, size, zone)];
      }
    }

    /** `Instances.Delete`. */
    method DeleteInstance(name: string, zone: string) returns (r: Result<Operation>)
      modifies this`calls, this`requests
      ensures calls == old(calls) + 1
      ensures r == if fails(old(calls)) then Err(ApiError(old(calls))) else Ok(Operation(old(calls)))
      ensures requests == old(requests) + (if r.Ok? then [Request.DeleteInstance(name, zone)] else [])
    {
      var k := calls;
      calls := calls + 1;
      if fails(k) {
        r := Err(ApiError(k));
      } else {
        r := Ok(Operation(k));
        requests := requests + [Request.DeleteInstance(name, zone)];
      }
    }

    /** `GlobalOperations.Get` / `ZoneOperations.Get`: the operation's status. */
    method GetOperation(op: Operation) returns (r: Result<string>)
      modifies this`calls
      ensures calls == old(calls) + 1
      ensures r == if fails(old(calls)) then Err(ApiError(old(calls))) else Ok(opStatus(op.id, old(calls)))
    {
      var k := calls;
      calls := calls + 1;
      if fails(k) {
        r := Err(ApiError(k));
      } else {
        r := Ok(opStatus(op.id, k));
      }
    }

    /** `Firewalls.List`. */
    method ListFirewalls() returns (r: Result<seq<Firewall>>)
      modifies this`calls
      ensures calls == old(calls) + 1
      ensures r == if fails(old(calls)) then Err(ApiError(old(calls))) else Ok(firewalls)
    {
      var k := calls;
      calls := calls + 1;
      if fails(k) {
        r := Err(ApiError(k));
      } else {
        r := Ok(firewalls);
      }
    }

    /** `Firewalls.Insert`; refused when a firewall of that name exists. */
    method InsertFirewall(fw: Firewall) returns (r: Result<Operation>)
      modifies this`calls, this`requests, this`firewalls
      ensures calls == old(calls) + 1
      ensures r == if fails(old(calls)) || FindFirewall(old(firewalls), fw.name).Some?
                   then Err(ApiError(old(calls))) else Ok(Operation(old(calls)))
      ensures firewalls == old(firewalls) + (if r.Ok? then [fw] else [])
      ensures requests == old(requests) + (if r.Ok? then [Request.InsertFirewall(fw)] else [])
    {
      var k := calls;
      calls := calls + 1;
      if fails(k) || FindFirewall(firewalls, fw.name).Some? {
        r := Err(ApiError(k));
      } else {
        r := Ok(Operation(k));
        firewalls := firewalls + [fw];
        requests := requests + [Request.InsertFirewall(fw)];
      }
    }

    /** `Firewalls.Patch` of the source ranges; refused when there is no such firewall. */
    method PatchFirewall(name: string, ranges: seq<string>) returns (r: Result<Operation>)
      modifies this`calls, this`requests, this`firewalls
      ensures calls == old(calls) + 1
      ensures r == if fails(old(calls)) || FindFirewall(old(firewalls), name).None?
                   then Err(ApiError(old(calls))) else Ok(Operation(old(calls)))
      ensures firewalls == if r.Ok? then PatchRanges(old(firewalls), name, ranges) else old(firewalls)
      ensures requests == old(requests) + (if r.Ok? then [Request.PatchFirewall(name, ranges)] else [])
    {
      var k := calls;
      calls := calls + 1;
      if fails(k) || FindFirewall(firewalls, name).None? {
        r := Err(ApiError(k));
      } else {
        r := Ok(Operation(k));
        firewalls := PatchRanges(firewalls, name, ranges);
        requests := requests + [Request.PatchFirewall(name, ranges)];
      }
    }

    /** `Firewalls.Delete`; refused when there is no such firewall. */
    method DeleteFirewall(name: string) returns (r: Result<Operation>)
      modifies this`calls, this`requests, this`firewalls
      ensures calls == old(calls) + 1
      ensures r == if fails(old(calls)) || FindFirewall(old(firewalls), name).None?
                   then Err(ApiError(old(calls))) else Ok(Operation(old(calls)))
      ensures firewalls == if r.Ok? then RemoveFirewall(old(firewalls), name) else old(firewalls)
      ensures requests == old(requests) + (if r.Ok? then [Request.DeleteFirewall(name)] else [])
    {
      var k := calls;
      calls := calls + 1;
      if fails(k) || FindFirewall(firewalls, name).None? {
        r := Err(ApiError(k));
      } else {
        r := Ok(Operation(k));
        firewalls := RemoveFirewall(firewalls, name);
        requests := requests + [Request.DeleteFirewall(name)];
      }
    }

    /** `Networks.List`: the names of the project's networks. */
    method ListNetworks() returns (r: Result<set<string>>)
      modifies this`calls
      ensures calls == old(calls) + 1
      ensures r == if fails(old(calls)) then Err(ApiError(old(calls))) else Ok(networks)
    {
      var k := calls;
      calls := calls + 1;
      if fails(k) {
        r := Err(ApiError(k));
      } else {
        r := Ok(networks);
      }
    }

    /** `Networks.Insert`; refused when the network exists. */
    method InsertNetwork(name: string, ipv4Range: string) returns (r: Result<Operation>)
      modifies this`calls, this`requests, this`networks
      ensures calls == old(calls) + 1
      ensures r == if fails(old(calls)) || name in old(networks)
                   then Err(ApiError(old(calls))) else Ok(Operation(old(calls)))
      ensures networks == old(networks) + (if r.Ok? then {name} else {})
      ensures requests == old(requests) + (if r.Ok? then [Request.InsertNetwork(name, ipv4Range)] else [])
    {
      var k := calls;
      calls := calls + 1;
      if fails(k) || name in networks {
        r := Err(ApiError(k));
      } else {
        r := Ok(Operation(k));
        networks := networks + {name};
        requests := requests + [Request.InsertNetwork(name, ipv4Range)];
      }
    }
  }
}
