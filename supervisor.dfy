/**
 * The minion's container supervisor as its tests pin it down: for every
 * snapshot of the local Minion row and the Etcd row, which system
 * containers run with which arguments, which one-off command is executed
 * inside which container, and how one reconcile pass (`runSystemOnce`)
 * moves a host's containers there.
 *
 * The supervisor's own source is not part of this model; its behaviour is
 * the one the tests require. The image-name constants it declares are not
 * part of this model either, so images are a datatype and `validateImage`
 * is given the names as a parameter.
 */
module Supervisor {
  import opened GoText
  import opened Seqs

  /** The six system images. */
  datatype Image = Etcd | Swarm | Ovnnorthd | Ovncontroller | Ovsvswitchd | Ovsdb

  /** Every image once, in the order a reconcile pass visits them. */
  const Images: seq<Image> := [Etcd, Swarm, Ovnnorthd, Ovncontroller, Ovsvswitchd, Ovsdb]

  // ---------------------------------------------------------------------
  // validateImage

  datatype Checked = Valid(image: Image) | BadImage

  /** `validateImage`: the image a name stands for; any other name panics ("Bad Image"). */
  function ValidateImage(name: Image -> string, image: string): (r: Checked)
    ensures r.Valid? ==> name(r.image) == image
    ensures r.BadImage? ==> image !in AcceptedNames(name)
  {
    if image == name(Etcd) then Valid(Etcd)
    else if image == name(Swarm) then Valid(Swarm)
    else if image == name(Ovnnorthd) then Valid(Ovnnorthd)
    else if image == name(Ovncontroller) then Valid(Ovncontroller)
    else if image == name(Ovsvswitchd) then Valid(Ovsvswitchd)
    else if image == name(Ovsdb) then Valid(Ovsdb)
    else BadImage
  }

  /** Distinct images have distinct names. */
  predicate Distinct(name: Image -> string)
  {
    forall a: Image, b: Image :: a != b ==> name(a) != name(b)
  }

  /** With distinct names, every image's own name is accepted as that image. */
  lemma ValidateImageRoundTrip(name: Image -> string, img: Image)
    requires Distinct(name)
    ensures ValidateImage(name, name(img)) == Valid(img)
  {
    match img
    case Etcd =>
    case Swarm => assert name(Etcd) != name(Swarm);
    case Ovnnorthd => assert name(Etcd) != name(Ovnnorthd) && name(Swarm) != name(Ovnnorthd);
    case Ovncontroller =>
      assert name(Etcd) != name(Ovncontroller) && name(Swarm) != name(Ovncontroller);
      assert name(Ovnnorthd) != name(Ovncontroller);
    case Ovsvswitchd =>
      assert name(Etcd) != name(Ovsvswitchd) && name(Swarm) != name(Ovsvswitchd);
      assert name(Ovnnorthd) != name(Ovsvswitchd) && name(Ovncontroller) != name(Ovsvswitchd);
    case Ovsdb =>
      assert name(Etcd) != name(Ovsdb) && name(Swarm) != name(Ovsdb) && name(Ovnnorthd) != name(Ovsdb);
      assert name(Ovncontroller) != name(Ovsdb) && name(Ovsvswitchd) != name(Ovsdb);
  }

  /** The accepted names are exactly the six image names, and there are six of them. */
  lemma ValidateImageAcceptsSix(name: Image -> string)
    requires Distinct(name)
    ensures forall image :: ValidateImage(name, image).Valid? <==> image in AcceptedNames(name)
    ensures |AcceptedNames(name)| == 6
  {
    var names := AcceptedNames(name);
    forall image | image in names
      ensures ValidateImage(name, image).Valid?
    {
      var img: Image :| img in Images && name(img) == image;
      ValidateImageRoundTrip(name, img);
    }
    var s0: set<string> := {};
    var s1 := s0 + {name(Etcd)};
    var s2 := s1 + {name(Swarm)};
    assert name(Swarm) !in s1;
    var s3 := s2 + {name(Ovnnorthd)};
    assert name(Ovnnorthd) !in s2;
    var s4 := s3 + {name(Ovncontroller)};
    assert name(Ovncontroller) !in s3;
    var s5 := s4 + {name(Ovsvswitchd)};
    assert name(Ovsvswitchd) !in s4;
    var s6 := s5 + {name(Ovsdb)};
    assert name(Ovsdb) !in s5;
    assert names == s6;
  }

  /** The names `validateImage` lets through. */
  function AcceptedNames(name: Image -> string): set<string>
  {
    set img | img in Images :: name(img)
  }

  // ---------------------------------------------------------------------
  // Argument builders

  /** The value of the first argument that starts with `flag`, if any. */
  datatype Lookup = Given(value: string) | Absent

  function FlagValue(args: seq<string>, flag: string): Lookup
  {
    if args == [] then Absent
    else if flag <= args[0] then Given(args[0][|flag|..])
    else FlagValue(args[1..], flag)
  }

  /** The first argument starting with `flag` decides. */
  lemma {:induction false} FlagValueAt(args: seq<string>, flag: string, k: nat)
    requires k < |args| && flag <= args[k]
    requires forall j :: 0 <= j < k ==> !(flag <= args[j])
    ensures FlagValue(args, flag) == Given(args[k][|flag|..])
  {
    if k > 0 {
      assert !(flag <= args[0]);
      FlagValueAt(args[1..], flag, k - 1);
    }
  }

  /** No argument starts with `flag`. */
  lemma {:induction false} FlagValueAbsent(args: seq<string>, flag: string)
    requires forall j :: 0 <= j < |args| ==> !(flag <= args[j])
    ensures FlagValue(args, flag) == Absent
  {
    if args != [] {
      assert !(flag <= args[0]);
      FlagValueAbsent(args[1..], flag);
    }
  }

  /** Two strings that differ at position `k` are not prefix one of the other. */
  lemma DiffersAt(p: string, s: string, k: nat)
    requires k < |p| && k < |s| && p[k] != s[k]
    ensures !(p <= s)
  {
  }

  /** `swarmArgsMaster`: a replicated manager listening on the private IP. */
  function SwarmArgsMaster(ip: string): seq<string>
  {
    var addr := ip + ":2377";
    ["manage", "--replication", "--addr=" + addr, "--host=" + addr, "etcd://127.0.0.1:2379"]
  }

  /** `swarmArgsWorker`: a node joining with its private IP. */
  function SwarmArgsWorker(ip: string): seq<string>
  {
    ["join", "--addr=" + ip + ":2375", "etcd://127.0.0.1:2379"]
  }

  /**
   * `etcdArgsMaster`: a named cluster member on the private IP; `initialCluster`
   * stands for `initialClusterString`, which is not part of this model.
   */
  function EtcdArgsMaster(ip: string, etcdIPs: seq<string>, initialCluster: seq<string> -> string): seq<string>
  {
    [ "--name=master-" + ip,
      "--initial-cluster=" + initialCluster(etcdIPs),
      "--advertise-client-urls=http://" + ip + ":2379",
      "--listen-peer-urls=http://" + ip + ":2380",
      "--initial-advertise-peer-urls=http://" + ip + ":2380",
      "--listen-client-urls=http://0.0.0.0:2379",
      "--heartbeat-interval=500",
      "--initial-cluster-state=new",
      "--election-timeout=5000" ]
  }

  /** `etcdArgsWorker`: an unnamed proxy of the cluster. */
  function EtcdArgsWorker(etcdIPs: seq<string>, initialCluster: seq<string> -> string): seq<string>
  {
    [ "--initial-cluster=" + initialCluster(etcdIPs),
      "--heartbeat-interval=500",
      "--election-timeout=5000",
      "--proxy=on" ]
  }

  /** `ovsExecArgs`: point the local vswitch at the leader's OVN database. */
  function OvsExecArgs(ip: string, leader: string): seq<string>
  {
    [ "ovs-vsctl", "set", "Open_vSwitch", ".",
      "external_ids:ovn-remote=\"tcp:" + leader + ":6640\"",
      "external_ids:ovn-encap-ip=" + ip,
      "external_ids:ovn-encap-type=\"geneve\"",
      "external_ids:api_server=\"http://" + leader + ":9000\"",
      "external_ids:system-id=\"" + ip + "\"",
      "--", "add-br", "quilt-int",
      "--", "set", "bridge", "quilt-int", "fail_mode=secure" ]
  }

  /** What follows a literal prefix is the rest. */
  lemma AfterPrefix(p: string, s: string)
    ensures p <= p + s && (p + s)[|p|..] == s
  {
  }

  /** A swarm manager advertises and listens on the same address, the private IP's port 2377. */
  lemma SwarmMasterAddress(ip: string)
    ensures FlagValue(SwarmArgsMaster(ip), "--addr=") == Given(ip + ":2377")
    ensures FlagValue(SwarmArgsMaster(ip), "--host=") == Given(ip + ":2377")
  {
    var args := SwarmArgsMaster(ip);
    AfterPrefix("--addr=", ip + ":2377");
    AfterPrefix("--host=", ip + ":2377");
    DiffersAt("--addr=", args[0], 0);
    DiffersAt("--addr=", args[1], 2);
    FlagValueAt(args, "--addr=", 2);
    DiffersAt("--host=", args[0], 0);
    DiffersAt("--host=", args[1], 2);
    DiffersAt("--host=", args[2], 2);
    FlagValueAt(args, "--host=", 3);
  }

  /** A swarm worker joins with the private IP's port 2375 and has no `--host`. */
  lemma SwarmWorkerAddress(ip: string)
    ensures SwarmArgsWorker(ip)[0] == "join"
    ensures FlagValue(SwarmArgsWorker(ip), "--addr=") == Given(ip + ":2375")
    ensures FlagValue(SwarmArgsWorker(ip), "--host=") == Absent
  {
    var args := SwarmArgsWorker(ip);
    assert args[1] == "--addr=" + (ip + ":2375");
    AfterPrefix("--addr=", ip + ":2375");
    DiffersAt("--addr=", args[0], 0);
    FlagValueAt(args, "--addr=", 1);
    DiffersAt("--host=", args[0], 0);
    DiffersAt("--host=", args[1], 2);
    DiffersAt("--host=", args[2], 0);
    FlagValueAbsent(args, "--host=");
  }

  /** A master's etcd is named after its IP and seeded with the cluster string of the members. */
  lemma EtcdMasterFlags(ip: string, etcdIPs: seq<string>, initialCluster: seq<string> -> string)
    ensures FlagValue(EtcdArgsMaster(ip, etcdIPs, initialCluster), "--name=") == Given("master-" + ip)
    ensures FlagValue(EtcdArgsMaster(ip, etcdIPs, initialCluster), "--initial-cluster=") == Given(initialCluster(etcdIPs))
    ensures "--proxy=on" !in EtcdArgsMaster(ip, etcdIPs, initialCluster)
  {
    var args := EtcdArgsMaster(ip, etcdIPs, initialCluster);
    AfterPrefix("--name=", "master-" + ip);
    FlagValueAt(args, "--name=", 0);
    AfterPrefix("--initial-cluster=", initialCluster(etcdIPs));
    DiffersAt("--initial-cluster=", args[0], 2);
    FlagValueAt(args, "--initial-cluster=", 1);
    EtcdMasterNoProxy(ip, etcdIPs, initialCluster);
  }

  /** No word of a master's etcd command is the proxy flag: each differs from it at its third letter. */
  lemma EtcdMasterNoProxy(ip: string, etcdIPs: seq<string>, initialCluster: seq<string> -> string)
    ensures "--proxy=on" !in EtcdArgsMaster(ip, etcdIPs, initialCluster)
  {
    var args := EtcdArgsMaster(ip, etcdIPs, initialCluster);
    forall k | 0 <= k < |args|
      ensures args[k] != "--proxy=on"
    {
      if k < 6 {
        DiffersAt("--proxy=on", args[k], 2);
      } else {
        assert args[k][2] != "--proxy=on"[2];
      }
    }
  }

  /** A worker's etcd is an unnamed proxy seeded with the cluster string of the members. */
  lemma EtcdWorkerFlags(etcdIPs: seq<string>, initialCluster: seq<string> -> string)
    ensures "--proxy=on" in EtcdArgsWorker(etcdIPs, initialCluster)
    ensures FlagValue(EtcdArgsWorker(etcdIPs, initialCluster), "--name=") == Absent
    ensures FlagValue(EtcdArgsWorker(etcdIPs, initialCluster), "--initial-cluster=") == Given(initialCluster(etcdIPs))
  {
    var args := EtcdArgsWorker(etcdIPs, initialCluster);
    AfterPrefix("--initial-cluster=", initialCluster(etcdIPs));
    FlagValueAt(args, "--initial-cluster=", 0);
    assert args[3] == "--proxy=on";
    DiffersAt("--name=", args[0], 2);
    DiffersAt("--name=", args[1], 2);
    DiffersAt("--name=", args[2], 2);
    DiffersAt("--name=", args[3], 2);
    FlagValueAbsent(args, "--name=");
  }

  /** A master's etcd arguments change exactly when the cluster string of the members does. */
  lemma EtcdMasterMembership(ip: string, a: seq<string>, b: seq<string>, initialCluster: seq<string> -> string)
    ensures EtcdArgsMaster(ip, a, initialCluster) == EtcdArgsMaster(ip, b, initialCluster) <==> initialCluster(a) == initialCluster(b)
  {
    if EtcdArgsMaster(ip, a, initialCluster) == EtcdArgsMaster(ip, b, initialCluster) {
      EtcdMasterFlags(ip, a, initialCluster);
      EtcdMasterFlags(ip, b, initialCluster);
    }
  }

  /** A worker's etcd arguments change exactly when the cluster string of the members does. */
  lemma EtcdWorkerMembership(a: seq<string>, b: seq<string>, initialCluster: seq<string> -> string)
    ensures EtcdArgsWorker(a, initialCluster) == EtcdArgsWorker(b, initialCluster) <==> initialCluster(a) == initialCluster(b)
  {
    if EtcdArgsWorker(a, initialCluster) == EtcdArgsWorker(b, initialCluster) {
      EtcdWorkerFlags(a, initialCluster);
      EtcdWorkerFlags(b, initialCluster);
    }
  }

  /** The vswitch command carries the local IP as encapsulation address and the leader as OVN remote. */
  lemma OvsExecFlags(ip: string, leader: string)
    ensures FlagValue(OvsExecArgs(ip, leader), "external_ids:ovn-encap-ip=") == Given(ip)
    ensures FlagValue(OvsExecArgs(ip, leader), "external_ids:ovn-remote=") == Given("\"tcp:" + leader + ":6640\"")
  {
    var args := OvsExecArgs(ip, leader);
    var remote := "\"tcp:" + leader + ":6640\"";
    assert args[4] == "external_ids:ovn-remote=" + remote;
    AfterPrefix("external_ids:ovn-remote=", remote);
    AfterPrefix("external_ids:ovn-encap-ip=", ip);
    var p := "external_ids:ovn-encap-ip=";
    var q := "external_ids:ovn-remote=";
    DiffersAt(p, args[0], 0);
    DiffersAt(p, args[1], 0);
    DiffersAt(p, args[2], 0);
    DiffersAt(p, args[3], 0);
    DiffersAt(p, args[4], 17);
    FlagValueAt(args, p, 5);
    DiffersAt(q, args[0], 0);
    DiffersAt(q, args[1], 0);
    DiffersAt(q, args[2], 0);
    DiffersAt(q, args[3], 0);
    FlagValueAt(args, q, 4);
  }

  /** Distinct (ip, leader) pairs give distinct vswitch commands. */
  lemma OvsExecInjective(ip: string, leader: string, ip2: string, leader2: string)
    requires OvsExecArgs(ip, leader) == OvsExecArgs(ip2, leader2)
    ensures ip == ip2 && leader == leader2
  {
    OvsExecFlags(ip, leader);
    OvsExecFlags(ip2, leader2);
    var a := "\"tcp:" + leader + ":6640\"";
    var b := "\"tcp:" + leader2 + ":6640\"";
    assert a == b;
    assert |leader| == |leader2|;
    assert leader == a[5..|leader| + 5];
    assert leader2 == b[5..|leader2| + 5];
  }

  /** The vswitch command's words hold no space when the two addresses hold none. */
  lemma OvsExecWords(ip: string, leader: string)
    requires ' ' !in ip && ' ' !in leader
    ensures forall k :: 0 <= k < |OvsExecArgs(ip, leader)| ==> ' ' !in OvsExecArgs(ip, leader)[k]
  {
    var args := OvsExecArgs(ip, leader);
    LeaderWords(leader);
    IpWords(ip);
    forall k | 0 <= k < |args| && k !in {4, 5, 7, 8}
      ensures ' ' !in args[k]
    {
    }
  }

  /** The two vswitch words built around the leader's address. */
  lemma LeaderWords(leader: string)
    requires ' ' !in leader
    ensures ' ' !in "external_ids:ovn-remote=\"tcp:" + leader + ":6640\""
    ensures ' ' !in "external_ids:api_server=\"http://" + leader + ":9000\""
  {
    NoSpaceJoin("external_ids:ovn-remote=\"tcp:", leader);
    NoSpaceJoin("external_ids:ovn-remote=\"tcp:" + leader, ":6640\"");
    NoSpaceJoin("external_ids:api_server=\"http://", leader);
    NoSpaceJoin("external_ids:api_server=\"http://" + leader, ":9000\"");
  }

  /** The two vswitch words built around the minion's own address. */
  lemma IpWords(ip: string)
    requires ' ' !in ip
    ensures ' ' !in "external_ids:ovn-encap-ip=" + ip
    ensures ' ' !in "external_ids:system-id=\"" + ip + "\""
  {
    NoSpaceJoin("external_ids:ovn-encap-ip=", ip);
    NoSpaceJoin("external_ids:system-id=\"", ip);
    NoSpaceJoin("external_ids:system-id=\"" + ip, "\"");
  }

  lemma NoSpaceJoin(a: string, b: string)
    requires ' ' !in a && ' ' !in b
    ensures ' ' !in a + b
  {
  }

  // ---------------------------------------------------------------------
  // What a snapshot asks for

  /** `db.Role`. */
  datatype Role = None | Worker | Master

  /** What the supervisor reads: the local Minion row's role and IP, the Etcd row's fields. */
  datatype Snapshot = Snapshot(role: Role, leader: bool, leaderIP: string, privateIP: string, etcdIPs: seq<string>)

  /** The containers the supervisor keeps running for a snapshot, image to arguments. */
  function Desired(s: Snapshot, initialCluster: seq<string> -> string): map<Image, seq<string>>
  {
    match s.role
    case None => map[]
    case Master =>
      var base := map[Etcd := EtcdArgsMaster(s.privateIP, s.etcdIPs, initialCluster),
                      Ovsdb := ["ovsdb-server"],
                      Swarm := SwarmArgsMaster(s.privateIP)];
      if s.leader then base[Ovnnorthd := ["ovn-northd"]] else base
    case Worker =>
      var base := map[Etcd := EtcdArgsWorker(s.etcdIPs, initialCluster),
                      Ovsdb := ["ovsdb-server"],
                      Ovsvswitchd := ["ovs-vswitchd"]];
      if s.leaderIP != "" then base[Ovncontroller := ["ovn-controller"]][Swarm := SwarmArgsWorker(s.privateIP)]
      else base
  }

  /** The one-off commands the supervisor wants executed, container to command. */
  function DesiredExec(s: Snapshot): map<Image, seq<string>>
  {
    if s.role == Worker && s.leaderIP != "" then map[Ovsvswitchd := OvsExecArgs(s.privateIP, s.leaderIP)]
    else map[]
  }

  /** A command is only ever wanted in a container that is wanted too. */
  lemma ExecTargetsDesired(s: Snapshot, initialCluster: seq<string> -> string)
    ensures forall img :: img in DesiredExec(s) ==> img in Desired(s, initialCluster)
  {
  }

  // ---------------------------------------------------------------------
  // One reconcile pass, as values

  /** A call the supervisor makes on the container runtime. */
  datatype Call = Run(image: Image, args: seq<string>) | Remove(image: Image) | Exec(image: Image, cmd: seq<string>)

  /** `strings.Join(cmd, " ")`: how the runtime records an executed command. */
  function CommandLine(cmd: seq<string>): string
  {
    if cmd == [] then "" else Join(cmd, ' ')
  }

  /** The command lines executed in the current container of `img`. */
  function Executed(executions: map<Image, seq<string>>, img: Image): seq<string>
  {
    if img in executions then executions[img] else []
  }

  /** The container of `img` is left alone: it runs and is wanted with the same arguments. */
  predicate Survives(img: Image, running: map<Image, seq<string>>, want: map<Image, seq<string>>)
  {
    img in running && img in want && running[img] == want[img]
  }

  /** The calls a pass makes for one image: stop a container not wanted as it runs, start one wanted and not running. */
  function ImageCalls(img: Image, running: map<Image, seq<string>>, want: map<Image, seq<string>>): seq<Call>
  {
    (if img in running && !Survives(img, running, want) then [Remove(img)] else [])
    + (if img in want && !Survives(img, running, want) then [Run(img, want[img])] else [])
  }

  /** The container calls of a pass, image by image. */
  function ContainerCalls(running: map<Image, seq<string>>, want: map<Image, seq<string>>): seq<Call>
  {
    ConcatMap(Images, (img: Image) => ImageCalls(img, running, want))
  }

  /** Whether a pass executes the wanted command in the container of `img`. */
  predicate NeedsExec(img: Image, executions: map<Image, seq<string>>, cmds: map<Image, seq<string>>)
  {
    img in cmds && CommandLine(cmds[img]) !in Executed(executions, img)
  }

  /** The exec call a pass makes for one image. */
  function ExecStep(img: Image, executions: map<Image, seq<string>>, cmds: map<Image, seq<string>>): seq<Call>
  {
    if NeedsExec(img, executions, cmds) then [Exec(img, cmds[img])] else []
  }

  /** The exec calls of a pass, image by image: every wanted command not yet executed in its container. */
  function ExecCalls(executions: map<Image, seq<string>>, cmds: map<Image, seq<string>>): seq<Call>
  {
    ConcatMap(Images, (img: Image) => ExecStep(img, executions, cmds))
  }

  /** The execution records that outlive the container calls: those of surviving containers. */
  function KeptRecords(executions: map<Image, seq<string>>, running: map<Image, seq<string>>,
                       want: map<Image, seq<string>>): map<Image, seq<string>>
  {
    map img | img in executions && Survives(img, running, want) :: executions[img]
  }

  /** The execution records after the exec calls. */
  function ExecRecords(executions: map<Image, seq<string>>, cmds: map<Image, seq<string>>): map<Image, seq<string>>
  {
    map img | img in executions || img in cmds ::
      if NeedsExec(img, executions, cmds) then Executed(executions, img) + [CommandLine(cmds[img])]
      else executions[img]
  }

  /** `fakeDocker.GetExec`: each container's first executed command line, split at spaces. */
  function ExecView(running: map<Image, seq<string>>, executions: map<Image, seq<string>>): map<Image, seq<string>>
  {
    map img | img in running && img in executions && |executions[img]| > 0 :: Split(executions[img][0], ' ')
  }

  // ---------------------------------------------------------------------
  // Lemmas about a pass

  /** A pass visits the six images in order. */
  lemma ConcatMapImages<U>(f: Image -> seq<U>)
    ensures ConcatMap(Images, f) == f(Etcd) + f(Swarm) + f(Ovnnorthd) + f(Ovncontroller) + f(Ovsvswitchd) + f(Ovsdb)
  {
    var s := Images;
    ConcatMapSnoc([], Etcd, f);
    ConcatMapSnoc([Etcd], Swarm, f);
    ConcatMapSnoc([Etcd, Swarm], Ovnnorthd, f);
    ConcatMapSnoc([Etcd, Swarm, Ovnnorthd], Ovncontroller, f);
    ConcatMapSnoc([Etcd, Swarm, Ovnnorthd, Ovncontroller], Ovsvswitchd, f);
    ConcatMapSnoc([Etcd, Swarm, Ovnnorthd, Ovncontroller, Ovsvswitchd], Ovsdb, f);
    assert [] + [Etcd] == [Etcd];
    assert [Etcd] + [Swarm] == [Etcd, Swarm];
    assert [Etcd, Swarm] + [Ovnnorthd] == [Etcd, Swarm, Ovnnorthd];
    assert [Etcd, Swarm, Ovnnorthd] + [Ovncontroller] == [Etcd, Swarm, Ovnnorthd, Ovncontroller];
    assert [Etcd, Swarm, Ovnnorthd, Ovncontroller] + [Ovsvswitchd] == [Etcd, Swarm, Ovnnorthd, Ovncontroller, Ovsvswitchd];
    assert [Etcd, Swarm, Ovnnorthd, Ovncontroller, Ovsvswitchd] + [Ovsdb] == s;
  }

  /** A container call concerns an image whose container is not left alone. */
  lemma ContainerCallsTouchChanged(running: map<Image, seq<string>>, want: map<Image, seq<string>>, c: Call)
    requires c in ContainerCalls(running, want)
    ensures !Survives(c.image, running, want)
    ensures c.Remove? ==> c.image in running
    ensures c.Run? ==> c.image in want && c.args == want[c.image]
    ensures !c.Exec?
  {
    ConcatMapMember(Images, (img: Image) => ImageCalls(img, running, want), c);
  }

  /** When every running container is wanted as it runs and every command is recorded, a pass calls nothing. */
  lemma QuietWhenSettled(running: map<Image, seq<string>>, executions: map<Image, seq<string>>,
                         want: map<Image, seq<string>>, cmds: map<Image, seq<string>>)
    requires running == want
    requires forall img :: img in cmds ==> CommandLine(cmds[img]) in Executed(executions, img)
    ensures ContainerCalls(running, want) == []
    ensures ExecCalls(executions, cmds) == []
  {
    ConcatMapImages((img: Image) => ImageCalls(img, running, want));
    ConcatMapImages((img: Image) => ExecStep(img, executions, cmds));
  }

  /**
   * A second pass on the same snapshot calls nothing and changes nothing: it
   * starts from the containers and records the first pass left, in which
   * every wanted container runs as wanted and every wanted command is recorded.
   */
  lemma SecondPassQuiet(s: Snapshot, initialCluster: seq<string> -> string,
                        running: map<Image, seq<string>>, executions: map<Image, seq<string>>)
    ensures var want := Desired(s, initialCluster);
      var cmds := DesiredExec(s);
      var after := ExecRecords(KeptRecords(executions, running, want), cmds);
      && ContainerCalls(want, want) == []
      && KeptRecords(after, want, want) == after
      && ExecCalls(KeptRecords(after, want, want), cmds) == []
      && ExecRecords(KeptRecords(after, want, want), cmds) == after
  {
    var want := Desired(s, initialCluster);
    var cmds := DesiredExec(s);
    var after := ExecRecords(KeptRecords(executions, running, want), cmds);
    ExecTargetsDesired(s, initialCluster);
    forall img | img in cmds
      ensures CommandLine(cmds[img]) in Executed(after, img)
    {
      ExecRecordsSpec(KeptRecords(executions, running, want), cmds, img);
    }
    KeptAllWanted(after, want);
    QuietWhenSettled(want, after, want, cmds);
    ExecRecordsSettled(after, cmds);
  }

  /** When only wanted containers have records and all run as wanted, all records are kept. */
  lemma KeptAllWanted(executions: map<Image, seq<string>>, want: map<Image, seq<string>>)
    requires executions.Keys <= want.Keys
    ensures KeptRecords(executions, want, want) == executions
  {
  }

  /** When every wanted command is recorded, the exec calls add no record. */
  lemma ExecRecordsSettled(executions: map<Image, seq<string>>, cmds: map<Image, seq<string>>)
    requires forall img :: img in cmds ==> CommandLine(cmds[img]) in Executed(executions, img)
    ensures ExecRecords(executions, cmds) == executions
  {
    assert forall img :: img in cmds ==> img in executions;
  }

  /** The records the runtime shows after a pass: the commands run in surviving or wanted containers. */
  lemma ExecRecordsSpec(executions: map<Image, seq<string>>, cmds: map<Image, seq<string>>, img: Image)
    ensures img in cmds ==> CommandLine(cmds[img]) in Executed(ExecRecords(executions, cmds), img)
    ensures img !in cmds ==> Executed(ExecRecords(executions, cmds), img) == Executed(executions, img)
    ensures Executed(executions, img) <= Executed(ExecRecords(executions, cmds), img)
  {
  }

  // ---------------------------------------------------------------------
  // The scenarios of the tests, for every snapshot of their shape

  /** A minion with no role runs nothing and executes nothing, whatever the Etcd row says. */
  lemma NoRoleRunsNothing(s: Snapshot, initialCluster: seq<string> -> string, executions: map<Image, seq<string>>)
    requires s.role == None
    ensures Desired(s, initialCluster) == map[] && DesiredExec(s) == map[]
    ensures ContainerCalls(map[], Desired(s, initialCluster)) == []
    ensures ExecCalls(executions, DesiredExec(s)) == []
  {
    QuietWhenSettled(map[], executions, map[], map[]);
  }

  /** A master that is not the leader runs etcd as a member, the OVS database and a swarm manager, and executes nothing. */
  lemma MasterRuns(s: Snapshot, initialCluster: seq<string> -> string)
    requires s.role == Master && !s.leader
    ensures Desired(s, initialCluster).Keys == {Etcd, Ovsdb, Swarm}
    ensures Desired(s, initialCluster)[Etcd] == EtcdArgsMaster(s.privateIP, s.etcdIPs, initialCluster)
    ensures Desired(s, initialCluster)[Ovsdb] == ["ovsdb-server"]
    ensures Desired(s, initialCluster)[Swarm] == SwarmArgsMaster(s.privateIP)
    ensures DesiredExec(s) == map[]
  {
  }

  /** Winning leadership starts only the OVN north daemon; losing it stops only that. */
  lemma LeadershipTogglesNorthd(s: Snapshot, initialCluster: seq<string> -> string)
    requires s.role == Master
    ensures var follower := Desired(s.(leader := false), initialCluster);
      var leader := Desired(s.(leader := true), initialCluster);
      && ContainerCalls(follower, leader) == [Run(Ovnnorthd, ["ovn-northd"])]
      && ContainerCalls(leader, follower) == [Remove(Ovnnorthd)]
  {
    var follower := Desired(s.(leader := false), initialCluster);
    var leader := Desired(s.(leader := true), initialCluster);
    ConcatMapImages((img: Image) => ImageCalls(img, follower, leader));
    ConcatMapImages((img: Image) => ImageCalls(img, leader, follower));
  }

  /** A worker that does not know the leader runs etcd as a proxy, the OVS database and the vswitch, and executes nothing. */
  lemma WorkerRuns(s: Snapshot, initialCluster: seq<string> -> string)
    requires s.role == Worker && s.leaderIP == ""
    ensures Desired(s, initialCluster).Keys == {Etcd, Ovsdb, Ovsvswitchd}
    ensures Desired(s, initialCluster)[Etcd] == EtcdArgsWorker(s.etcdIPs, initialCluster)
    ensures Desired(s, initialCluster)[Ovsdb] == ["ovsdb-server"]
    ensures Desired(s, initialCluster)[Ovsvswitchd] == ["ovs-vswitchd"]
    ensures DesiredExec(s) == map[]
  {
  }

  /** Learning the leader's IP starts the swarm worker and the OVN controller, and nothing else. */
  lemma WorkerLearnsLeader(s: Snapshot, initialCluster: seq<string> -> string)
    requires s.role == Worker && s.leaderIP != ""
    ensures ContainerCalls(Desired(s.(leaderIP := ""), initialCluster), Desired(s, initialCluster))
      == [Run(Swarm, SwarmArgsWorker(s.privateIP)), Run(Ovncontroller, ["ovn-controller"])]
  {
    var before := Desired(s.(leaderIP := ""), initialCluster);
    var after := Desired(s, initialCluster);
    ConcatMapImages((img: Image) => ImageCalls(img, before, after));
  }

  /** A worker that knows the leader executes exactly one command, in a vswitch that has not run it. */
  lemma WorkerExecsOnce(s: Snapshot, executions: map<Image, seq<string>>)
    requires s.role == Worker && s.leaderIP != ""
    requires Executed(executions, Ovsvswitchd) == []
    ensures ExecCalls(executions, DesiredExec(s)) == [Exec(Ovsvswitchd, OvsExecArgs(s.privateIP, s.leaderIP))]
  {
    var cmds := DesiredExec(s);
    ConcatMapImages((img: Image) => ExecStep(img, executions, cmds));
  }

  /** The runtime then shows that command word for word, when the two addresses hold no space. */
  lemma WorkerExecShown(s: Snapshot, running: map<Image, seq<string>>)
    requires s.role == Worker && s.leaderIP != ""
    requires Ovsvswitchd in running
    requires ' ' !in s.privateIP && ' ' !in s.leaderIP
    ensures ExecView(running, ExecRecords(map[], DesiredExec(s))) == map[Ovsvswitchd := OvsExecArgs(s.privateIP, s.leaderIP)]
  {
    var cmd := OvsExecArgs(s.privateIP, s.leaderIP);
    OvsExecWords(s.privateIP, s.leaderIP);
    SplitJoin(cmd, ' ');
    var records := ExecRecords(map[], DesiredExec(s));
    assert records.Keys == {Ovsvswitchd};
    assert records[Ovsvswitchd] == [CommandLine(cmd)];
    assert Split(CommandLine(cmd), ' ') == cmd;
    assert ExecView(running, records).Keys == {Ovsvswitchd};
  }

  /**
   * Turning a worker into a master stops the vswitch and the OVN controller and
   * executes nothing; when the vswitch was the only container with records, the
   * runtime then shows no command.
   */
  lemma WorkerBecomesMaster(s: Snapshot, initialCluster: seq<string> -> string, executions: map<Image, seq<string>>)
    requires s.role == Worker && s.leaderIP != ""
    requires executions.Keys <= {Ovsvswitchd}
    ensures var before := Desired(s, initialCluster);
      var after := Desired(s.(role := Master), initialCluster);
      && Ovsvswitchd in before && Ovsvswitchd !in after && Ovncontroller in before && Ovncontroller !in after
      && ExecCalls(KeptRecords(executions, before, after), DesiredExec(s.(role := Master))) == []
      && ExecView(after, ExecRecords(KeptRecords(executions, before, after), DesiredExec(s.(role := Master)))) == map[]
  {
    var before := Desired(s, initialCluster);
    var after := Desired(s.(role := Master), initialCluster);
    var kept := KeptRecords(executions, before, after);
    assert kept == map[];
    QuietWhenSettled(after, kept, after, map[]);
  }

  /** Turning a master back into a worker starts a fresh vswitch, so the command is executed again. */
  lemma MasterBecomesWorker(s: Snapshot, initialCluster: seq<string> -> string, executions: map<Image, seq<string>>)
    requires s.role == Master && s.leaderIP != ""
    requires executions.Keys <= Desired(s, initialCluster).Keys
    ensures var before := Desired(s, initialCluster);
      var after := Desired(s.(role := Worker), initialCluster);
      ExecCalls(KeptRecords(executions, before, after), DesiredExec(s.(role := Worker)))
        == [Exec(Ovsvswitchd, OvsExecArgs(s.privateIP, s.leaderIP))]
  {
    var before := Desired(s, initialCluster);
    var after := Desired(s.(role := Worker), initialCluster);
    var kept := KeptRecords(executions, before, after);
    var cmds := DesiredExec(s.(role := Worker));
    assert Ovsvswitchd !in before;
    assert Ovsvswitchd !in kept;
    assert cmds == map[Ovsvswitchd := OvsExecArgs(s.privateIP, s.leaderIP)];
    ExecFreshVswitchd(kept, OvsExecArgs(s.privateIP, s.leaderIP));
  }

  /** A vswitch container with no records executes its one wanted command, and nothing else runs. */
  lemma ExecFreshVswitchd(executions: map<Image, seq<string>>, cmd: seq<string>)
    requires Ovsvswitchd !in executions
    ensures ExecCalls(executions, map[Ovsvswitchd := cmd]) == [Exec(Ovsvswitchd, cmd)]
  {
    var cmds := map[Ovsvswitchd := cmd];
    var f := (img: Image) => ExecStep(img, executions, cmds);
    assert f(Ovsvswitchd) == [Exec(Ovsvswitchd, cmd)];
    assert f(Etcd) == f(Swarm) == f(Ovnnorthd) == f(Ovncontroller) == f(Ovsdb) == [];
    ConcatMapImages(f);
  }

  /** A change of etcd membership restarts only the etcd container, and only when its cluster string changes. */
  lemma MembershipTouchesOnlyEtcd(s: Snapshot, etcdIPs: seq<string>, initialCluster: seq<string> -> string)
    requires s.role != None
    ensures var before := Desired(s, initialCluster);
      var after := Desired(s.(etcdIPs := etcdIPs), initialCluster);
      && (forall c :: c in ContainerCalls(before, after) ==> c.image == Etcd)
      && (ContainerCalls(before, after) == [] <==> initialCluster(s.etcdIPs) == initialCluster(etcdIPs))
      && DesiredExec(s.(etcdIPs := etcdIPs)) == DesiredExec(s)
  {
    MembershipCallsOnEtcd(s, etcdIPs, initialCluster);
    MembershipQuietIff(s, etcdIPs, initialCluster);
  }

  /** Every container call a membership change causes is about the etcd container. */
  lemma MembershipCallsOnEtcd(s: Snapshot, etcdIPs: seq<string>, initialCluster: seq<string> -> string)
    requires s.role != None
    ensures var before := Desired(s, initialCluster);
      var after := Desired(s.(etcdIPs := etcdIPs), initialCluster);
      forall c :: c in ContainerCalls(before, after) ==> c.image == Etcd
  {
    var before := Desired(s, initialCluster);
    var after := Desired(s.(etcdIPs := etcdIPs), initialCluster);
    MembershipKeepsOthers(s, etcdIPs, initialCluster);
    forall c | c in ContainerCalls(before, after)
      ensures c.image == Etcd
    {
      ContainerCallsTouchChanged(before, after, c);
    }
  }

  /** A membership change makes no container call exactly when the initial-cluster string is unchanged. */
  lemma MembershipQuietIff(s: Snapshot, etcdIPs: seq<string>, initialCluster: seq<string> -> string)
    requires s.role != None
    ensures var before := Desired(s, initialCluster);
      var after := Desired(s.(etcdIPs := etcdIPs), initialCluster);
      ContainerCalls(before, after) == [] <==> initialCluster(s.etcdIPs) == initialCluster(etcdIPs)
  {
    var before := Desired(s, initialCluster);
    var after := Desired(s.(etcdIPs := etcdIPs), initialCluster);
    if s.role == Master {
      EtcdMasterMembership(s.privateIP, s.etcdIPs, etcdIPs, initialCluster);
    } else {
      EtcdWorkerMembership(s.etcdIPs, etcdIPs, initialCluster);
    }
    if initialCluster(s.etcdIPs) == initialCluster(etcdIPs) {
      assert before == after;
      QuietWhenSettled(before, map[], after, map[]);
    } else {
      assert !Survives(Etcd, before, after);
      assert Remove(Etcd) in ImageCalls(Etcd, before, after);
      assert Etcd in Images;
      ConcatMapMember(Images, (img: Image) => ImageCalls(img, before, after), Remove(Etcd));
    }
  }

  /** Every container but etcd is wanted as before when only the etcd membership changes. */
  lemma MembershipKeepsOthers(s: Snapshot, etcdIPs: seq<string>, initialCluster: seq<string> -> string)
    requires s.role != None
    ensures var before := Desired(s, initialCluster);
      var after := Desired(s.(etcdIPs := etcdIPs), initialCluster);
      && before.Keys == after.Keys && Etcd in before
      && forall img :: img in before && img != Etcd ==> Survives(img, before, after)
  {
    var before := Desired(s, initialCluster);
    var after := Desired(s.(etcdIPs := etcdIPs), initialCluster);
    if s.role == Master {
      assert before.Keys == after.Keys == if s.leader then {Etcd, Ovsdb, Swarm, Ovnnorthd} else {Etcd, Ovsdb, Swarm};
    } else if s.leaderIP != "" {
      assert before.Keys == after.Keys == {Etcd, Ovsdb, Ovsvswitchd, Ovncontroller, Swarm};
    } else {
      assert before.Keys == after.Keys == {Etcd, Ovsdb, Ovsvswitchd};
    }
  }

  // ---------------------------------------------------------------------
  // The host

  /**
   * The container runtime of one minion as a reconcile pass sees it: the
   * running containers by image, the command lines executed in each, and
   * the log of the calls made on it.
   */
  class Host {
    var running: map<Image, seq<string>>
    var executions: map<Image, seq<string>>
    var log: seq<Call>

    /** Only running containers have executed anything. */
    ghost predicate Valid()
      reads this
    {
      executions.Keys <= running.Keys
    }

    constructor ()
      ensures Valid() && running == map[] && executions == map[] && log == []
    {
      running, executions, log := map[], map[], [];
    }

    /** `fakeDocker.running`: image to arguments of every running container. */
    function Running(): map<Image, seq<string>>
      reads this
    {
      running
    }

    /** Start a container of `img`; a new container has executed nothing. */
    method RunContainer(img: Image, args: seq<string>)
      requires Valid() && img !in running
      modifies this
      ensures Valid()
      ensures running == old(running)[img := args] && executions == old(executions)
      ensures log == old(log) + [Run(img, args)]
    {
      running := running[img := args];
      log := log + [Run(img, args)];
    }

    /** Stop the container of `img`; its records go with it. */
    method RemoveContainer(img: Image)
      requires Valid() && img in running
      modifies this
      ensures Valid()
      ensures running == old(running) - {img} && executions == old(executions) - {img}
      ensures log == old(log) + [Remove(img)]
    {
      running := running - {img};
      executions := executions - {img};
      log := log + [Remove(img)];
    }

    /** Execute `cmd` in the container of `img`; the runtime records it as one space-joined line. */
    method ExecIn(img: Image, cmd: seq<string>)
      requires Valid() && img in running
      modifies this
      ensures Valid()
      ensures running == old(running)
      ensures executions == old(executions)[img := Executed(old(executions), img) + [CommandLine(cmd)]]
      ensures log == old(log) + [Exec(img, cmd)]
    {
      executions := executions[img := Executed(executions, img) + [CommandLine(cmd)]];
      log := log + [Exec(img, cmd)];
    }

    /**
     * `runSystemOnce`: one reconcile pass for the snapshot `s`. Afterwards the
     * running containers are exactly the wanted ones; a container wanted with
     * the arguments it runs with is left alone (with its records), every other
     * one is stopped and, if wanted, started afresh; then every wanted command
     * not yet recorded in its container is executed.
     */
    method RunSystemOnce(s: Snapshot, initialCluster: seq<string> -> string)
      requires Valid()
      modifies this
      ensures Valid()
      ensures Running() == Desired(s, initialCluster)
      ensures executions == ExecRecords(KeptRecords(old(executions), old(running), Desired(s, initialCluster)), DesiredExec(s))
      ensures log == old(log) + ContainerCalls(old(running), Desired(s, initialCluster))
        + ExecCalls(KeptRecords(old(executions), old(running), Desired(s, initialCluster)), DesiredExec(s))
    {
      var want := Desired(s, initialCluster);
      var cmds := DesiredExec(s);
      ExecTargetsDesired(s, initialCluster);
      ReconcileContainers(want);
      ExecCommands(want, cmds);
    }

    /** The container half of a pass. */
    method ReconcileContainers(want: map<Image, seq<string>>)
      requires Valid()
      modifies this
      ensures Valid()
      ensures running == want
      ensures executions == KeptRecords(old(executions), old(running), want)
      ensures log == old(log) + ContainerCalls(old(running), want)
    {
      ghost var original, originalEx, originalLog := running, executions, log;
      PartialNone(original, want);
      KeptUpToNone(originalEx, original, want);
      for i := 0 to |Images|
        invariant Valid() && Visited(want, original, originalEx, originalLog, i)
      {
        ReconcileNext(want, original, originalEx, originalLog, i);
      }
      PartialAll(original, want);
      KeptUpToAll(originalEx, original, want);
      assert Images[..|Images|] == Images;
    }

    /** The container half part-way: the first `i` images visited, starting from the given state. */
    ghost predicate Visited(want: map<Image, seq<string>>, original: map<Image, seq<string>>,
                            originalEx: map<Image, seq<string>>, originalLog: seq<Call>, i: nat)
      reads this
      requires i <= |Images|
    {
      && running == Partial(original, want, i)
      && executions == KeptUpTo(originalEx, original, want, i)
      && log == originalLog + ConcatMap(Images[..i], (img: Image) => ImageCalls(img, original, want))
    }

    /** Step `i` of the container half: the images before `Images[i]` done, it is next. */
    method ReconcileNext(want: map<Image, seq<string>>, ghost original: map<Image, seq<string>>,
                         ghost originalEx: map<Image, seq<string>>, ghost originalLog: seq<Call>, i: nat)
      requires i < |Images| && Valid() && Visited(want, original, originalEx, originalLog, i)
      modifies this
      ensures Valid() && Visited(want, original, originalEx, originalLog, i + 1)
    {
      var img := Images[i];
      assert (img in running <==> img in original) && (img in running ==> running[img] == original[img]) by {
        PartialStep(original, want, i);
      }
      ReconcileImage(img, want, original);
      assert running == Partial(original, want, i + 1) by {
        PartialStep(original, want, i);
      }
      assert executions == KeptUpTo(originalEx, original, want, i + 1) by {
        KeptUpToStep(originalEx, original, want, i);
      }
      ghost var calls := (img: Image) => ImageCalls(img, original, want);
      assert log == originalLog + ConcatMap(Images[..i + 1], calls) by {
        ConcatMapPrefix(Images, i, calls);
      }
    }

    /** One image of the container half: stop its container unless it is wanted as it runs, then start the wanted one. */
    method ReconcileImage(img: Image, want: map<Image, seq<string>>, ghost original: map<Image, seq<string>>)
      requires Valid()
      requires img in running <==> img in original
      requires img in running ==> running[img] == original[img]
      modifies this
      ensures Valid()
      ensures running == if img in want then old(running)[img := want[img]] else old(running) - {img}
      ensures executions == if Survives(img, original, want) then old(executions) else old(executions) - {img}
      ensures log == old(log) + ImageCalls(img, original, want)
    {
      var keep := img in running && img in want && running[img] == want[img];
      if img in running && !keep {
        RemoveContainer(img);
      }
      if img in want && !keep {
        RunContainer(img, want[img]);
      }
      if keep {
        assert old(running)[img := want[img]] == old(running);
      }
    }

    /** The exec half of a pass: every wanted command not yet recorded in its running container. */
    method ExecCommands(want: map<Image, seq<string>>, cmds: map<Image, seq<string>>)
      requires Valid() && running == want
      requires forall img :: img in cmds ==> img in want
      modifies this
      ensures Valid() && running == want
      ensures executions == ExecRecords(old(executions), cmds)
      ensures log == old(log) + ExecCalls(old(executions), cmds)
    {
      ghost var originalEx, originalLog := executions, log;
      for i := 0 to |Images|
        invariant Valid() && running == want
        invariant executions == ExecUpTo(originalEx, cmds, i)
        invariant log == originalLog + ConcatMap(Images[..i], (img: Image) => ExecStep(img, originalEx, cmds))
      {
        ExecNext(want, cmds, originalEx, originalLog, i);
      }
      ExecUpToAll(originalEx, cmds);
      assert Images[..|Images|] == Images;
    }

    /** One image of the exec half: run its command unless the container already ran it. */
    method ExecNext(want: map<Image, seq<string>>, cmds: map<Image, seq<string>>,
                    ghost originalEx: map<Image, seq<string>>, ghost originalLog: seq<Call>, i: nat)
      requires i < |Images| && Valid() && running == want
      requires forall img :: img in cmds ==> img in want
      requires executions == ExecUpTo(originalEx, cmds, i)
      requires log == originalLog + ConcatMap(Images[..i], (img: Image) => ExecStep(img, originalEx, cmds))
      modifies this
      ensures Valid() && running == want
      ensures executions == ExecUpTo(originalEx, cmds, i + 1)
      ensures log == originalLog + ConcatMap(Images[..i + 1], (img: Image) => ExecStep(img, originalEx, cmds))
    {
      ConcatMapPrefix(Images, i, (img: Image) => ExecStep(img, originalEx, cmds));
      ExecUpToStep(originalEx, cmds, i);
      var img := Images[i];
      if img in cmds && CommandLine(cmds[img]) !in Executed(executions, img) {
        ExecIn(img, cmds[img]);
      }
    }
  }

  // ---------------------------------------------------------------------
  // A pass part-way: the first `i` images visited

  function Partial(running: map<Image, seq<string>>, want: map<Image, seq<string>>, i: nat): map<Image, seq<string>>
  {
    map img | (Index(img) < i && img in want) || (Index(img) >= i && img in running) ::
      if Index(img) < i then want[img] else running[img]
  }

  function KeptUpTo(executions: map<Image, seq<string>>, running: map<Image, seq<string>>,
                    want: map<Image, seq<string>>, i: nat): map<Image, seq<string>>
  {
    map img | img in executions && (Index(img) >= i || Survives(img, running, want)) :: executions[img]
  }

  function ExecUpTo(executions: map<Image, seq<string>>, cmds: map<Image, seq<string>>, i: nat): map<Image, seq<string>>
  {
    map img | img in executions || (Index(img) < i && img in cmds) ::
      if Index(img) < i && NeedsExec(img, executions, cmds) then Executed(executions, img) + [CommandLine(cmds[img])]
      else executions[img]
  }

  lemma PartialStep(running: map<Image, seq<string>>, want: map<Image, seq<string>>, i: nat)
    requires i < |Images|
    ensures var img := Images[i];
      var cur := Partial(running, want, i);
      && (img in cur <==> img in running) && (img in cur ==> cur[img] == running[img])
      && Partial(running, want, i + 1) ==
         if img in want then cur[img := want[img]] else cur - {img}
  {
    IndexOf(i);
    var img := Images[i];
    var cur := Partial(running, want, i);
    var next := if img in want then cur[img := want[img]] else cur - {img};
    var after := Partial(running, want, i + 1);
    forall x
      ensures x in after <==> x in next
      ensures x in after ==> after[x] == next[x]
    {
      if x != img {
        assert Index(x) != i;
      }
    }
    MapsEqual(after, next);
  }

  lemma KeptUpToStep(executions: map<Image, seq<string>>, running: map<Image, seq<string>>,
                     want: map<Image, seq<string>>, i: nat)
    requires i < |Images|
    ensures var img := Images[i];
      var cur := KeptUpTo(executions, running, want, i);
      KeptUpTo(executions, running, want, i + 1) ==
        if Survives(img, running, want) then cur else cur - {img}
  {
    IndexOf(i);
    var img := Images[i];
    var cur := KeptUpTo(executions, running, want, i);
    var next := if Survives(img, running, want) then cur else cur - {img};
    assert KeptUpTo(executions, running, want, i + 1).Keys == next.Keys;
  }

  lemma ExecUpToStep(executions: map<Image, seq<string>>, cmds: map<Image, seq<string>>, i: nat)
    requires i < |Images|
    ensures var img := Images[i];
      var cur := ExecUpTo(executions, cmds, i);
      && Executed(cur, img) == Executed(executions, img)
      && ExecUpTo(executions, cmds, i + 1) ==
         if img in cmds && CommandLine(cmds[img]) !in Executed(cur, img)
         then cur[img := Executed(cur, img) + [CommandLine(cmds[img])]] else cur
  {
    var img := Images[i];
    var cur := ExecUpTo(executions, cmds, i);
    var next := if img in cmds && CommandLine(cmds[img]) !in Executed(cur, img)
      then cur[img := Executed(cur, img) + [CommandLine(cmds[img])]] else cur;
    var after := ExecUpTo(executions, cmds, i + 1);
    forall x | x != img
      ensures x in after <==> x in next
      ensures x in after ==> after[x] == next[x]
    {
      ExecUpToOther(executions, cmds, i, x);
    }
    ExecUpToHere(executions, cmds, i);
    MapsEqual(after, next);
  }

  /** Visiting image `i` leaves the records of every other image as they were. */
  lemma ExecUpToOther(executions: map<Image, seq<string>>, cmds: map<Image, seq<string>>, i: nat, x: Image)
    requires i < |Images| && x != Images[i]
    ensures x in ExecUpTo(executions, cmds, i + 1) <==> x in ExecUpTo(executions, cmds, i)
    ensures x in ExecUpTo(executions, cmds, i) ==>
      ExecUpTo(executions, cmds, i + 1)[x] == ExecUpTo(executions, cmds, i)[x]
  {
    assert Index(x) != i;
  }

  /** Visiting image `i` appends its command to its records when it needs one. */
  lemma ExecUpToHere(executions: map<Image, seq<string>>, cmds: map<Image, seq<string>>, i: nat)
    requires i < |Images|
    ensures var img, cur, after := Images[i], ExecUpTo(executions, cmds, i), ExecUpTo(executions, cmds, i + 1);
      && Executed(cur, img) == Executed(executions, img)
      && (img in after <==> img in executions || img in cmds)
      && (img in after ==> after[img] == if NeedsExec(img, executions, cmds)
                                         then Executed(executions, img) + [CommandLine(cmds[img])]
                                         else executions[img])
  {
    IndexOf(i);
  }

  lemma PartialNone(running: map<Image, seq<string>>, want: map<Image, seq<string>>)
    ensures Partial(running, want, 0) == running
  {
    var a := Partial(running, want, 0);
    forall x
      ensures x in a <==> x in running
      ensures x in a ==> a[x] == running[x]
    {
    }
    MapsEqual(a, running);
  }

  lemma KeptUpToNone(executions: map<Image, seq<string>>, running: map<Image, seq<string>>, want: map<Image, seq<string>>)
    ensures KeptUpTo(executions, running, want, 0) == executions
  {
    var a := KeptUpTo(executions, running, want, 0);
    forall x
      ensures x in a <==> x in executions
      ensures x in a ==> a[x] == executions[x]
    {
    }
    MapsEqual(a, executions);
  }

  lemma PartialAll(running: map<Image, seq<string>>, want: map<Image, seq<string>>)
    ensures Partial(running, want, |Images|) == want
  {
    assert Partial(running, want, |Images|).Keys == want.Keys;
  }

  lemma KeptUpToAll(executions: map<Image, seq<string>>, running: map<Image, seq<string>>, want: map<Image, seq<string>>)
    ensures KeptUpTo(executions, running, want, |Images|) == KeptRecords(executions, running, want)
  {
    var a, b := KeptUpTo(executions, running, want, |Images|), KeptRecords(executions, running, want);
    forall x
      ensures x in a <==> x in b
      ensures x in a ==> a[x] == b[x]
    {
      assert Index(x) < |Images|;
    }
    MapsEqual(a, b);
  }

  lemma ExecUpToAll(executions: map<Image, seq<string>>, cmds: map<Image, seq<string>>)
    ensures ExecUpTo(executions, cmds, |Images|) == ExecRecords(executions, cmds)
  {
    var a, b := ExecUpTo(executions, cmds, |Images|), ExecRecords(executions, cmds);
    forall x
      ensures x in a <==> x in b
      ensures x in a ==> a[x] == b[x]
    {
      assert Index(x) < |Images|;
    }
    MapsEqual(a, b);
  }

  /** Where a pass visits `img`. */
  function Index(img: Image): (k: nat)
    ensures k < |Images| && Images[k] == img
  {
    match img
    case Etcd => 0
    case Swarm => 1
    case Ovnnorthd => 2
    case Ovncontroller => 3
    case Ovsvswitchd => 4
    case Ovsdb => 5
  }

  /** The image a pass visits `k`-th has index `k`. */
  lemma IndexOf(k: nat)
    requires k < |Images|
    ensures Index(Images[k]) == k
  {
  }

  /** Two maps with the same keys and the same values are equal. */
  lemma MapsEqual<K, V>(a: map<K, V>, b: map<K, V>)
    requires forall x :: x in a <==> x in b
    requires forall x :: x in a ==> a[x] == b[x]
    ensures a == b
  {
  }
}
