/** The machine lease of autobuild/machine.py: a machine is held or free;
    the local Proxmox machine also powers its virtual machine up on use and,
    when it powered it up itself, down on release. The outputs of the
    status commands and the answers of successive pings are oracles given
    to the methods; the commands issued are recorded in order. */
module Lease {
  import opened Text

  /** Machine (a plain lock) or MachineLocalProxmox. */
  datatype Kind = Plain | LocalProxmox

  /** The host and user every Proxmox command is run as. */
  const ProxmoxUser: string := "root"
  const ProxmoxHost: string := "127.0.0.1"

  /** The virtual machine id: the field after the last "." of the address. */
  function VmId(ip: string): string
  {
    Last(Split(ip, '.'))
  }

  /** A command run on the Proxmox host by system_remote. */
  function Remote(command: string): string
  {
    "ssh " + ProxmoxUser + "@" + ProxmoxHost + " " + command
  }

  /** One reachability probe of `ip`. */
  function PingCommand(ip: string): string
  {
    "ping -c 1 " + ip
  }

  /** `n` probes of `ip`. */
  function Pings(ip: string, n: nat): seq<string>
  {
    seq(n, _ => PingCommand(ip))
  }

  /** The status of the virtual machine says it is running. */
  predicate Running(status: string)
  {
    Contains(status, "running")
  }

  /** What use issues on the Proxmox host before polling: both status
      queries and, unless the machine runs already, both start commands. */
  function UseCommands(ip: string, status: string): seq<string>
  {
    var id := VmId(ip);
    [Remote("qm status " + id), Remote("pct status " + id)] +
    (if Running(status) then [] else [Remote("qm start " + id), Remote("pct start " + id)])
  }

  /** What release issues on the Proxmox host before polling: both
      shutdown commands when the lease powered the machine up, else nothing. */
  function ReleaseCommands(ip: string, toRelease: bool): seq<string>
  {
    var id := VmId(ip);
    if toRelease then [Remote("qm shutdown " + id), Remote("pct shutdown " + id)] else []
  }

  /** The `n`-th answer is the first that equals `want`. */
  predicate FirstAnswer(answers: seq<bool>, want: bool, n: nat)
  {
    1 <= n <= |answers| && answers[n - 1] == want && forall j :: 0 <= j < n - 1 ==> answers[j] != want
  }

  /** The number of probes until the first answer equal to `want` (all of
      them, when it never comes). */
  function PollCount(answers: seq<bool>, want: bool): (n: nat)
    ensures want in answers ==> FirstAnswer(answers, want, n)
    ensures want !in answers ==> n == |answers|
    decreases |answers|
  {
    if answers == [] then 0
    else if answers[0] == want then 1
    else 1 + PollCount(answers[1..], want)
  }

  /** Polling stops at one place only: the first wanted answer. */
  lemma FirstAnswerUnique(answers: seq<bool>, want: bool, n: nat, m: nat)
    requires FirstAnswer(answers, want, n) && FirstAnswer(answers, want, m)
    ensures n == m
  {
  }

  class Machine {
    const name: string
    const kind: Kind
    /** the lock */
    var held: bool
    /** to_release: the lease powered the virtual machine up itself */
    var toRelease: bool
    /** every command issued, in order */
    var issued: seq<string>

    /** Machine(name) */
    constructor Plain(name: string)
      ensures this.name == name && kind == Kind.Plain
      ensures !held && !toRelease && issued == []
    {
      this.name := name;
      kind := Kind.Plain;
      held := false;
      toRelease := false;
      issued := [];
    }

    /** MachineLocalProxmox() */
    constructor LocalProxmox()
      ensures name == "local_proxmox" && kind == Kind.LocalProxmox
      ensures !held && !toRelease && issued == []
    {
      name := "local_proxmox";
      kind := Kind.LocalProxmox;
      held := false;
      toRelease := false;
      issued := [];
    }

    /** Probe `ip` until the answer is `want`; returns the number of probes. */
    method PollUntil(ip: string, answers: seq<bool>, want: bool) returns (n: nat)
      requires want in answers
      modifies this`issued
      ensures FirstAnswer(answers, want, n)
      ensures issued == old(issued) + Pings(ip, n)
    {
      issued := issued + [PingCommand(ip)];
      n := 1;
      assert answers[0..] == answers;
      while answers[n - 1] != want
        invariant 1 <= n <= |answers|
        invariant forall j :: 0 <= j < n - 1 ==> answers[j] != want
        invariant want in answers[n - 1..]
        invariant issued == old(issued) + Pings(ip, n)
        decreases |answers| - n
      {
        assert answers[n - 1..] == [answers[n - 1]] + answers[n..];
        issued := issued + [PingCommand(ip)];
        n := n + 1;
      }
    }

    /** use(ip): take the lock; on the Proxmox machine, query the status
        (the two outputs are `qmStatus` and `pctStatus`), start the machine
        unless it runs, and wait until a ping answers. */
    method Use(ip: string, qmStatus: string, pctStatus: string, upAnswers: seq<bool>) returns (polls: nat)
      requires !held
      requires kind == Kind.LocalProxmox ==> true in upAnswers
      modifies this`held, this`toRelease, this`issued
      ensures held
      ensures kind == Kind.Plain ==> toRelease == old(toRelease) && issued == old(issued) && polls == 0
      ensures kind == Kind.LocalProxmox ==>
        && toRelease == !Running(qmStatus + pctStatus)
        && issued == old(issued) + UseCommands(ip, qmStatus + pctStatus) + Pings(ip, polls)
        && FirstAnswer(upAnswers, true, polls)
    {
      held := true;
      polls := 0;
      if kind == Kind.LocalProxmox {
        var id := VmId(ip);
        issued := issued + [Remote("qm status " + id), Remote("pct status " + id)];
        var status := qmStatus + pctStatus;
        if Running(status) {
          toRelease := false;
        } else {
          issued := issued + [Remote("qm start " + id), Remote("pct start " + id)];
          toRelease := true;
        }
        polls := PollUntil(ip, upAnswers, true);
      }
    }

    /** release(ip): on the Proxmox machine that it powered up, shut the
        machine down and wait until pings stop answering; free the lock last. */
    method Release(ip: string, downAnswers: seq<bool>) returns (polls: nat)
      requires held
      requires kind == Kind.LocalProxmox && toRelease ==> false in downAnswers
      modifies this`held, this`issued
      ensures !held
      ensures kind == Kind.Plain ==> issued == old(issued) && polls == 0
      ensures kind == Kind.LocalProxmox ==>
        && issued == old(issued) + ReleaseCommands(ip, toRelease) + Pings(ip, polls)
        && (toRelease ==> FirstAnswer(downAnswers, false, polls))
        && (!toRelease ==> polls == 0)
    {
      polls := 0;
      if kind == Kind.LocalProxmox && toRelease {
        var id := VmId(ip);
        issued := issued + [Remote("qm shutdown " + id), Remote("pct shutdown " + id)];
        polls := PollUntil(ip, downAnswers, false);
      }
      held := false;
    }
  }

  /** MachineLock: the `with` statement around a lease. */
  class MachineLock {
    const machine: Machine
    const ip: string

    constructor (machine: Machine, ip: string)
      ensures this.machine == machine && this.ip == ip
    {
      this.machine := machine;
      this.ip := ip;
    }

    /** __enter__: use the machine. */
    method Enter(qmStatus: string, pctStatus: string, upAnswers: seq<bool>) returns (polls: nat)
      requires !machine.held
      requires machine.kind == Kind.LocalProxmox ==> true in upAnswers
      modifies machine`held, machine`toRelease, machine`issued
      ensures machine.held
      ensures machine.kind == Kind.Plain ==> machine.toRelease == old(machine.toRelease) && machine.issued == old(machine.issued)
      ensures machine.kind == Kind.LocalProxmox ==>
        && machine.toRelease == !Running(qmStatus + pctStatus)
        && machine.issued == old(machine.issued) + UseCommands(ip, qmStatus + pctStatus) + Pings(ip, polls)
        && FirstAnswer(upAnswers, true, polls)
    {
      polls := machine.Use(ip, qmStatus, pctStatus, upAnswers);
    }

    /** __exit__: release the machine whether or not the body raised, and
        never suppress the exception. */
    method Exit(raised: bool, downAnswers: seq<bool>) returns (suppress: bool, polls: nat)
      requires machine.held
      requires machine.kind == Kind.LocalProxmox && machine.toRelease ==> false in downAnswers
      modifies machine`held, machine`issued
      ensures !machine.held && !suppress
      ensures machine.kind == Kind.Plain ==> machine.issued == old(machine.issued) && polls == 0
      ensures machine.kind == Kind.LocalProxmox ==>
        && machine.issued == old(machine.issued) + ReleaseCommands(ip, machine.toRelease) + Pings(ip, polls)
        && (machine.toRelease ==> FirstAnswer(downAnswers, false, polls))
        && (!machine.toRelease ==> polls == 0)
    {
      polls := machine.Release(ip, downAnswers);
      suppress := false;
    }
  }

  // ---------------------------------------------------------------------
  // Properties

  /** The id is the last dotted field: it holds no ".", it ends the address
      and, when the address has a ".", it follows the last one; an address
      without "." is its own id. */
  lemma VmIdIsLastField(ip: string)
    ensures '.' !in VmId(ip)
    ensures EndsWith(ip, VmId(ip))
    ensures '.' in ip ==> |VmId(ip)| < |ip| && ip[|ip| - |VmId(ip)| - 1] == '.'
    ensures '.' !in ip ==> VmId(ip) == ip
  {
    var parts := Split(ip, '.');
    JoinSplit(ip, '.');
    if |parts| == 1 {
      assert Join(parts, '.') == parts[0];
    } else {
      assert Init(parts) + [Last(parts)] == parts;
      JoinSnoc(Init(parts), Last(parts), '.');
      var head := Join(Init(parts), '.');
      assert ip == head + "." + Last(parts);
      assert ip[|head|] == '.';
      assert ip[|ip| - |Last(parts)|..] == Last(parts);
    }
  }

  /** The id of "a.b.c.105" is "105". */
  lemma VmIdOf(prefix: string, id: string)
    requires '.' !in id
    ensures VmId(prefix + "." + id) == id
  {
    SplitConcat(prefix, id, '.');
    SplitNoSep(id, '.');
    assert prefix + "." + id == prefix + ['.'] + id;
  }

  /** The lease powers the machine down exactly when it powered it up: the
      start commands are issued iff the shutdown commands will be. */
  lemma StartIffShutdown(ip: string, status: string)
    ensures |UseCommands(ip, status)| == 4 <==> ReleaseCommands(ip, !Running(status)) != []
    ensures Running(status) ==> UseCommands(ip, status) == [Remote("qm status " + VmId(ip)), Remote("pct status " + VmId(ip))]
  {
  }
}
