/** Tearing a cluster down (commands/destroy_cluster.rs): what a run removes on the KVM host
    when any of its remote calls may fail, with or without having had its effect. */
module Destroy {
  import opened Text
  import Dhcp

  // ---- the plan ---------------------------------------------------------------------

  datatype Plan = Plan(cpName: string, workerNames: seq<string>, poolDir: string)

  /** `Plan::vms` */
  function Vms(p: Plan): seq<string> {
    [p.cpName] + p.workerNames
  }

  /** `Plan::artifact_paths` */
  function ArtifactPaths(p: Plan, name: string): seq<string> {
    [p.poolDir + "/" + name + ".qcow2", p.poolDir + "/" + name + "-seed.iso", p.poolDir + "/" + name + "-cloud-init.iso"]
  }

  /** `Plan::scratch_dir` */
  function ScratchDir(p: Plan): string {
    p.poolDir + "/deploy-cluster"
  }

  // ---- the host ---------------------------------------------------------------------

  /** A domain exists while it runs or is defined. */
  datatype Domain = Domain(running: bool, defined: bool)

  datatype Host = Host(domains: map<string, Domain>, files: set<string>, table: seq<Dhcp.Host>)

  /** How a remote call ends.  A call that fails may have had its effect all the same. */
  datatype Fate = Works | Fails(took: bool)

  /** `dominfo`: it answers, `virsh` exits non-zero although the domain exists, or the call
      does not get through. */
  datatype Probe = Answers | Refuses | Lost

  datatype FileFate = FileFate(probeWorks: bool, rm: Fate)

  datatype VmFate = VmFate(probe: Probe, destroy: Fate, undefine: Fate, dumpWorks: bool, delete: Fate,
                           artifacts: nat -> FileFate)

  /** `rm -rf` may stop after removing some of what it finds. */
  datatype ScratchFate = ScratchFate(probeWorks: bool, rmWorks: bool, removed: set<string>)

  datatype RunFate = RunFate(vms: nat -> VmFate, scratch: ScratchFate)

  datatype Call = Call(host: Host, ok: bool)

  function WithDomain(h: Host, name: string, d: Domain): Host {
    h.(domains := if d.running || d.defined then h.domains[name := d] else h.domains - {name})
  }

  function EndCall(before: Host, after: Host, possible: bool, fate: Fate): Call {
    match fate
    case Works => Call(if possible then after else before, possible)
    case Fails(took) => Call(if possible && took then after else before, false)
  }

  /** `virsh destroy`: stops a running domain; it is an error when the domain does not run. */
  function DestroyDomain(h: Host, name: string, fate: Fate): Call {
    if name in h.domains && h.domains[name].running then
      EndCall(h, WithDomain(h, name, h.domains[name].(running := false)), true, fate)
    else EndCall(h, h, false, fate)
  }

  /** `virsh undefine`: a domain that runs stays as a transient one. */
  function UndefineDomain(h: Host, name: string, fate: Fate): Call {
    if name in h.domains && h.domains[name].defined then
      EndCall(h, WithDomain(h, name, h.domains[name].(defined := false)), true, fate)
    else EndCall(h, h, false, fate)
  }

  /** `rm -f` */
  function RemoveFile(h: Host, path: string, fate: Fate): Call {
    EndCall(h, h.(files := h.files - {path}), true, fate)
  }

  predicate IsUnder(path: string, dir: string) {
    path == dir || dir + "/" <= path
  }

  const BANNED := {"/", "/bin", "/boot", "/dev", "/etc", "/home", "/lib", "/lib64", "/proc", "/root", "/run",
                   "/sbin", "/srv", "/sys", "/tmp", "/usr", "/var"}

  function TrimSlashes(s: string): (r: string)
    ensures |r| <= |s| && (s != "" && s[|s| - 1] != '/' ==> r == s)
  {
    if s != "" && s[|s| - 1] == '/' then TrimSlashes(s[..|s| - 1]) else s
  }

  /** `reject_destructive_path` */
  predicate IsRejected(path: string) {
    || path == "" || path[0] != '/' || ".." in Split(path, '/')
    || (var t := TrimSlashes(path); (if t == "" then "/" else t) in BANNED)
  }

  /** `remote_rm_rf`; whether it failed is only logged. */
  function RemoveTree(h: Host, dir: string, fate: ScratchFate): Host {
    if IsRejected(dir) then h
    else if fate.rmWorks then h.(files := set f | f in h.files && !IsUnder(f, dir))
    else h.(files := set f | f in h.files && !(IsUnder(f, dir) && f in fate.removed))
  }

  // ---- one machine ------------------------------------------------------------------

  /** The host after a step, and the warnings the step counted. */
  datatype Step = Step(host: Host, warnings: nat)

  function Counted(c: Call): Step {
    Step(c.host, if c.ok then 0 else 1)
  }

  function Then(a: Step, b: Step): Step {
    Step(b.host, a.warnings + b.warnings)
  }

  /** The reservation is looked up by name in a dump of the network.  A failed dump is not
      counted. */
  function RemoveReservation(frame: Dhcp.Frame, h: Host, name: string, dumpWorks: bool, fate: Fate): Step {
    var xml := Dhcp.Dump(frame, h.table);
    if !dumpWorks || Dhcp.FindHostByName(xml, name).None? then Step(h, 0)
    else
      var took := fate.Works? || fate.took;
      Step(h.(table := Dhcp.AfterRemove(h.table, Some(xml), name, took)), if fate.Works? then 0 else 1)
  }

  function RemoveArtifact(h: Host, path: string, fate: FileFate): Step {
    if !fate.probeWorks then Step(h, 1)
    else if path !in h.files then Step(h, 0)
    else Counted(RemoveFile(h, path, fate.rm))
  }

  function RemoveArtifacts(h: Host, paths: seq<string>, fates: nat -> FileFate): Step
    decreases |paths|
  {
    if paths == [] then Step(h, 0)
    else
      var n := |paths| - 1;
      var front := RemoveArtifacts(h, paths[..n], fates);
      Then(front, RemoveArtifact(front.host, paths[n], fates(n)))
  }

  function TearDown(frame: Dhcp.Frame, h: Host, name: string, fate: VmFate): Step {
    var a := Counted(DestroyDomain(h, name, fate.destroy));
    var b := Counted(UndefineDomain(a.host, name, fate.undefine));
    Then(Then(a, b), RemoveReservation(frame, b.host, name, fate.dumpWorks, fate.delete))
  }

  /** A whole machine or run: finished with some warnings, or given up. */
  datatype Progress = Finished(step: Step) | Aborted(host: Host)

  predicate IsFound(h: Host, name: string, probe: Probe) {
    probe.Answers? && name in h.domains
  }

  /** `destroy_one` */
  function DestroyOne(p: Plan, frame: Dhcp.Frame, h: Host, name: string, fate: VmFate): Progress {
    if fate.probe.Lost? then Aborted(h)
    else
      var torn := if IsFound(h, name, fate.probe) then TearDown(frame, h, name, fate) else Step(h, 0);
      Finished(Then(torn, RemoveArtifacts(torn.host, ArtifactPaths(p, name), fate.artifacts)))
  }

  // ---- a run ------------------------------------------------------------------------

  /** The first `n` machines. */
  function DestroyFirst(p: Plan, frame: Dhcp.Frame, h: Host, fates: nat -> VmFate, n: nat): Progress
    requires n <= |Vms(p)|
  {
    if n == 0 then Finished(Step(h, 0))
    else
      match DestroyFirst(p, frame, h, fates, n - 1)
      case Aborted(g) => Aborted(g)
      case Finished(done) =>
        match DestroyOne(p, frame, done.host, Vms(p)[n - 1], fates(n - 1))
        case Aborted(g) => Aborted(g)
        case Finished(one) => Finished(Then(done, one))
  }

  /** `cleanup_scratch_dir`: failures are logged but not counted. */
  function CleanUpScratch(p: Plan, h: Host, fate: ScratchFate): Host {
    if fate.probeWorks && ScratchDir(p) in h.files then RemoveTree(h, ScratchDir(p), fate) else h
  }

  /** The host after `run`, and whether it returned `Ok`. */
  function Run(p: Plan, frame: Dhcp.Frame, h: Host, fate: RunFate): Call {
    match DestroyFirst(p, frame, h, fate.vms, |Vms(p)|)
    case Aborted(g) => Call(g, false)
    case Finished(done) => Call(CleanUpScratch(p, done.host, fate.scratch), done.warnings == 0)
  }

  function Runs(p: Plan, frame: Dhcp.Frame, h: Host, fates: seq<RunFate>): Host
    decreases |fates|
  {
    if fates == [] then h
    else Run(p, frame, Runs(p, frame, h, fates[..|fates| - 1]), fates[|fates| - 1]).host
  }

  // ---- the program ------------------------------------------------------------------

  /** The connection to the host, whose state the calls change in place. */
  class Connection {
    var host: Host
    const frame: Dhcp.Frame

    constructor (host: Host, frame: Dhcp.Frame)
      ensures this.host == host && this.frame == frame
    {
      this.host := host;
      this.frame := frame;
    }

    method RemoveArtifactsOf(p: Plan, name: string, fates: nat -> FileFate) returns (warnings: nat)
      modifies this
      ensures Step(host, warnings) == RemoveArtifacts(old(host), ArtifactPaths(p, name), fates)
    {
      hide RemoveFile, ArtifactPaths;
      var paths := ArtifactPaths(p, name);
      warnings := 0;
      var i := 0;
      assert paths[..0] == [];
      while i < |paths|
        invariant 0 <= i <= |paths|
        invariant Step(host, warnings) == RemoveArtifacts(old(host), paths[..i], fates)
      {
        assert paths[..i + 1][..i] == paths[..i];
        var (path, fate) := (paths[i], fates(i));
        i := i + 1;
        if !fate.probeWorks {
          warnings := warnings + 1;
          continue;
        }
        if path !in host.files {
          continue;
        }
        var removed := RemoveFile(host, path, fate.rm);
        host := removed.host;
        if !removed.ok {
          warnings := warnings + 1;
        }
      }
      assert paths[..i] == paths;
    }

    method DestroyVm(p: Plan, name: string, fate: VmFate) returns (warnings: Option<nat>)
      modifies this
      ensures match warnings
              case None => DestroyOne(p, frame, old(host), name, fate) == Aborted(host)
              case Some(w) => DestroyOne(p, frame, old(host), name, fate) == Finished(Step(host, w))
    {
      hide RemoveArtifacts, ArtifactPaths, DestroyDomain, UndefineDomain, RemoveReservation;
      if fate.probe == Lost {
        return None;
      }
      var count := 0;
      if IsFound(host, name, fate.probe) {
        var stopped := DestroyDomain(host, name, fate.destroy);
        host := stopped.host;
        if !stopped.ok {
          count := count + 1;
        }
        var undefined := UndefineDomain(host, name, fate.undefine);
        host := undefined.host;
        if !undefined.ok {
          count := count + 1;
        }
        var reservation := RemoveReservation(frame, host, name, fate.dumpWorks, fate.delete);
        host := reservation.host;
        count := count + reservation.warnings;
      }
      var more := RemoveArtifactsOf(p, name, fate.artifacts);
      return Some(count + more);
    }

    method DestroyCluster(p: Plan, fate: RunFate) returns (ok: bool)
      modifies this
      ensures Call(host, ok) == Run(p, frame, old(host), fate)
    {
      hide DestroyOne, CleanUpScratch;
      var vms := Vms(p);
      var total := 0;
      for i := 0 to |vms|
        invariant DestroyFirst(p, frame, old(host), fate.vms, i) == Finished(Step(host, total))
      {
        var w := DestroyVm(p, vms[i], fate.vms(i));
        if w.None? {
          AbortedStays(p, frame, old(host), fate.vms, i + 1, |vms|);
          return false;
        }
        total := total + w.value;
      }
      host := CleanUpScratch(p, host, fate.scratch);
      ok := total == 0;
    }
  }

  lemma {:induction false} AbortedStays(p: Plan, frame: Dhcp.Frame, h: Host, fates: nat -> VmFate, n: nat, m: nat)
    requires n <= m <= |Vms(p)| && DestroyFirst(p, frame, h, fates, n).Aborted?
    ensures DestroyFirst(p, frame, h, fates, m) == DestroyFirst(p, frame, h, fates, n)
  {
    hide DestroyOne;
    if n < m {
      AbortedStays(p, frame, h, fates, n, m - 1);
    }
  }

  // ---- what a run may change --------------------------------------------------------

  predicate IsArtifact(p: Plan, path: string) {
    exists vm :: vm in Vms(p) && path in ArtifactPaths(p, vm)
  }

  predicate IsConfigured(p: Plan, name: Option<string>) {
    name.Some? && name.value in Vms(p)
  }

  /** From `h` to `g` nothing came into being, and nothing went but configured domains, their
      artifacts, the scratch directory and reservations that bear a configured name. */
  predicate OnlyClusterGoes(p: Plan, h: Host, g: Host) {
    && g.domains.Keys <= h.domains.Keys
    && (forall d | d in h.domains && d !in Vms(p) :: d in g.domains && g.domains[d] == h.domains[d])
    && g.files <= h.files
    && (forall f | f in h.files && !IsArtifact(p, f) && !IsUnder(f, ScratchDir(p)) :: f in g.files)
    && (forall e | e in g.table :: e in h.table)
    && (forall e | e in h.table && !IsConfigured(p, e.name) :: e in g.table)
  }

  lemma {:induction false} Transitive(p: Plan, a: Host, b: Host, c: Host)
    requires OnlyClusterGoes(p, a, b) && OnlyClusterGoes(p, b, c)
    ensures OnlyClusterGoes(p, a, c)
  {
    hide IsArtifact, IsUnder, IsConfigured;
  }

  predicate IsSound(p: Plan, frame: Dhcp.Frame, h: Host) {
    && Dhcp.IsFrame(frame) && Dhcp.IsTable(h.table)
    && forall vm | vm in Vms(p) :: Dhcp.IsName(vm)
  }

  lemma {:induction false} DomainCallsSpare(p: Plan, h: Host, name: string, fate: Fate)
    requires name in Vms(p)
    ensures OnlyClusterGoes(p, h, DestroyDomain(h, name, fate).host)
    ensures OnlyClusterGoes(p, h, UndefineDomain(h, name, fate).host)
    ensures DestroyDomain(h, name, fate).host.table == h.table == UndefineDomain(h, name, fate).host.table
    ensures DestroyDomain(h, name, fate).host.files == h.files == UndefineDomain(h, name, fate).host.files
  {
    hide IsArtifact, IsUnder, IsConfigured;
  }

  lemma {:induction false} ReservationSpares(p: Plan, frame: Dhcp.Frame, h: Host, name: string, dumpWorks: bool, fate: Fate)
    requires name in Vms(p) && IsSound(p, frame, h)
    ensures var g := RemoveReservation(frame, h, name, dumpWorks, fate).host;
            OnlyClusterGoes(p, h, g) && IsSound(p, frame, g) && g.domains == h.domains && g.files == h.files
  {
    hide IsArtifact, IsUnder, Dhcp.Dump, Dhcp.AfterRemove, Dhcp.FindHostByName, Dhcp.IsName, Dhcp.IsFrame, Dhcp.FirstNamed,
         Dhcp.FirstHostLine;
    var took := fate.Works? || fate.took;
    var at := Dhcp.RemoveIsByName(frame, h.table, name, took);
    if at.Some? {
      var i := at.value;
      assert h.table == h.table[..i] + [h.table[i]] + h.table[i + 1..];
    }
  }

  lemma {:induction false} ArtifactSpares(p: Plan, h: Host, path: string, fate: FileFate)
    requires IsArtifact(p, path)
    ensures var g := RemoveArtifact(h, path, fate).host;
            OnlyClusterGoes(p, h, g) && g.domains == h.domains && g.table == h.table
  {
    hide IsArtifact, IsUnder, IsConfigured;
  }

  lemma {:induction false} ArtifactsSpare(p: Plan, h: Host, paths: seq<string>, fates: nat -> FileFate)
    requires forall path | path in paths :: IsArtifact(p, path)
    ensures var g := RemoveArtifacts(h, paths, fates).host;
            OnlyClusterGoes(p, h, g) && g.domains == h.domains && g.table == h.table
    decreases |paths|
  {
    hide IsArtifact, RemoveArtifact, OnlyClusterGoes;
    if paths == [] {
      Reflexive(p, h);
    } else {
      var n := |paths| - 1;
      ArtifactsSpare(p, h, paths[..n], fates);
      var g := RemoveArtifacts(h, paths[..n], fates).host;
      ArtifactSpares(p, g, paths[n], fates(n));
      Transitive(p, h, g, RemoveArtifacts(h, paths, fates).host);
    }
  }

  lemma {:induction false} Reflexive(p: Plan, h: Host)
    ensures OnlyClusterGoes(p, h, h)
  {
  }

  function HostOf(r: Progress): Host {
    match r case Finished(s) => s.host case Aborted(g) => g
  }

  lemma {:induction false} TearDownSpares(p: Plan, frame: Dhcp.Frame, h: Host, name: string, fate: VmFate)
    requires name in Vms(p) && IsSound(p, frame, h)
    ensures var g := TearDown(frame, h, name, fate).host; OnlyClusterGoes(p, h, g) && IsSound(p, frame, g)
  {
    hide OnlyClusterGoes, DestroyDomain, UndefineDomain, RemoveReservation, Dhcp.IsName, Dhcp.IsFrame, Dhcp.IsTable;
    var a := DestroyDomain(h, name, fate.destroy).host;
    var b := UndefineDomain(a, name, fate.undefine).host;
    DomainCallsSpare(p, h, name, fate.destroy);
    DomainCallsSpare(p, a, name, fate.undefine);
    ReservationSpares(p, frame, b, name, fate.dumpWorks, fate.delete);
    Transitive(p, h, a, b);
    Transitive(p, h, b, TearDown(frame, h, name, fate).host);
  }

  lemma {:induction false} DestroyOneSpares(p: Plan, frame: Dhcp.Frame, h: Host, name: string, fate: VmFate)
    requires name in Vms(p) && IsSound(p, frame, h)
    ensures var g := HostOf(DestroyOne(p, frame, h, name, fate)); OnlyClusterGoes(p, h, g) && IsSound(p, frame, g)
  {
    hide OnlyClusterGoes, TearDown, RemoveArtifacts, ArtifactPaths, Dhcp.IsName, Dhcp.IsFrame, Dhcp.IsTable;
    Reflexive(p, h);
    if !fate.probe.Lost? {
      TearDownSpares(p, frame, h, name, fate);
      var torn := if IsFound(h, name, fate.probe) then TearDown(frame, h, name, fate).host else h;
      ArtifactsSpare(p, torn, ArtifactPaths(p, name), fate.artifacts);
      Transitive(p, h, torn, HostOf(DestroyOne(p, frame, h, name, fate)));
    }
  }

  lemma {:induction false} DestroyFirstSpares(p: Plan, frame: Dhcp.Frame, h: Host, fates: nat -> VmFate, n: nat)
    requires n <= |Vms(p)| && IsSound(p, frame, h)
    ensures var g := HostOf(DestroyFirst(p, frame, h, fates, n)); OnlyClusterGoes(p, h, g) && IsSound(p, frame, g)
  {
    hide OnlyClusterGoes, DestroyOne, IsSound;
    if n == 0 {
      Reflexive(p, h);
    } else {
      DestroyFirstSpares(p, frame, h, fates, n - 1);
      var done := DestroyFirst(p, frame, h, fates, n - 1);
      if done.Finished? {
        var g := done.step.host;
        DestroyOneSpares(p, frame, g, Vms(p)[n - 1], fates(n - 1));
        Transitive(p, h, g, HostOf(DestroyFirst(p, frame, h, fates, n)));
      }
    }
  }

  lemma {:induction false} ScratchSpares(p: Plan, frame: Dhcp.Frame, h: Host, fate: ScratchFate)
    requires IsSound(p, frame, h)
    ensures var g := CleanUpScratch(p, h, fate);
            OnlyClusterGoes(p, h, g) && IsSound(p, frame, g) && g.domains == h.domains
  {
    hide IsArtifact, IsUnder, IsConfigured, IsRejected, Dhcp.IsName, Dhcp.IsFrame, Dhcp.IsTable;
  }

  lemma {:induction false} RunSpares(p: Plan, frame: Dhcp.Frame, h: Host, fate: RunFate)
    requires IsSound(p, frame, h)
    ensures var g := Run(p, frame, h, fate).host; OnlyClusterGoes(p, h, g) && IsSound(p, frame, g)
  {
    hide OnlyClusterGoes, DestroyFirst, CleanUpScratch, IsSound;
    DestroyFirstSpares(p, frame, h, fate.vms, |Vms(p)|);
    var done := DestroyFirst(p, frame, h, fate.vms, |Vms(p)|);
    if done.Finished? {
      ScratchSpares(p, frame, done.step.host, fate.scratch);
      Transitive(p, h, done.step.host, Run(p, frame, h, fate).host);
    }
  }

  /** Over any sequence of runs, whatever calls fail, nothing goes but what belongs to the
      configured cluster, and nothing comes back. */
  lemma {:induction false} RunsSpareTheRest(p: Plan, frame: Dhcp.Frame, h: Host, fates: seq<RunFate>)
    requires IsSound(p, frame, h)
    ensures OnlyClusterGoes(p, h, Runs(p, frame, h, fates)) && IsSound(p, frame, Runs(p, frame, h, fates))
    decreases |fates|
  {
    hide OnlyClusterGoes, Run, IsSound;
    if fates == [] {
      Reflexive(p, h);
    } else {
      var n := |fates| - 1;
      RunsSpareTheRest(p, frame, h, fates[..n]);
      var g := Runs(p, frame, h, fates[..n]);
      RunSpares(p, frame, g, fates[n]);
      Transitive(p, h, g, Runs(p, frame, h, fates));
    }
  }

  /** More runs leave no more of the configured domains and artifacts than fewer did. */
  lemma {:induction false} RemainderNeverGrows(p: Plan, frame: Dhcp.Frame, h: Host, fates: seq<RunFate>, n: nat)
    requires IsSound(p, frame, h) && n <= |fates|
    ensures OnlyClusterGoes(p, Runs(p, frame, h, fates[..n]), Runs(p, frame, h, fates))
    decreases |fates|
  {
    hide OnlyClusterGoes, Run, IsSound;
    if n == |fates| {
      assert fates[..n] == fates;
      Reflexive(p, Runs(p, frame, h, fates));
    } else {
      var m := |fates| - 1;
      RemainderNeverGrows(p, frame, h, fates[..m], n);
      assert fates[..m][..n] == fates[..n];
      RunsSpareTheRest(p, frame, h, fates[..m]);
      var g := Runs(p, frame, h, fates[..m]);
      RunSpares(p, frame, g, fates[m]);
      Transitive(p, Runs(p, frame, h, fates[..n]), g, Runs(p, frame, h, fates));
    }
  }

  // ---- what an `Ok` means -----------------------------------------------------------

  predicate Shrinks(h: Host, g: Host) {
    g.domains.Keys <= h.domains.Keys && g.files <= h.files
  }

  lemma {:induction false} ArtifactsGo(h: Host, paths: seq<string>, fates: nat -> FileFate)
    ensures var r := RemoveArtifacts(h, paths, fates);
            && r.host.domains == h.domains && r.host.table == h.table && r.host.files <= h.files
            && (r.warnings == 0 ==> forall path | path in paths :: path !in r.host.files)
    decreases |paths|
  {
    if paths != [] {
      var n := |paths| - 1;
      ArtifactsGo(h, paths[..n], fates);
      assert paths == paths[..n] + [paths[n]];
    }
  }

  lemma {:induction false} DomainGoes(frame: Dhcp.Frame, h: Host, name: string, fate: VmFate)
    requires name in h.domains
    ensures var r := TearDown(frame, h, name, fate);
            Shrinks(h, r.host) && (r.warnings == 0 ==> name !in r.host.domains)
  {
    hide Dhcp.Dump, Dhcp.AfterRemove, Dhcp.FindHostByName;
  }

  lemma {:induction false} DestroyOneClears(p: Plan, frame: Dhcp.Frame, h: Host, name: string, fate: VmFate)
    ensures var r := DestroyOne(p, frame, h, name, fate);
            && Shrinks(h, HostOf(r))
            && (r.Finished? && r.step.warnings == 0 ==>
                  && (forall path | path in ArtifactPaths(p, name) :: path !in r.step.host.files)
                  && (name in r.step.host.domains ==> fate.probe.Refuses?))
  {
    hide TearDown, RemoveArtifacts, ArtifactPaths;
    if !fate.probe.Lost? {
      if IsFound(h, name, fate.probe) {
        DomainGoes(frame, h, name, fate);
      }
      var torn := if IsFound(h, name, fate.probe) then TearDown(frame, h, name, fate).host else h;
      ArtifactsGo(torn, ArtifactPaths(p, name), fate.artifacts);
    }
  }

  /** The first `n` machines are gone from `g`, but for domains whose probe was refused. */
  predicate IsCleared(p: Plan, g: Host, fates: nat -> VmFate, n: nat)
    requires n <= |Vms(p)|
  {
    forall k :: 0 <= k < n ==> IsMachineCleared(p, g, Vms(p)[k], fates(k))
  }

  predicate IsMachineCleared(p: Plan, g: Host, name: string, fate: VmFate) {
    && (forall path | path in ArtifactPaths(p, name) :: path !in g.files)
    && (name in g.domains ==> fate.probe.Refuses?)
  }

  lemma {:induction false} StaysCleared(p: Plan, h: Host, g: Host, fates: nat -> VmFate, n: nat)
    requires n <= |Vms(p)| && IsCleared(p, h, fates, n) && Shrinks(h, g)
    ensures IsCleared(p, g, fates, n)
  {
    hide ArtifactPaths, Vms;
    forall k | 0 <= k < n ensures IsMachineCleared(p, g, Vms(p)[k], fates(k)) {
      assert IsMachineCleared(p, h, Vms(p)[k], fates(k));
    }
  }

  lemma {:induction false} FirstCleared(p: Plan, frame: Dhcp.Frame, h: Host, fates: nat -> VmFate, n: nat)
    requires n <= |Vms(p)|
    ensures var r := DestroyFirst(p, frame, h, fates, n);
            Shrinks(h, HostOf(r)) && (r.Finished? && r.step.warnings == 0 ==> IsCleared(p, r.step.host, fates, n))
  {
    hide DestroyOne, ArtifactPaths, Vms, IsCleared;
    assert n == 0 ==> IsCleared(p, h, fates, 0) by {
      NothingToClear(p, h, fates);
    }
    if n > 0 {
      FirstCleared(p, frame, h, fates, n - 1);
      var done := DestroyFirst(p, frame, h, fates, n - 1);
      if done.Finished? {
        var (name, fate) := (Vms(p)[n - 1], fates(n - 1));
        DestroyOneClears(p, frame, done.step.host, name, fate);
        var r := DestroyOne(p, frame, done.step.host, name, fate);
        if r.Finished? && r.step.warnings == 0 && done.step.warnings == 0 {
          StaysCleared(p, done.step.host, r.step.host, fates, n - 1);
          OneMoreCleared(p, r.step.host, fates, n);
        }
      }
    }
  }

  lemma {:induction false} NothingToClear(p: Plan, g: Host, fates: nat -> VmFate)
    ensures IsCleared(p, g, fates, 0)
  {
  }

  lemma {:induction false} OneMoreCleared(p: Plan, g: Host, fates: nat -> VmFate, n: nat)
    requires 0 < n <= |Vms(p)| && IsCleared(p, g, fates, n - 1)
    requires IsMachineCleared(p, g, Vms(p)[n - 1], fates(n - 1))
    ensures IsCleared(p, g, fates, n)
  {
    hide ArtifactPaths, Vms, IsMachineCleared;
  }

  lemma {:induction false} ScratchShrinks(p: Plan, h: Host, fate: ScratchFate)
    ensures Shrinks(h, CleanUpScratch(p, h, fate)) && CleanUpScratch(p, h, fate).domains == h.domains
  {
    hide IsUnder, IsRejected;
  }

  /** A run that returns `Ok` leaves no artifact of any configured machine, and no configured
      domain but one whose probe `virsh` refused. */
  lemma {:induction false} OkLeavesNothing(p: Plan, frame: Dhcp.Frame, h: Host, fate: RunFate)
    requires Run(p, frame, h, fate).ok
    ensures IsCleared(p, Run(p, frame, h, fate).host, fate.vms, |Vms(p)|)
  {
    hide DestroyFirst, CleanUpScratch, IsCleared, Vms;
    FirstCleared(p, frame, h, fate.vms, |Vms(p)|);
    var done := DestroyFirst(p, frame, h, fate.vms, |Vms(p)|).step.host;
    ScratchShrinks(p, done, fate.scratch);
    StaysCleared(p, done, CleanUpScratch(p, done, fate.scratch), fate.vms, |Vms(p)|);
  }

  /** When the probe is refused only for domains that do not exist, `Ok` leaves no configured
      domain at all. */
  lemma {:induction false} OkLeavesNoDomain(p: Plan, frame: Dhcp.Frame, h: Host, fate: RunFate, k: nat)
    requires Run(p, frame, h, fate).ok && k < |Vms(p)|
    requires fate.vms(k).probe.Refuses? ==> Vms(p)[k] !in h.domains
    ensures Vms(p)[k] !in Run(p, frame, h, fate).host.domains
  {
    hide DestroyFirst, CleanUpScratch, Vms, ArtifactPaths;
    OkLeavesNothing(p, frame, h, fate);
    FirstCleared(p, frame, h, fate.vms, |Vms(p)|);
    ScratchShrinks(p, DestroyFirst(p, frame, h, fate.vms, |Vms(p)|).step.host, fate.scratch);
    assert IsMachineCleared(p, Run(p, frame, h, fate).host, Vms(p)[k], fate.vms(k));
  }

  /** A machine's teardown leaves every other domain, and the machine's own when its probe is
      refused. */
  lemma {:induction false} OneKeepsDomain(p: Plan, frame: Dhcp.Frame, h: Host, name: string, fate: VmFate, d: string)
    requires d != name || fate.probe.Refuses?
    ensures d in HostOf(DestroyOne(p, frame, h, name, fate)).domains <==> d in h.domains
  {
    hide TearDown, RemoveArtifacts, ArtifactPaths;
    if !fate.probe.Lost? {
      if IsFound(h, name, fate.probe) {
        TearDownKeepsOther(frame, h, name, fate, d);
      }
      var torn := if IsFound(h, name, fate.probe) then TearDown(frame, h, name, fate).host else h;
      ArtifactsGo(torn, ArtifactPaths(p, name), fate.artifacts);
    }
  }

  lemma {:induction false} TearDownKeepsOther(frame: Dhcp.Frame, h: Host, name: string, fate: VmFate, d: string)
    requires d != name
    ensures var g := TearDown(frame, h, name, fate).host;
            (d in g.domains <==> d in h.domains) && (d in h.domains ==> g.domains[d] == h.domains[d])
  {
    hide Dhcp.Dump, Dhcp.AfterRemove, Dhcp.FindHostByName;
  }

  predicate AreDistinct(names: seq<string>) {
    forall i, j :: 0 <= i < j < |names| ==> names[i] != names[j]
  }

  lemma {:induction false} FirstKeepDomain(p: Plan, frame: Dhcp.Frame, h: Host, fates: nat -> VmFate, n: nat, k: nat)
    requires n <= |Vms(p)| && k < |Vms(p)| && AreDistinct(Vms(p)) && fates(k).probe.Refuses?
    ensures Vms(p)[k] in HostOf(DestroyFirst(p, frame, h, fates, n)).domains <==> Vms(p)[k] in h.domains
  {
    hide DestroyOne, Vms;
    if n > 0 {
      FirstKeepDomain(p, frame, h, fates, n - 1, k);
      var done := DestroyFirst(p, frame, h, fates, n - 1);
      if done.Finished? {
        OneKeepsDomain(p, frame, done.step.host, Vms(p)[n - 1], fates(n - 1), Vms(p)[k]);
      }
    }
  }

  /** After a run that returned `Ok`, a configured domain still exists exactly when it existed
      and its own probe was refused. */
  lemma {:induction false} OkLeavesRefused(p: Plan, frame: Dhcp.Frame, h: Host, fate: RunFate, k: nat)
    requires Run(p, frame, h, fate).ok && k < |Vms(p)| && AreDistinct(Vms(p))
    ensures Vms(p)[k] in Run(p, frame, h, fate).host.domains <==>
      Vms(p)[k] in h.domains && fate.vms(k).probe.Refuses?
  {
    hide DestroyFirst, CleanUpScratch, Vms, ArtifactPaths, AreDistinct;
    OkLeavesNothing(p, frame, h, fate);
    FirstCleared(p, frame, h, fate.vms, |Vms(p)|);
    ScratchShrinks(p, DestroyFirst(p, frame, h, fate.vms, |Vms(p)|).step.host, fate.scratch);
    assert IsMachineCleared(p, Run(p, frame, h, fate).host, Vms(p)[k], fate.vms(k));
    if fate.vms(k).probe.Refuses? {
      FirstKeepDomain(p, frame, h, fate.vms, |Vms(p)|, k);
    }
  }

  /** The names of the machines and of their files, in full. */
  lemma {:induction false} OkLeavesNoFile(p: Plan, frame: Dhcp.Frame, h: Host, fate: RunFate, name: string)
    requires Run(p, frame, h, fate).ok && (name == p.cpName || name in p.workerNames)
    ensures var files := Run(p, frame, h, fate).host.files;
            && p.poolDir + "/" + name + ".qcow2" !in files && p.poolDir + "/" + name + "-seed.iso" !in files
            && p.poolDir + "/" + name + "-cloud-init.iso" !in files
  {
    hide Run, IsCleared;
    OkLeavesNothing(p, frame, h, fate);
    assert name in Vms(p);
    var k :| 0 <= k < |Vms(p)| && Vms(p)[k] == name;
    ClearedMachine(p, Run(p, frame, h, fate).host, fate.vms, k);
    var paths := ArtifactPaths(p, name);
    assert paths[0] in paths && paths[1] in paths && paths[2] in paths;
  }

  lemma {:induction false} ClearedMachine(p: Plan, g: Host, fates: nat -> VmFate, k: nat)
    requires k < |Vms(p)| && IsCleared(p, g, fates, |Vms(p)|)
    ensures IsMachineCleared(p, g, Vms(p)[k], fates(k))
  {
    hide IsMachineCleared, Vms;
  }

  // ---- what the verdict means -------------------------------------------------------

  /** A file that is found is removed, or is not there. */
  predicate IsFileDone(h: Host, path: string, fate: FileFate) {
    fate.probeWorks && (path in h.files ==> fate.rm.Works?)
  }

  /** The reservation that the dump shows for the machine, if it shows one, is deleted.  A dump
      that fails is passed over. */
  predicate IsReservationDone(frame: Dhcp.Frame, h: Host, name: string, fate: VmFate) {
    fate.dumpWorks && Dhcp.FindHostByName(Dhcp.Dump(frame, h.table), name).Some? ==> fate.delete.Works?
  }

  /** Nothing on this machine is given up or counted: the probe gets through; a domain that is
      found runs and is defined, and both calls on it work; so do those on what it leaves. */
  predicate IsSilent(p: Plan, frame: Dhcp.Frame, h: Host, name: string, fate: VmFate) {
    && !fate.probe.Lost?
    && (fate.probe.Answers? && name in h.domains ==>
          && h.domains[name].running && h.domains[name].defined
          && fate.destroy.Works? && fate.undefine.Works? && IsReservationDone(frame, h, name, fate))
    && IsFileDone(h, p.poolDir + "/" + name + ".qcow2", fate.artifacts(0))
    && IsFileDone(h, p.poolDir + "/" + name + "-seed.iso", fate.artifacts(1))
    && IsFileDone(h, p.poolDir + "/" + name + "-cloud-init.iso", fate.artifacts(2))
  }

  lemma {:induction false} TearDownIsSilentIff(frame: Dhcp.Frame, h: Host, name: string, fate: VmFate)
    requires name in h.domains
    ensures var r := TearDown(frame, h, name, fate);
            && r.host.files == h.files
            && (r.warnings == 0 <==>
                  && h.domains[name].running && h.domains[name].defined && fate.destroy.Works? && fate.undefine.Works?
                  && IsReservationDone(frame, h, name, fate))
  {
    hide Dhcp.Dump, Dhcp.AfterRemove, Dhcp.FindHostByName;
  }

  /** The files of one machine are three. */
  lemma {:induction false} ThreeFiles(p: Plan, name: string)
    ensures var paths := ArtifactPaths(p, name); paths[0] != paths[1] && paths[0] != paths[2] && paths[1] != paths[2]
  {
    var paths := ArtifactPaths(p, name);
    assert paths[0][|paths[0]| - 1] == '2' && paths[1][|paths[1]| - 1] == 'o' && paths[2][|paths[2]| - 1] == 'o';
    assert |paths[1]| + 6 == |paths[2]|;
  }

  lemma {:induction false} ArtifactsAreSilentIff(h: Host, a: string, b: string, c: string, fates: nat -> FileFate)
    requires a != b && a != c && b != c
    ensures RemoveArtifacts(h, [a, b, c], fates).warnings == 0 <==>
      IsFileDone(h, a, fates(0)) && IsFileDone(h, b, fates(1)) && IsFileDone(h, c, fates(2))
  {
    hide RemoveArtifact, IsFileDone, RemoveArtifacts;
    NoArtifacts(h, fates);
    LastArtifact(h, [], a, fates);
    LastArtifact(h, [a], b, fates);
    LastArtifact(h, [a, b], c, fates);
    assert [] + [a] == [a] && [a] + [b] == [a, b] && [a, b] + [c] == [a, b, c];
    OneArtifact(h, a, fates(0), b);
    OneArtifact(h, a, fates(0), c);
    var g := RemoveArtifacts(h, [a], fates).host;
    OneArtifact(g, b, fates(1), c);
    SameFileDone(h, g, b, fates(1));
    var k := RemoveArtifacts(h, [a, b], fates).host;
    SameFileDone(h, k, c, fates(2));
    OneArtifact(k, c, fates(2), a);
  }

  lemma {:induction false} SameFileDone(h: Host, g: Host, path: string, fate: FileFate)
    requires path in g.files <==> path in h.files
    ensures IsFileDone(g, path, fate) <==> IsFileDone(h, path, fate)
  {
  }

  lemma {:induction false} NoArtifacts(h: Host, fates: nat -> FileFate)
    ensures RemoveArtifacts(h, [], fates) == Step(h, 0)
  {
  }

  lemma {:induction false} LastArtifact(h: Host, front: seq<string>, path: string, fates: nat -> FileFate)
    ensures RemoveArtifacts(h, front + [path], fates)
         == Then(RemoveArtifacts(h, front, fates),
                 RemoveArtifact(RemoveArtifacts(h, front, fates).host, path, fates(|front|)))
  {
    hide RemoveArtifact;
    assert (front + [path])[..|front|] == front;
  }

  lemma {:induction false} OneArtifact(h: Host, path: string, fate: FileFate, other: string)
    ensures RemoveArtifact(h, path, fate).warnings == 0 <==> IsFileDone(h, path, fate)
    ensures other != path ==> (other in RemoveArtifact(h, path, fate).host.files <==> other in h.files)
  {
  }

  lemma {:induction false} OneIsSilentIff(p: Plan, frame: Dhcp.Frame, h: Host, name: string, fate: VmFate)
    ensures var r := DestroyOne(p, frame, h, name, fate);
            (r.Finished? && r.step.warnings == 0) <==> IsSilent(p, frame, h, name, fate)
  {
    hide TearDown, RemoveArtifacts, IsReservationDone, IsFileDone;
    if !fate.probe.Lost? {
      var paths := ArtifactPaths(p, name);
      ThreeFiles(p, name);
      if IsFound(h, name, fate.probe) {
        TearDownIsSilentIff(frame, h, name, fate);
      }
      var torn := if IsFound(h, name, fate.probe) then TearDown(frame, h, name, fate).host else h;
      ArtifactsAreSilentIff(torn, paths[0], paths[1], paths[2], fate.artifacts);
      SameFileDone(h, torn, paths[0], fate.artifacts(0));
      SameFileDone(h, torn, paths[1], fate.artifacts(1));
      SameFileDone(h, torn, paths[2], fate.artifacts(2));
    }
  }

  /** The host as machine `k` finds it. */
  function HostBefore(p: Plan, frame: Dhcp.Frame, h: Host, fates: nat -> VmFate, k: nat): Host
    requires k <= |Vms(p)|
  {
    HostOf(DestroyFirst(p, frame, h, fates, k))
  }

  /** Nothing is given up or counted on the first `n` machines, as the run finds them. */
  predicate AreSilent(p: Plan, frame: Dhcp.Frame, h: Host, fates: nat -> VmFate, n: nat)
    requires n <= |Vms(p)|
  {
    forall k :: 0 <= k < n ==> IsSilent(p, frame, HostBefore(p, frame, h, fates, k), Vms(p)[k], fates(k))
  }

  lemma {:induction false} FirstAreSilentIff(p: Plan, frame: Dhcp.Frame, h: Host, fates: nat -> VmFate, n: nat)
    requires n <= |Vms(p)|
    ensures var r := DestroyFirst(p, frame, h, fates, n);
            (r.Finished? && r.step.warnings == 0) <==> AreSilent(p, frame, h, fates, n)
  {
    hide DestroyOne, IsSilent, Vms, AreSilent;
    SilentSoFar(p, frame, h, fates, n);
    if n > 0 {
      FirstAreSilentIff(p, frame, h, fates, n - 1);
      OneIsSilentIff(p, frame, HostBefore(p, frame, h, fates, n - 1), Vms(p)[n - 1], fates(n - 1));
    }
  }

  lemma {:induction false} SilentSoFar(p: Plan, frame: Dhcp.Frame, h: Host, fates: nat -> VmFate, n: nat)
    requires n <= |Vms(p)|
    ensures n == 0 ==> AreSilent(p, frame, h, fates, n)
    ensures 0 < n ==>
      (AreSilent(p, frame, h, fates, n) <==>
        AreSilent(p, frame, h, fates, n - 1)
        && IsSilent(p, frame, HostBefore(p, frame, h, fates, n - 1), Vms(p)[n - 1], fates(n - 1)))
  {
    hide IsSilent, HostBefore, Vms;
  }

  /** A run returns `Ok` exactly when nothing is given up or counted on any machine, as the run
      finds it: a lost probe or one failed call that counts makes the whole run fail. */
  lemma {:induction false} OkIffSilent(p: Plan, frame: Dhcp.Frame, h: Host, fate: RunFate)
    ensures Run(p, frame, h, fate).ok <==> AreSilent(p, frame, h, fate.vms, |Vms(p)|)
  {
    hide DestroyFirst, CleanUpScratch, AreSilent, Vms;
    FirstAreSilentIff(p, frame, h, fate.vms, |Vms(p)|);
  }

  lemma {:induction false} KeepsOther(p: Plan, frame: Dhcp.Frame, h: Host, name: string, fate: VmFate, d: string)
    requires d != name
    ensures var g := HostOf(DestroyOne(p, frame, h, name, fate));
            (d in g.domains <==> d in h.domains) && (d in h.domains ==> g.domains[d] == h.domains[d])
  {
    hide RemoveArtifacts, ArtifactPaths, TearDown;
    if !fate.probe.Lost? {
      TearDownKeepsOther(frame, h, name, fate, d);
      var torn := if IsFound(h, name, fate.probe) then TearDown(frame, h, name, fate).host else h;
      ArtifactsGo(torn, ArtifactPaths(p, name), fate.artifacts);
    }
  }

  lemma {:induction false} FirstKeepOther(p: Plan, frame: Dhcp.Frame, h: Host, fates: nat -> VmFate, n: nat, d: string)
    requires n <= |Vms(p)| && d !in Vms(p)[..n]
    ensures var g := HostBefore(p, frame, h, fates, n);
            (d in g.domains <==> d in h.domains) && (d in h.domains ==> g.domains[d] == h.domains[d])
  {
    hide DestroyOne, Vms;
    if n > 0 {
      assert Vms(p)[..n] == Vms(p)[..n - 1] + [Vms(p)[n - 1]];
      FirstKeepOther(p, frame, h, fates, n - 1, d);
      KeepsOther(p, frame, HostBefore(p, frame, h, fates, n - 1), Vms(p)[n - 1], fates(n - 1), d);
    }
  }

  /** The first probe that is lost ends the run: it fails with the host as the machines before
      left it, every later domain and the scratch directory untouched. */
  lemma {:induction false} LostProbeEndsRun(p: Plan, frame: Dhcp.Frame, h: Host, fate: RunFate, k: nat)
    requires k < |Vms(p)| && fate.vms(k).probe.Lost? && forall i :: 0 <= i < k ==> !fate.vms(i).probe.Lost?
    ensures Run(p, frame, h, fate) == Call(HostBefore(p, frame, h, fate.vms, k), false)
    ensures forall d | d !in Vms(p)[..k] ::
      var g := Run(p, frame, h, fate).host;
      (d in g.domains <==> d in h.domains) && (d in h.domains ==> g.domains[d] == h.domains[d])
  {
    hide DestroyFirst, CleanUpScratch, Vms;
    NotAbortedBefore(p, frame, h, fate.vms, k);
    LostAborts(p, frame, h, fate.vms, k);
    AbortedStays(p, frame, h, fate.vms, k + 1, |Vms(p)|);
    forall d | d !in Vms(p)[..k]
      ensures var g := Run(p, frame, h, fate).host;
              (d in g.domains <==> d in h.domains) && (d in h.domains ==> g.domains[d] == h.domains[d])
    {
      FirstKeepOther(p, frame, h, fate.vms, k, d);
    }
  }

  lemma {:induction false} NotAbortedBefore(p: Plan, frame: Dhcp.Frame, h: Host, fates: nat -> VmFate, k: nat)
    requires k <= |Vms(p)| && forall i :: 0 <= i < k ==> !fates(i).probe.Lost?
    ensures DestroyFirst(p, frame, h, fates, k).Finished?
  {
    hide TearDown, RemoveArtifacts, ArtifactPaths, Vms;
    if k > 0 {
      NotAbortedBefore(p, frame, h, fates, k - 1);
    }
  }

  lemma {:induction false} LostAborts(p: Plan, frame: Dhcp.Frame, h: Host, fates: nat -> VmFate, k: nat)
    requires k < |Vms(p)| && fates(k).probe.Lost? && DestroyFirst(p, frame, h, fates, k).Finished?
    ensures DestroyFirst(p, frame, h, fates, k + 1) == Aborted(HostBefore(p, frame, h, fates, k))
  {
    hide Vms;
  }

  // ---- runs without faults ----------------------------------------------------------

  predicate IsQuiet(f: FileFate) {
    f.probeWorks && f.rm.Works?
  }

  /** No call on the machine fails for a reason of its own. */
  ghost predicate IsFaultFree(fate: VmFate) {
    && fate.probe.Answers? && fate.destroy.Works? && fate.undefine.Works? && fate.delete.Works?
    && forall i: nat :: IsQuiet(fate.artifacts(i))
  }

  predicate IsHost(h: Host) {
    forall d | d in h.domains :: h.domains[d].running || h.domains[d].defined
  }

  /** The only state in which both `destroy` and `undefine` are possible. */
  predicate IsOrdinary(h: Host, name: string) {
    name in h.domains ==> h.domains[name].running && h.domains[name].defined
  }

  lemma {:induction false} QuietArtifacts(h: Host, paths: seq<string>, fates: nat -> FileFate)
    requires forall i: nat :: IsQuiet(fates(i))
    ensures RemoveArtifacts(h, paths, fates).warnings == 0
    decreases |paths|
  {
    if paths != [] {
      assert IsQuiet(fates(|paths| - 1));
      QuietArtifacts(h, paths[..|paths| - 1], fates);
    }
  }

  lemma {:induction false} QuietTearDown(frame: Dhcp.Frame, h: Host, name: string, fate: VmFate)
    requires IsHost(h) && IsFaultFree(fate) && name in h.domains
    ensures var r := TearDown(frame, h, name, fate);
            r.host.domains == h.domains - {name} && (r.warnings == 0 <==> IsOrdinary(h, name))
  {
    hide Dhcp.Dump, Dhcp.AfterRemove, Dhcp.FindHostByName, IsQuiet;
  }

  lemma {:induction false} QuietDestroyOne(p: Plan, frame: Dhcp.Frame, h: Host, name: string, fate: VmFate)
    requires IsHost(h) && IsFaultFree(fate)
    ensures var r := DestroyOne(p, frame, h, name, fate);
            && r.Finished? && r.step.host.domains == h.domains - {name}
            && (r.step.warnings == 0 <==> IsOrdinary(h, name))
  {
    hide TearDown, RemoveArtifacts, ArtifactPaths, IsQuiet;
    if name in h.domains {
      QuietTearDown(frame, h, name, fate);
    } else {
      assert h.domains - {name} == h.domains;
    }
    var torn := if name in h.domains then TearDown(frame, h, name, fate).host else h;
    QuietArtifacts(torn, ArtifactPaths(p, name), fate.artifacts);
    ArtifactsGo(torn, ArtifactPaths(p, name), fate.artifacts);
  }

  predicate AreOrdinary(h: Host, names: seq<string>) {
    forall k :: 0 <= k < |names| ==> IsOrdinary(h, names[k])
  }

  lemma {:induction false} QuietDestroyFirst(p: Plan, frame: Dhcp.Frame, h: Host, fates: nat -> VmFate, n: nat)
    requires IsHost(h) && n <= |Vms(p)| && forall i: nat :: IsFaultFree(fates(i))
    ensures var r := DestroyFirst(p, frame, h, fates, n);
            && r.Finished? && r.step.host.domains == (map d | d in h.domains && d !in Vms(p)[..n] :: h.domains[d])
            && (r.step.warnings == 0 <==> AreOrdinary(h, Vms(p)[..n]))
  {
    hide DestroyOne, Vms, IsFaultFree;
    if n > 0 {
      QuietDestroyFirst(p, frame, h, fates, n - 1);
      var g := DestroyFirst(p, frame, h, fates, n - 1).step.host;
      var name := Vms(p)[n - 1];
      QuietDestroyOne(p, frame, g, name, fates(n - 1));
      assert Vms(p)[..n] == Vms(p)[..n - 1] + [name];
      OneMoreOrdinary(h, g, Vms(p)[..n - 1], name);
    }
  }

  lemma {:induction false} OneMoreOrdinary(h: Host, g: Host, names: seq<string>, name: string)
    requires g.domains == map d | d in h.domains && d !in names :: h.domains[d]
    ensures AreOrdinary(h, names + [name]) <==> AreOrdinary(h, names) && IsOrdinary(g, name)
  {
    hide IsOrdinary;
    var all := names + [name];
    assert forall k :: 0 <= k < |names| ==> all[k] == names[k];
    assert all[|names|] == name;
    if name !in names {
      SameOrdinary(h, g, name);
    } else {
      GoneIsOrdinary(g, name);
    }
  }

  lemma {:induction false} SameOrdinary(h: Host, g: Host, name: string)
    requires name in g.domains <==> name in h.domains
    requires name in g.domains ==> g.domains[name] == h.domains[name]
    ensures IsOrdinary(h, name) <==> IsOrdinary(g, name)
  {
  }

  lemma {:induction false} GoneIsOrdinary(g: Host, name: string)
    requires name !in g.domains
    ensures IsOrdinary(g, name)
  {
  }

  /** A run in which no call fails for a reason of its own removes every configured domain, and
      returns `Ok` exactly when each of them that existed was both running and defined: a
      domain that is shut off makes the run fail although it is removed. */
  lemma {:induction false} QuietRun(p: Plan, frame: Dhcp.Frame, h: Host, fate: RunFate)
    requires IsHost(h) && forall i: nat :: IsFaultFree(fate.vms(i))
    ensures var r := Run(p, frame, h, fate);
            && (forall vm | vm in Vms(p) :: vm !in r.host.domains)
            && (r.ok <==> AreOrdinary(h, Vms(p)))
  {
    hide DestroyFirst, CleanUpScratch, Vms, IsFaultFree;
    QuietDestroyFirst(p, frame, h, fate.vms, |Vms(p)|);
    assert Vms(p)[..|Vms(p)|] == Vms(p);
    ScratchShrinks(p, DestroyFirst(p, frame, h, fate.vms, |Vms(p)|).step.host, fate.scratch);
  }

  /** A cluster of one machine that is shut off: no call fails for a reason of its own, the
      domain is gone afterwards, and the run reports a failure all the same. */
  lemma {:induction false} ShutOffIsReported(frame: Dhcp.Frame, fate: RunFate)
    requires forall i: nat :: IsFaultFree(fate.vms(i))
    ensures var p := Plan("a", [], "/pool");
            var r := Run(p, frame, Host(map["a" := Domain(false, true)], {}, []), fate);
            !r.ok && "a" !in r.host.domains
  {
    hide Run, IsFaultFree;
    var (p, h) := (Plan("a", [], "/pool"), Host(map["a" := Domain(false, true)], {}, []));
    QuietRun(p, frame, h, fate);
    assert Vms(p)[0] == "a" && !IsOrdinary(h, "a");
  }

  /** After one such run the next one returns `Ok`. */
  lemma {:induction false} SecondQuietRunIsOk(p: Plan, frame: Dhcp.Frame, h: Host, first: RunFate, second: RunFate)
    requires IsHost(h)
    requires forall i: nat :: IsFaultFree(first.vms(i))
    requires forall i: nat :: IsFaultFree(second.vms(i))
    ensures Run(p, frame, Run(p, frame, h, first).host, second).ok
  {
    hide Run, IsFaultFree, Vms;
    QuietRun(p, frame, h, first);
    var g := Run(p, frame, h, first).host;
    RunKeepsHost(p, frame, h, first);
    QuietRun(p, frame, g, second);
  }

  lemma {:induction false} RunKeepsHost(p: Plan, frame: Dhcp.Frame, h: Host, fate: RunFate)
    requires IsHost(h) && forall i: nat :: IsFaultFree(fate.vms(i))
    ensures IsHost(Run(p, frame, h, fate).host)
  {
    hide DestroyFirst, CleanUpScratch, Vms, IsFaultFree;
    QuietDestroyFirst(p, frame, h, fate.vms, |Vms(p)|);
    ScratchShrinks(p, DestroyFirst(p, frame, h, fate.vms, |Vms(p)|).step.host, fate.scratch);
  }

  /** Probes that `virsh` refuses are taken for absent domains: such a run leaves every domain
      and can still return `Ok`. */
  lemma {:induction false} RefusedProbesKeepDomains(p: Plan, frame: Dhcp.Frame, h: Host, fate: RunFate)
    requires forall i: nat :: fate.vms(i).probe.Refuses?
    requires forall i: nat, j: nat :: IsQuiet(fate.vms(i).artifacts(j))
    ensures Run(p, frame, h, fate).ok && Run(p, frame, h, fate).host.domains == h.domains
  {
    hide DestroyFirst, CleanUpScratch, Vms, IsQuiet;
    RefusedFirst(p, frame, h, fate.vms, |Vms(p)|);
    ScratchShrinks(p, DestroyFirst(p, frame, h, fate.vms, |Vms(p)|).step.host, fate.scratch);
  }

  lemma {:induction false} RefusedFirst(p: Plan, frame: Dhcp.Frame, h: Host, fates: nat -> VmFate, n: nat)
    requires n <= |Vms(p)| && forall i: nat :: fates(i).probe.Refuses?
    requires forall i: nat, j: nat :: IsQuiet(fates(i).artifacts(j))
    ensures var r := DestroyFirst(p, frame, h, fates, n);
            r.Finished? && r.step.warnings == 0 && r.step.host.domains == h.domains
  {
    hide TearDown, RemoveArtifacts, ArtifactPaths, Vms, IsQuiet;
    if n > 0 {
      RefusedFirst(p, frame, h, fates, n - 1);
      var g := DestroyFirst(p, frame, h, fates, n - 1).step.host;
      var (name, fate) := (Vms(p)[n - 1], fates(n - 1));
      QuietArtifacts(g, ArtifactPaths(p, name), fate.artifacts);
      ArtifactsGo(g, ArtifactPaths(p, name), fate.artifacts);
    }
  }

  // ---- the scratch directory --------------------------------------------------------

  lemma {:induction false} SplitWhole(a: string, c: char)
    requires c !in a
    ensures Split(a, c) == [a]
  {
  }

  lemma {:induction false} SplitAppend(a: string, c: char, b: string)
    ensures Split(a + [c] + b, c) == Split(a, c) + Split(b, c)
    decreases |a|
  {
    hide Split, IndexOf;
    var i := IndexOf(a, c);
    if i == |a| {
      SplitFirst(a, c, b);
      SplitWhole(a, c);
    } else {
      var (head, tail) := (a[..i], a[i + 1..]);
      SplitAppend(tail, c, b);
      SplitFirst(head, c, tail);
      assert a == head + [c] + tail;
      SplitFirst(head, c, tail + [c] + b);
      assert a + [c] + b == head + [c] + (tail + [c] + b);
    }
  }

  const SYSTEM := {"bin", "boot", "dev", "etc", "home", "lib", "lib64", "proc", "root", "run", "sbin", "srv", "sys",
                   "tmp", "usr", "var"}

  /** The root, or one of the system directories below it, with slashes behind from `k` on. */
  predicate IsSystemPath(path: string, k: nat)
    requires 0 < k <= |path|
  {
    (k == 1 || path[1..k] in SYSTEM) && path[0] == '/' && forall i :: k <= i < |path| ==> path[i] == '/'
  }

  lemma {:induction false} TrimmedSlashes(s: string)
    ensures var n := |TrimSlashes(s)|;
            && TrimSlashes(s) == s[..n] && (forall i :: n <= i < |s| ==> s[i] == '/')
            && (0 < n ==> s[n - 1] != '/')
  {
    if s != "" && s[|s| - 1] == '/' {
      TrimmedSlashes(s[..|s| - 1]);
    }
  }

  lemma {:induction false} BannedIff(name: string)
    ensures name != "" ==> ("/" + name in BANNED <==> name in SYSTEM)
    ensures "/" in BANNED && "" !in BANNED
    ensures name in SYSTEM ==> name != "" && name[|name| - 1] != '/'
  {
    Below("bin", "/bin", name);
    Below("boot", "/boot", name);
    Below("dev", "/dev", name);
    Below("etc", "/etc", name);
    Below("home", "/home", name);
    Below("lib", "/lib", name);
    Below("lib64", "/lib64", name);
    Below("proc", "/proc", name);
    Below("root", "/root", name);
    Below("run", "/run", name);
    Below("sbin", "/sbin", name);
    Below("srv", "/srv", name);
    Below("sys", "/sys", name);
    Below("tmp", "/tmp", name);
    Below("usr", "/usr", name);
    Below("var", "/var", name);
  }

  lemma {:induction false} Below(system: string, path: string, name: string)
    requires path == "/" + system
    ensures "/" + name == path <==> name == system
  {
    assert ("/" + name)[1..] == name && path[1..] == system;
  }

  lemma {:induction false} SystemPathEnds(path: string, k: nat, n: nat)
    requires 0 < k <= |path| && IsSystemPath(path, k)
    requires 0 < n <= |path| && path[n - 1] != '/' && forall i :: n <= i < |path| ==> path[i] == '/'
    ensures k == n && path[1..n] in SYSTEM
  {
    hide SYSTEM;
    assert n <= k;
    if 1 < k {
      BannedIff(path[1..k]);
      assert path[k - 1] == path[1..k][k - 2];
    }
  }

  /** What the guard on recursive removal refuses: a path that is empty, relative or has a `..`
      in it, the root, and the system directories, with any number of slashes behind them. */
  lemma {:induction false} RejectedIff(path: string)
    ensures IsRejected(path) <==>
      || path == "" || path[0] != '/' || ".." in Split(path, '/')
      || exists k :: 0 < k <= |path| && IsSystemPath(path, k)
  {
    hide Split, BANNED, SYSTEM, TrimSlashes, IsSystemPath;
    if path != "" && path[0] == '/' {
      BannedPathIff(path);
    }
  }

  lemma {:induction false} BannedPathIff(path: string)
    requires path != "" && path[0] == '/'
    ensures (if TrimSlashes(path) == "" then "/" else TrimSlashes(path)) in BANNED
       <==> exists k :: 0 < k <= |path| && IsSystemPath(path, k)
  {
    hide BANNED, SYSTEM, TrimSlashes;
    TrimmedSlashes(path);
    var n := |TrimSlashes(path)|;
    if n == 0 {
      BannedIff("");
      assert IsSystemPath(path, 1);
    } else {
      assert path[n - 1] != '/' && 1 < n;
      BannedIff(path[1..n]);
      assert TrimSlashes(path) == "/" + path[1..n];
      if path[1..n] in SYSTEM {
        assert IsSystemPath(path, n);
      }
      forall k | 0 < k <= |path| && IsSystemPath(path, k) ensures path[1..n] in SYSTEM {
        SystemPathEnds(path, k, n);
      }
    }
  }

  lemma {:induction false} ShortNames(t: string)
    requires |t| > 6
    ensures t !in BANNED
  {
  }

  /** The guard on recursive removal refuses the scratch directory exactly when the pool
      directory is relative or has a `..` in it. */
  lemma {:induction false} ScratchRefusedIff(p: Plan)
    ensures IsRejected(ScratchDir(p)) <==>
      (p.poolDir != "" && p.poolDir[0] != '/') || ".." in Split(p.poolDir, '/')
  {
    hide Split, BANNED;
    var leaf := "deploy-cluster";
    var s := ScratchDir(p);
    assert s == p.poolDir + ['/'] + leaf;
    SplitAppend(p.poolDir, '/', leaf);
    NoSlashLeaf();
    assert s[|s| - 1] == leaf[|leaf| - 1] == 'r';
    assert TrimSlashes(s) == s;
    ShortNames(s);
    assert s[0] == if p.poolDir == "" then '/' else p.poolDir[0];
  }

  lemma {:induction false} NoSlashLeaf()
    ensures Split("deploy-cluster", '/') == ["deploy-cluster"]
    ensures ".." != "deploy-cluster"
  {
    assert '/' !in "deploy-cluster";
  }

  /** With an absolute pool directory without `..`, a clean-up in which both calls work leaves
      nothing under the scratch directory and everything else. */
  lemma {:induction false} ScratchGoes(p: Plan, h: Host, fate: ScratchFate, f: string)
    requires (p.poolDir == "" || p.poolDir[0] == '/') && ".." !in Split(p.poolDir, '/')
    requires fate.probeWorks && fate.rmWorks && ScratchDir(p) in h.files
    ensures f in CleanUpScratch(p, h, fate).files <==> f in h.files && !IsUnder(f, ScratchDir(p))
  {
    hide IsUnder, IsRejected, Split, ScratchDir;
    ScratchRefusedIff(p);
  }

  /** Nothing at all changes when the probe fails, when the directory is not there, or when the
      guard refuses it. */
  lemma {:induction false} ScratchStays(p: Plan, h: Host, fate: ScratchFate)
    requires !fate.probeWorks || ScratchDir(p) !in h.files
             || (p.poolDir != "" && p.poolDir[0] != '/') || ".." in Split(p.poolDir, '/')
    ensures CleanUpScratch(p, h, fate) == h
  {
    hide IsUnder, IsRejected, Split, ScratchDir;
    ScratchRefusedIff(p);
  }

  /** A teardown in which no call fails takes away at most one reservation, and one with the
      machine's name: the first of them, if no line of the dump in front of the reservations is
      taken for one. */
  lemma {:induction false} ReservationGoes(p: Plan, frame: Dhcp.Frame, h: Host, name: string, fate: VmFate)
    returns (at: Option<nat>)
    requires name in Vms(p) && IsSound(p, frame, h) && IsFaultFree(fate) && fate.dumpWorks
    ensures at.Some? ==> at.value < |h.table| && h.table[at.value].name == Some(name)
    ensures TearDown(frame, h, name, fate).host.table == Dhcp.Without(h.table, at)
    ensures Dhcp.FirstHostLine(frame.before, name).None? ==> at == Dhcp.FirstNamed(h.table, name)
  {
    hide Dhcp.Dump, Dhcp.AfterRemove, Dhcp.FindHostByName, Dhcp.IsName, Dhcp.IsFrame, Dhcp.IsTable, Dhcp.FirstNamed,
         Dhcp.Without, Dhcp.FirstHostLine, OnlyClusterGoes, DestroyDomain, UndefineDomain, IsQuiet;
    var a := DestroyDomain(h, name, fate.destroy).host;
    DomainCallsSpare(p, h, name, fate.destroy);
    DomainCallsSpare(p, a, name, fate.undefine);
    NotFoundKeepsTable(frame, h.table, name);
    at := Dhcp.RemoveIsByName(frame, h.table, name, true);
  }

  lemma {:induction false} NotFoundKeepsTable(frame: Dhcp.Frame, table: seq<Dhcp.Host>, name: string)
    ensures var xml := Dhcp.Dump(frame, table);
            Dhcp.FindHostByName(xml, name).None? ==> Dhcp.AfterRemove(table, Some(xml), name, true) == table
  {
    hide Dhcp.Dump, Dhcp.FindHostByName, Dhcp.AfterDelete;
  }
}
