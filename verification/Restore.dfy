/** The etcd restore (commands/etcd.rs: the preflight, the remote script, the rollback and
    `run_restore`) as a state machine over directory names and the kubelet.

    The script may fail at any command, with or without a partly written data directory;
    the rollback may be cut off; runs repeat, one at a time.  Between runs an operator may
    move the manifests back by hand or put a new manifests directory in place. */
module Restore {
  import opened Text
  import opened Calendar
  import opened Timestamps

  // ---- directories ------------------------------------------------------------------

  datatype Dir = Dir(id: nat, inside: seq<Dir>)

  type Fs = map<string, Dir>

  const MANIFESTS := "/etc/kubernetes/manifests"
  const DISABLED := "/etc/kubernetes/manifests.disabled"
  const DATA := "/var/lib/etcd"

  /** The name the script keeps the old data directory under. */
  function Kept(timestamp: string): string {
    "/var/lib/etcd.before-restore." + timestamp
  }

  /** `mv from to`: a rename, or a move into `to` when that directory exists. */
  function Mv(fs: Fs, from: string, to: string): Option<Fs>
    requires from != to
  {
    if from !in fs then None
    else if to in fs then Some((fs - {from})[to := Dir(fs[to].id, fs[to].inside + [fs[from]])])
    else Some((fs - {from})[to := fs[from]])
  }

  lemma {:induction false} NamesDiffer(timestamp: string)
    ensures MANIFESTS != DISABLED && DATA != Kept(timestamp)
    ensures Kept(timestamp) != MANIFESTS && Kept(timestamp) != DISABLED
    ensures DATA != MANIFESTS && DATA != DISABLED
  {
    assert |MANIFESTS| < |DISABLED|;
    assert |DATA| < |Kept(timestamp)|;
    assert Kept(timestamp)[1] == 'v' && MANIFESTS[1] == 'e' && DISABLED[1] == 'e' && DATA[1] == 'v';
  }

  // ---- the protocol -----------------------------------------------------------------

  /** The script's commands, in order; each name is the command about to run. */
  datatype Command = Disable | Sleep | StopKubelet | KeepData | Podman | Enable | StartKubelet | RemoveSnapshot

  /** `second` is the clock reading that names the kept directory, `at` the command the script
      is at and `failedAt` the one it failed at; `moved` is the data directory the run has
      moved aside and `restored` the one it has written. */
  datatype Phase =
    | Idle
    | Checked
    | Ready
    | Script(second: nat, at: Command, moved: Option<nat>, restored: Option<nat>)
    | Failed(second: nat, failedAt: Command, moved: Option<nat>)
    | MovedBack
    | RolledBack
    | Restored(second: nat, moved: Option<nat>, restored: Option<nat>)

  /** `ever` remembers every data directory that has been at `/var/lib/etcd`; `ids` is the
      number of directories made so far. */
  datatype System = System(fs: Fs, kubelet: bool, clock: nat, phase: Phase, ids: nat, ever: set<nat>)

  datatype Action =
    | Preflight
    | Prepare                       // upload the snapshot, pick the image
    | Begin
    | Run                           // the next command of the script succeeds
    | Fail                          // it fails, and the script ends
    | FailPartly                    // podman fails after creating the data directory
    | RollbackMove
    | RollbackStart(started: bool)
    | CutOff                        // the operator's side stops, whatever it was doing
    // the outside
    | EtcdStarts                    // the static pod creates its data directory
    | MoveBackByHand
    | RecreateManifests
    | Kubelet(running: bool)
    | Tick

  function MakeData(s: System): System {
    s.(fs := s.fs[DATA := Dir(s.ids, [])], ids := s.ids + 1, ever := s.ever + {s.ids})
  }

  function RunCommand(s: System): Option<System>
    requires s.phase.Script?
  {
    var p := s.phase;
    NamesDiffer(if p.second <= LAST_FOUR_DIGIT_SECOND then FormatUtcTimestamp(p.second) else "");
    match p.at
    case Disable =>
      (match Mv(s.fs, MANIFESTS, DISABLED)
       case Some(fs) => Some(s.(fs := fs, phase := p.(at := Sleep)))
       case None => None)
    case Sleep => Some(s.(clock := s.clock + 10, phase := p.(at := StopKubelet)))
    case StopKubelet => Some(s.(kubelet := false, phase := p.(at := KeepData)))
    case KeepData =>
      if p.second > LAST_FOUR_DIGIT_SECOND then None
      else
        (match Mv(s.fs, DATA, Kept(FormatUtcTimestamp(p.second)))
         case Some(fs) => Some(s.(fs := fs, phase := p.(at := Podman, moved := Some(s.fs[DATA].id))))
         case None => None)
    case Podman =>
      if DATA in s.fs then None
      else Some(MakeData(s).(phase := p.(at := Enable, restored := Some(s.ids))))
    case Enable =>
      (match Mv(s.fs, DISABLED, MANIFESTS)
       case Some(fs) => Some(s.(fs := fs, phase := p.(at := StartKubelet)))
       case None => None)
    case StartKubelet => Some(s.(kubelet := true, phase := p.(at := RemoveSnapshot)))
    case RemoveSnapshot => Some(s.(phase := Restored(p.second, p.moved, p.restored)))
  }

  /** What an action does, or `None` where it cannot happen. */
  function Apply(s: System, a: Action): Option<System> {
    match a
    case Preflight =>
      if !s.phase.Idle? then None
      else if DISABLED in s.fs then Some(s)
      else Some(s.(phase := Checked))
    case Prepare => if s.phase.Checked? then Some(s.(phase := Ready)) else None
    case Begin =>
      if s.phase.Ready? && s.clock <= LAST_FOUR_DIGIT_SECOND
      then Some(s.(phase := Script(s.clock, Disable, None, None))) else None
    case Run => if s.phase.Script? then RunCommand(s) else None
    case Fail => if s.phase.Script? then Some(s.(phase := Failed(s.phase.second, s.phase.at, s.phase.moved))) else None
    case FailPartly =>
      if s.phase.Script? && s.phase.at.Podman? && DATA !in s.fs
      then Some(MakeData(s).(phase := Failed(s.phase.second, Podman, s.phase.moved))) else None
    case RollbackMove =>
      if !s.phase.Failed? then None
      else if DISABLED in s.fs && MANIFESTS !in s.fs then
        NamesDiffer("");
        (match Mv(s.fs, DISABLED, MANIFESTS)
         case Some(fs) => Some(s.(fs := fs, phase := MovedBack))
         case None => None)
      else Some(s.(phase := MovedBack))
    case RollbackStart(started) =>
      if s.phase.MovedBack? then Some(s.(kubelet := started || s.kubelet, phase := RolledBack)) else None
    case CutOff => Some(s.(phase := Idle))
    case EtcdStarts =>
      if s.kubelet && MANIFESTS in s.fs && DATA !in s.fs then Some(MakeData(s)) else None
    case MoveBackByHand =>
      if s.phase.Idle? && DISABLED in s.fs && MANIFESTS !in s.fs then
        NamesDiffer("");
        (match Mv(s.fs, DISABLED, MANIFESTS)
         case Some(fs) => Some(s.(fs := fs))
         case None => None)
      else None
    case RecreateManifests =>
      if s.phase.Idle? && MANIFESTS !in s.fs
      then Some(s.(fs := s.fs[MANIFESTS := Dir(s.ids, [])], ids := s.ids + 1)) else None
    case Kubelet(running) => Some(s.(kubelet := running))
    case Tick => Some(s.(clock := s.clock + 1))
  }

  // ---- what holds in every state ----------------------------------------------------

  /** No directory has been moved into another one. */
  predicate NothingNested(fs: Fs) {
    forall path | path in fs :: fs[path].inside == []
  }

  /** `path` is where data directories may be found. */
  ghost predicate IsDataPath(path: string) {
    path == DATA || exists t: nat :: t <= LAST_FOUR_DIGIT_SECOND && path == Kept(FormatUtcTimestamp(t))
  }

  ghost predicate IsKept(s: System, id: nat) {
    exists path :: path in s.fs && IsDataPath(path) && s.fs[path].id == id
  }

  /** Every data directory that was ever at `/var/lib/etcd` is there or under a kept name. */
  ghost predicate DataIsKept(s: System) {
    forall id | id in s.ever :: IsKept(s, id)
  }

  /** The names that later runs will keep data under are free. */
  predicate LaterNamesAreFree(s: System) {
    forall t: nat | s.clock <= t <= LAST_FOUR_DIGIT_SECOND :: Kept(FormatUtcTimestamp(t)) !in s.fs
  }

  predicate PhaseInv(s: System) {
    match s.phase
    case Idle => true
    case Checked => DISABLED !in s.fs
    case Ready => DISABLED !in s.fs
    case Script(second, at, moved, restored) =>
      && second <= LAST_FOUR_DIGIT_SECOND && second <= s.clock
      && (at.Disable? ==> DISABLED !in s.fs)
      && (at.Sleep? || at.StopKubelet? || at.KeepData? || at.Podman? || at.Enable? ==> MANIFESTS !in s.fs)
      && (at.StartKubelet? || at.RemoveSnapshot? ==> MANIFESTS in s.fs && DISABLED !in s.fs)
      && (at.StopKubelet? || at.KeepData? ==> second < s.clock)
      && (at.Disable? || at.Sleep? || at.StopKubelet? || at.KeepData? ==>
            moved.None? && Kept(FormatUtcTimestamp(second)) !in s.fs)
      && (at.Podman? || at.Enable? || at.StartKubelet? || at.RemoveSnapshot? ==>
            second < s.clock && moved.Some? && KeptAs(s, second, moved.value))
      && (at.Enable? || at.StartKubelet? || at.RemoveSnapshot? ==>
            restored.Some? && DATA in s.fs && s.fs[DATA].id == restored.value)
    case Failed(second, at, moved) =>
      && second <= LAST_FOUR_DIGIT_SECOND && !(MANIFESTS in s.fs && DISABLED in s.fs)
      && (moved.Some? <==> IsAfterMove(at))
      && (if moved.Some? then KeptAs(s, second, moved.value) else Kept(FormatUtcTimestamp(second)) !in s.fs)
    case MovedBack => DISABLED !in s.fs
    case RolledBack => DISABLED !in s.fs
    case Restored(second, moved, restored) =>
      && second <= LAST_FOUR_DIGIT_SECOND && MANIFESTS in s.fs && DISABLED !in s.fs
      && moved.Some? && KeptAs(s, second, moved.value)
      && restored.Some? && DATA in s.fs && s.fs[DATA].id == restored.value
  }

  /** The commands behind the one that moves the data directory. */
  predicate IsAfterMove(at: Command) {
    at.Podman? || at.Enable? || at.StartKubelet? || at.RemoveSnapshot?
  }

  predicate KeptAs(s: System, second: nat, id: nat)
    requires second <= LAST_FOUR_DIGIT_SECOND
  {
    var path := Kept(FormatUtcTimestamp(second));
    path in s.fs && s.fs[path].id == id
  }

  ghost predicate PathsInv(s: System) {
    && NothingNested(s.fs) && DataIsKept(s) && LaterNamesAreFree(s) && PhaseInv(s)
    && (DATA in s.fs ==> s.fs[DATA].id in s.ever)
  }

  /** No two directories are the same, and new ones will differ from all that ever were. */
  predicate IdsAreDistinct(s: System) {
    && (forall p | p in s.fs :: s.fs[p].id < s.ids)
    && (forall p, q | p in s.fs && q in s.fs && p != q :: s.fs[p].id != s.fs[q].id)
    && (forall id | id in s.ever :: id < s.ids)
  }

  ghost predicate Inv(s: System) {
    PathsInv(s) && IdsAreDistinct(s)
  }

  /** The manifests are under one of their two names and not under both. */
  predicate OneManifests(s: System) {
    MANIFESTS in s.fs <==> DISABLED !in s.fs
  }

  /** A cluster before its first restore. */
  ghost predicate Init(s: System) {
    && s.phase.Idle? && MANIFESTS in s.fs && DISABLED !in s.fs
    && NothingNested(s.fs) && LaterNamesAreFree(s) && IdsAreDistinct(s)
    && s.ever == if DATA in s.fs then {s.fs[DATA].id} else {}
  }

  // ---- every action keeps it --------------------------------------------------------

  lemma {:induction false} InitIsInv(s: System)
    requires Init(s)
    ensures Inv(s) && OneManifests(s)
  {
    if DATA in s.fs {
      assert IsDataPath(DATA);
    }
  }

  /** Moving a data directory to a free kept name loses nothing. */
  lemma {:induction false} KeepingKeeps(s: System, s': System, second: nat)
    requires second <= LAST_FOUR_DIGIT_SECOND
    requires DATA in s.fs && Kept(FormatUtcTimestamp(second)) !in s.fs
    requires s'.fs == (s.fs - {DATA})[Kept(FormatUtcTimestamp(second)) := s.fs[DATA]]
    requires s'.ever == s.ever && DataIsKept(s)
    ensures DataIsKept(s')
  {
    hide FormatUtcTimestamp, Kept;
    var kept := Kept(FormatUtcTimestamp(second));
    forall id | id in s'.ever ensures IsKept(s', id) {
      assert IsKept(s, id);
      var path :| path in s.fs && IsDataPath(path) && s.fs[path].id == id;
      var path' := if path == DATA then kept else path;
      assert path' in s'.fs && IsDataPath(path') && s'.fs[path'].id == id;
    }
  }

  /** Changes to other names, and new data directories, lose nothing. */
  lemma {:induction false} OthersKeep(s: System, s': System)
    requires DataIsKept(s)
    requires forall path | path in s.fs && path != MANIFESTS && path != DISABLED ::
      path in s'.fs && s'.fs[path] == s.fs[path]
    requires forall id | id in s'.ever :: id in s.ever || (DATA in s'.fs && s'.fs[DATA].id == id)
    ensures DataIsKept(s')
  {
    hide FormatUtcTimestamp;
    forall id | id in s'.ever ensures IsKept(s', id) {
      if id in s.ever {
        assert IsKept(s, id);
        var path :| path in s.fs && IsDataPath(path) && s.fs[path].id == id;
        DataPathsDiffer(path);
        assert path in s'.fs && IsDataPath(path) && s'.fs[path].id == id;
      } else {
        assert IsDataPath(DATA);
      }
    }
  }

  lemma {:induction false} DataPathsDiffer(path: string)
    requires IsDataPath(path)
    ensures path != MANIFESTS && path != DISABLED
  {
    hide FormatUtcTimestamp;
    if path == DATA {
      NamesDiffer("");
    } else {
      var t: nat :| t <= LAST_FOUR_DIGIT_SECOND && path == Kept(FormatUtcTimestamp(t));
      NamesDiffer(FormatUtcTimestamp(t));
    }
  }

  lemma {:induction false} AllNamesDiffer()
    ensures MANIFESTS != DISABLED && DATA != MANIFESTS && DATA != DISABLED
    ensures forall t: nat | t <= LAST_FOUR_DIGIT_SECOND ::
      var k := Kept(FormatUtcTimestamp(t)); k != DATA && k != MANIFESTS && k != DISABLED
  {
    hide FormatUtcTimestamp;
    NamesDiffer("");
    forall t: nat | t <= LAST_FOUR_DIGIT_SECOND
      ensures var k := Kept(FormatUtcTimestamp(t)); k != DATA && k != MANIFESTS && k != DISABLED
    {
      NamesDiffer(FormatUtcTimestamp(t));
    }
  }

  lemma {:induction false} KeptNamesDiffer(second: nat)
    requires second <= LAST_FOUR_DIGIT_SECOND
    ensures forall t: nat | second < t <= LAST_FOUR_DIGIT_SECOND ::
      Kept(FormatUtcTimestamp(t)) != Kept(FormatUtcTimestamp(second))
  {
    hide FormatUtcTimestamp;
    forall t: nat | second < t <= LAST_FOUR_DIGIT_SECOND
      ensures Kept(FormatUtcTimestamp(t)) != Kept(FormatUtcTimestamp(second))
    {
      NamesDistinct(second, t);
      var n := |Kept("")|;
      assert Kept(FormatUtcTimestamp(t))[n..] == FormatUtcTimestamp(t);
      assert Kept(FormatUtcTimestamp(second))[n..] == FormatUtcTimestamp(second);
    }
  }

  lemma {:induction false} KeepDataKeepsPaths(s: System)
    requires PathsInv(s) && s.phase.Script? && s.phase.at.KeepData? && RunCommand(s).Some?
    ensures PathsInv(RunCommand(s).value)
  {
    hide FormatUtcTimestamp, Kept;
    AllNamesDiffer();
    KeptNamesDiffer(s.phase.second);
    KeepingKeeps(s, RunCommand(s).value, s.phase.second);
  }

  lemma {:induction false} ManifestCommandKeepsPaths(s: System)
    requires PathsInv(s) && s.phase.Script? && (s.phase.at.Disable? || s.phase.at.Enable?) && RunCommand(s).Some?
    ensures PathsInv(RunCommand(s).value)
  {
    hide FormatUtcTimestamp, Kept;
    AllNamesDiffer();
    OthersKeep(s, RunCommand(s).value);
  }

  lemma {:induction false} PlainCommandKeepsPaths(s: System)
    requires PathsInv(s) && s.phase.Script? && RunCommand(s).Some?
    requires !(s.phase.at.KeepData? || s.phase.at.Disable? || s.phase.at.Enable?)
    ensures PathsInv(RunCommand(s).value)
  {
    hide FormatUtcTimestamp, Kept;
    AllNamesDiffer();
    OthersKeep(s, RunCommand(s).value);
  }

  /** Rolling back and the operator's own moves. */
  lemma {:induction false} MovingBackKeepsPaths(s: System, a: Action)
    requires PathsInv(s) && Apply(s, a).Some?
    requires a.RollbackMove? || a.MoveBackByHand? || a.RecreateManifests?
    ensures PathsInv(Apply(s, a).value)
  {
    hide FormatUtcTimestamp, Kept;
    AllNamesDiffer();
    OthersKeep(s, Apply(s, a).value);
  }

  /** A data directory appears where there was none. */
  lemma {:induction false} DataStepKeepsPaths(s: System, a: Action)
    requires PathsInv(s) && Apply(s, a).Some? && (a.FailPartly? || a.EtcdStarts?)
    ensures PathsInv(Apply(s, a).value)
  {
    hide FormatUtcTimestamp, Kept;
    AllNamesDiffer();
    OthersKeep(s, Apply(s, a).value);
  }

  lemma {:induction false} OtherStepKeepsPaths(s: System, a: Action)
    requires PathsInv(s) && Apply(s, a).Some?
    requires !(a.Run? || a.RollbackMove? || a.MoveBackByHand? || a.RecreateManifests? || a.FailPartly? || a.EtcdStarts?)
    ensures PathsInv(Apply(s, a).value)
  {
    hide FormatUtcTimestamp, Kept, IsDataPath, RunCommand, Mv;
    SamePathsKeep(s, Apply(s, a).value);
  }

  lemma {:induction false} SamePathsKeep(s: System, s': System)
    requires DataIsKept(s) && s'.fs == s.fs && s'.ever == s.ever
    ensures DataIsKept(s')
  {
    hide IsDataPath;
    forall id | id in s'.ever ensures IsKept(s', id) {
      assert IsKept(s, id);
    }
  }

  lemma {:induction false} MvKeepsIds(fs: Fs, from: string, to: string, ids: nat)
    requires from != to && Mv(fs, from, to).Some?
    requires forall p | p in fs :: fs[p].id < ids
    requires forall p, q | p in fs && q in fs && p != q :: fs[p].id != fs[q].id
    ensures var r := Mv(fs, from, to).value;
            && (forall p | p in r :: r[p].id < ids)
            && (forall p, q | p in r && q in r && p != q :: r[p].id != r[q].id)
  {
  }

  lemma {:induction false} StepKeepsIds(s: System, a: Action)
    requires IdsAreDistinct(s) && Apply(s, a).Some?
    ensures IdsAreDistinct(Apply(s, a).value)
  {
    hide FormatUtcTimestamp, Kept, Mv;
    AllNamesDiffer();
    if a.Run? {
      CommandKeepsIds(s);
    } else if (a.RollbackMove? || a.MoveBackByHand?) && DISABLED in s.fs && MANIFESTS !in s.fs {
      if Mv(s.fs, DISABLED, MANIFESTS).Some? {
        MvKeepsIds(s.fs, DISABLED, MANIFESTS, s.ids);
      }
    }
  }

  lemma {:induction false} CommandKeepsIds(s: System)
    requires IdsAreDistinct(s) && s.phase.Script? && RunCommand(s).Some?
    ensures IdsAreDistinct(RunCommand(s).value)
  {
    hide FormatUtcTimestamp, Kept, Mv;
    AllNamesDiffer();
    match s.phase.at
    case Disable => MvKeepsIds(s.fs, MANIFESTS, DISABLED, s.ids);
    case KeepData => MvKeepsIds(s.fs, DATA, Kept(FormatUtcTimestamp(s.phase.second)), s.ids);
    case Enable => MvKeepsIds(s.fs, DISABLED, MANIFESTS, s.ids);
    case _ =>
  }

  lemma {:induction false} StepKeepsInv(s: System, a: Action)
    requires Inv(s) && Apply(s, a).Some?
    ensures Inv(Apply(s, a).value)
  {
    hide PathsInv, RunCommand, IdsAreDistinct;
    StepKeepsIds(s, a);
    match a
    case Run =>
      if s.phase.at.KeepData? {
        KeepDataKeepsPaths(s);
      } else if s.phase.at.Disable? || s.phase.at.Enable? {
        ManifestCommandKeepsPaths(s);
      } else {
        PlainCommandKeepsPaths(s);
      }
    case RollbackMove => MovingBackKeepsPaths(s, a);
    case MoveBackByHand => MovingBackKeepsPaths(s, a);
    case RecreateManifests => MovingBackKeepsPaths(s, a);
    case FailPartly => DataStepKeepsPaths(s, a);
    case EtcdStarts => DataStepKeepsPaths(s, a);
    case _ => OtherStepKeepsPaths(s, a);
  }

  // ---- whole executions -------------------------------------------------------------

  ghost predicate NextBy(s: System, a: Action, s': System) {
    Apply(s, a) == Some(s')
  }

  /** A run of the system and the actions that make it up. */
  ghost predicate Execution(run: seq<System>, acts: seq<Action>) {
    && |run| == |acts| + 1 && Init(run[0])
    && forall i :: 0 <= i < |acts| ==> NextBy(run[i], acts[i], run[i + 1])
  }

  lemma {:induction false} ExecutionKeepsInv(run: seq<System>, acts: seq<Action>, i: nat)
    requires Execution(run, acts) && i < |run|
    ensures Inv(run[i])
  {
    hide Inv, Apply, Init;
    if i == 0 {
      InitIsInv(run[0]);
    } else {
      ExecutionKeepsInv(run, acts, i - 1);
      assert NextBy(run[i - 1], acts[i - 1], run[i - 1 + 1]);
      StepKeepsInv(run[i - 1], acts[i - 1]);
    }
  }

  /** Over every execution no directory is ever moved into another one, every data
      directory that was ever at `/var/lib/etcd` is still there or under a kept name, and
      a completed rollback leaves the manifests in place. */
  lemma {:induction false} NothingIsLost(run: seq<System>, acts: seq<Action>, i: nat)
    requires Execution(run, acts) && i < |run|
    ensures NothingNested(run[i].fs) && DataIsKept(run[i]) && IdsAreDistinct(run[i])
    ensures run[i].phase.RolledBack? || run[i].phase.Restored? ==> DISABLED !in run[i].fs
  {
    ExecutionKeepsInv(run, acts, i);
  }

  lemma {:induction false} StepKeepsOneManifests(s: System, a: Action)
    requires Inv(s) && OneManifests(s) && !a.RecreateManifests? && Apply(s, a).Some?
    ensures OneManifests(Apply(s, a).value)
  {
    hide FormatUtcTimestamp, Kept;
    AllNamesDiffer();
  }

  /** Unless somebody makes a new manifests directory, there is exactly one, under exactly
      one of its two names; after a completed rollback or restore it is the live one. */
  lemma {:induction false} ExactlyOneManifests(run: seq<System>, acts: seq<Action>, i: nat)
    requires Execution(run, acts) && i < |run|
    requires forall k :: 0 <= k < |acts| ==> !acts[k].RecreateManifests?
    ensures OneManifests(run[i])
    ensures run[i].phase.RolledBack? || run[i].phase.Restored? ==> MANIFESTS in run[i].fs
  {
    hide Apply, Init;
    ExecutionKeepsInv(run, acts, i);
    if i == 0 {
      InitIsInv(run[0]);
    } else {
      ExactlyOneManifests(run, acts, i - 1);
      ExecutionKeepsInv(run, acts, i - 1);
      assert NextBy(run[i - 1], acts[i - 1], run[i - 1 + 1]);
      StepKeepsOneManifests(run[i - 1], acts[i - 1]);
    }
  }

  lemma {:induction false} RefusedStep(s: System, a: Action)
    requires s.phase.Idle? && DISABLED in s.fs && !a.MoveBackByHand? && Apply(s, a).Some?
    ensures var t := Apply(s, a).value;
            t.phase.Idle? && forall p | p in s.fs :: p in t.fs && t.fs[p] == s.fs[p]
  {
    hide FormatUtcTimestamp;
  }

  /** While a disabled manifests directory is there and nobody moves it back by hand, no run
      gets past the preflight, however often it is started, and every directory stays where
      it is. */
  lemma {:induction false} RefusedRunChangesNothing(run: seq<System>, acts: seq<Action>, i: nat, j: nat)
    requires Execution(run, acts) && i <= j < |run| && run[i].phase.Idle? && DISABLED in run[i].fs
    requires forall k :: i <= k < j ==> !acts[k].MoveBackByHand?
    ensures run[j].phase.Idle? && forall p | p in run[i].fs :: p in run[j].fs && run[j].fs[p] == run[i].fs[p]
    decreases j
  {
    hide Apply, Init;
    if i < j {
      RefusedRunChangesNothing(run, acts, i, j - 1);
      assert NextBy(run[j - 1], acts[j - 1], run[j - 1 + 1]);
      RefusedStep(run[j - 1], acts[j - 1]);
    }
  }

  // ---- the kubelet ------------------------------------------------------------------

  /** Nobody outside starts or stops the kubelet. */
  predicate KubeletLeftAlone(acts: seq<Action>) {
    forall k :: 0 <= k < |acts| ==> !acts[k].Kubelet?
  }

  /** The script has stopped the kubelet and has not started it again. */
  predicate IsStopped(p: Phase) {
    p.Script? && (p.at.KeepData? || p.at.Podman? || p.at.Enable? || p.at.StartKubelet?)
  }

  /** The script has started the kubelet again. */
  predicate IsStarted(p: Phase) {
    p.Restored? || (p.Script? && p.at.RemoveSnapshot?)
  }

  predicate KubeletInv(s: System) {
    (IsStopped(s.phase) ==> !s.kubelet) && (IsStarted(s.phase) ==> s.kubelet)
  }

  /** What changes the kubelet: the script's two commands, a rollback that starts it, and the
      outside. */
  lemma {:induction false} KubeletStep(s: System, a: Action)
    requires Apply(s, a).Some?
    ensures var t := Apply(s, a).value;
            && (KubeletInv(s) && !a.Kubelet? ==> KubeletInv(t))
            && (a == RollbackStart(true) ==> t.phase.RolledBack? && t.kubelet)
            && (t.kubelet != s.kubelet ==>
                  || a.Kubelet? || (a.RollbackStart? && a.started)
                  || (a.Run? && s.phase.Script? && if s.kubelet then s.phase.at.StopKubelet? else s.phase.at.StartKubelet?))
            && (a.Run? && s.phase.Script? && s.phase.at.StopKubelet? ==> !t.kubelet)
            && (a.Run? && s.phase.Script? && s.phase.at.StartKubelet? ==> t.kubelet)
  {
    hide FormatUtcTimestamp, Kept, Mv;
  }

  /** From before the script on, as long as nobody else touches it, the kubelet is stopped from
      the script's stop to its start, and runs from then on and when the run has succeeded. */
  lemma {:induction false} KubeletFollowsScript(run: seq<System>, acts: seq<Action>, i: nat, j: nat)
    requires Execution(run, acts) && i <= j < |run|
    requires !IsStopped(run[i].phase) && !IsStarted(run[i].phase)
    requires |run| == |acts| + 1 && KubeletLeftAlone(acts[i..j])
    ensures IsStopped(run[j].phase) ==> !run[j].kubelet
    ensures IsStarted(run[j].phase) ==> run[j].kubelet
    decreases j
  {
    hide Apply, Init, IsStopped, IsStarted;
    if i < j {
      assert acts[i..j][..j - 1 - i] == acts[i..j - 1];
      assert acts[i..j][j - 1 - i] == acts[j - 1];
      KubeletFollowsScript(run, acts, i, j - 1);
      assert NextBy(run[j - 1], acts[j - 1], run[j - 1 + 1]);
      KubeletStep(run[j - 1], acts[j - 1]);
    }
  }

  /** After a rollback that started the kubelet it runs, as long as nobody else touches it and
      no new run begins. */
  lemma {:induction false} KubeletRunsAfterRollback(run: seq<System>, acts: seq<Action>, i: nat, j: nat)
    requires Execution(run, acts) && i < j < |run| && |run| == |acts| + 1
    requires acts[i] == RollbackStart(true) && KubeletLeftAlone(acts[i..j])
    requires forall k :: i < k <= j ==> !run[k].phase.Script?
    ensures run[j].kubelet
    decreases j
  {
    hide Apply, Init;
    assert NextBy(run[j - 1], acts[j - 1], run[j - 1 + 1]);
    KubeletStep(run[j - 1], acts[j - 1]);
    assert acts[i..j][j - 1 - i] == acts[j - 1];
    if i + 1 < j {
      assert acts[i..j][..j - 1 - i] == acts[i..j - 1];
      KubeletRunsAfterRollback(run, acts, i, j - 1);
    }
  }

  /** A restore that reports success has the manifests in place, its own data directory at
      `/var/lib/etcd` and the one it found there under this run's kept name; and the kubelet
      runs if nobody else has touched it since the run was ready. */
  lemma {:induction false} SuccessfulRestore(run: seq<System>, acts: seq<Action>, i: nat)
    requires Execution(run, acts) && i < |run| && run[i].phase.Restored?
    ensures var (s, p) := (run[i], run[i].phase);
            && MANIFESTS in s.fs && DISABLED !in s.fs
            && p.restored.Some? && DATA in s.fs && s.fs[DATA].id == p.restored.value
            && p.second <= LAST_FOUR_DIGIT_SECOND && p.moved.Some? && KeptAs(s, p.second, p.moved.value)
    ensures |run| == |acts| + 1
    ensures forall k :: 0 <= k <= i && run[k].phase.Ready? && KubeletLeftAlone(acts[k..i]) ==> run[i].kubelet
  {
    hide Apply, Init, KubeletLeftAlone;
    ExecutionKeepsInv(run, acts, i);
    forall k | 0 <= k <= i && run[k].phase.Ready? && KubeletLeftAlone(acts[k..i]) ensures run[i].kubelet {
      KubeletFollowsScript(run, acts, k, i);
    }
  }

  /** The failure message names a kept directory in every case; it exists exactly when the
      script failed at a command behind the one that moves the data directory. */
  lemma {:induction false} FailureMessageIsTrue(run: seq<System>, acts: seq<Action>, i: nat)
    requires Execution(run, acts) && i < |run| && run[i].phase.Failed?
    ensures run[i].phase.second <= LAST_FOUR_DIGIT_SECOND
    ensures Kept(FormatUtcTimestamp(run[i].phase.second)) in run[i].fs <==> IsAfterMove(run[i].phase.failedAt)
  {
    ExecutionKeepsInv(run, acts, i);
  }

  /** A run whose script fails at its first command: the message names a directory that is
      not there. */
  lemma {:induction false} FailureMessageCanBeFalse() returns (run: seq<System>, acts: seq<Action>)
    ensures Execution(run, acts)
    ensures var s := run[|run| - 1];
            s.phase == Failed(0, Disable, None) && Kept(FormatUtcTimestamp(0)) !in s.fs
  {
    hide FormatUtcTimestamp, Kept;
    AllNamesDiffer();
    var s0 := System(map[MANIFESTS := Dir(0, []), DATA := Dir(1, [])], true, 0, Idle, 2, {1});
    acts := [Preflight, Prepare, Begin, Fail];
    var s1 := s0.(phase := Checked);
    var s2 := s0.(phase := Ready);
    var s3 := s0.(phase := Script(0, Disable, None, None));
    var s4 := s0.(phase := Failed(0, Disable, None));
    run := [s0, s1, s2, s3, s4];
    assert NextBy(s0, Preflight, s1) && NextBy(s1, Prepare, s2) && NextBy(s2, Begin, s3) && NextBy(s3, Fail, s4);
  }

  // ---- runs that nothing disturbs ---------------------------------------------------

  /** The execution `run` leads from `start` to `s`. */
  ghost predicate EndsIn(run: seq<System>, acts: seq<Action>, start: System, s: System) {
    Execution(run, acts) && run[0] == start && run[|run| - 1] == s
  }

  lemma {:induction false} Extended(run: seq<System>, acts: seq<Action>, start: System, s: System, a: Action)
    returns (run': seq<System>, acts': seq<Action>)
    requires EndsIn(run, acts, start, s) && Apply(s, a).Some?
    ensures EndsIn(run', acts', start, Apply(s, a).value) && acts' == acts + [a]
  {
    hide Apply, Init;
    run', acts' := run + [Apply(s, a).value], acts + [a];
    forall i | 0 <= i < |acts'| ensures NextBy(run'[i], acts'[i], run'[i + 1]) {
      if i < |acts| {
        assert NextBy(run[i], acts[i], run[i + 1]);
      }
    }
  }

  /** From every first start with a data directory, a run in which each step works leaves the
      manifests where they were, the old data under the kept name of the second in which the
      script began, a new data directory in its place, nothing else changed, and the kubelet
      running. */
  lemma {:induction false} QuietRestore(s: System) returns (run: seq<System>, acts: seq<Action>)
    requires Init(s) && DATA in s.fs && s.clock <= LAST_FOUR_DIGIT_SECOND
    ensures var fs := s.fs[Kept(FormatUtcTimestamp(s.clock)) := s.fs[DATA]][DATA := Dir(s.ids, [])];
            EndsIn(run, acts, s, System(fs, true, s.clock + 10, Restored(s.clock, Some(s.fs[DATA].id), Some(s.ids)),
                                        s.ids + 1, s.ever + {s.ids}))
    ensures acts == [Preflight, Prepare, Begin, Run, Run, Run, Run, Run, Run, Run, Run]
  {
    hide EndsIn, FormatUtcTimestamp, Kept, Init;
    AllNamesDiffer();
    StartFacts(s);
    run, acts := DataIsMoved(s);
    var t := AfterMove(s);
    run, acts := Extended(run, acts, s, t, Run);
    t := MakeData(t).(phase := Script(s.clock, Enable, Some(s.fs[DATA].id), Some(s.ids)));
    run, acts := Extended(run, acts, s, t, Run);
    var fs := s.fs[Kept(FormatUtcTimestamp(s.clock)) := s.fs[DATA]][DATA := Dir(s.ids, [])];
    ManifestsComeBack(s.fs, Kept(FormatUtcTimestamp(s.clock)), Dir(s.ids, []));
    t := t.(fs := fs, phase := t.phase.(at := StartKubelet));
    run, acts := Extended(run, acts, s, t, Run);
    t := t.(kubelet := true, phase := t.phase.(at := RemoveSnapshot));
    run, acts := Extended(run, acts, s, t, Run);
  }

  /** Where the script is after its fifth command: manifests and data moved aside. */
  function AfterMove(s: System): System
    requires MANIFESTS in s.fs && DATA in s.fs && s.clock <= LAST_FOUR_DIGIT_SECOND
  {
    var fs := (s.fs - {MANIFESTS, DATA})[DISABLED := s.fs[MANIFESTS]][Kept(FormatUtcTimestamp(s.clock)) := s.fs[DATA]];
    s.(fs := fs, kubelet := false, clock := s.clock + 10, phase := Script(s.clock, Podman, Some(s.fs[DATA].id), None))
  }

  lemma {:induction false} DataGoes(fs: Fs, kept: string)
    requires MANIFESTS in fs && DATA in fs && kept !in fs && kept != DATA && kept != DISABLED && DATA != DISABLED
    requires DATA != MANIFESTS
    ensures Mv((fs - {MANIFESTS})[DISABLED := fs[MANIFESTS]], DATA, kept)
         == Some((fs - {MANIFESTS, DATA})[DISABLED := fs[MANIFESTS]][kept := fs[DATA]])
  {
    var moved := (fs - {MANIFESTS})[DISABLED := fs[MANIFESTS]];
    assert (moved - {DATA})[kept := moved[DATA]] == (fs - {MANIFESTS, DATA})[DISABLED := fs[MANIFESTS]][kept := fs[DATA]];
  }

  lemma {:induction false} ManifestsComeBack(fs: Fs, kept: string, data: Dir)
    requires MANIFESTS in fs && DATA in fs && DISABLED !in fs && kept !in fs
    requires kept != DATA && kept != DISABLED && kept != MANIFESTS
    requires DATA != DISABLED && DATA != MANIFESTS && MANIFESTS != DISABLED
    ensures Mv((fs - {MANIFESTS, DATA})[DISABLED := fs[MANIFESTS]][kept := fs[DATA]][DATA := data], DISABLED, MANIFESTS)
         == Some(fs[kept := fs[DATA]][DATA := data])
  {
    var g := (fs - {MANIFESTS, DATA})[DISABLED := fs[MANIFESTS]][kept := fs[DATA]][DATA := data];
    assert (g - {DISABLED})[MANIFESTS := g[DISABLED]] == fs[kept := fs[DATA]][DATA := data];
  }

  lemma {:induction false} DataIsMoved(s: System) returns (run: seq<System>, acts: seq<Action>)
    requires Init(s) && DATA in s.fs && s.clock <= LAST_FOUR_DIGIT_SECOND && MANIFESTS in s.fs
    ensures EndsIn(run, acts, s, AfterMove(s))
    ensures acts == [Preflight, Prepare, Begin, Run, Run, Run, Run]
  {
    hide EndsIn, FormatUtcTimestamp, Kept, Init;
    AllNamesDiffer();
    StartFacts(s);
    run, acts := Extended([s], [], s, s, Preflight);
    run, acts := Extended(run, acts, s, s.(phase := Checked), Prepare);
    run, acts := Extended(run, acts, s, s.(phase := Ready), Begin);
    var t := s.(phase := Script(s.clock, Disable, None, None));
    run, acts := Extended(run, acts, s, t, Run);
    t := t.(fs := (s.fs - {MANIFESTS})[DISABLED := s.fs[MANIFESTS]], phase := t.phase.(at := Sleep));
    run, acts := Extended(run, acts, s, t, Run);
    t := t.(clock := s.clock + 10, phase := t.phase.(at := StopKubelet));
    run, acts := Extended(run, acts, s, t, Run);
    t := t.(kubelet := false, phase := t.phase.(at := KeepData));
    run, acts := Extended(run, acts, s, t, Run);
    DataGoes(s.fs, Kept(FormatUtcTimestamp(s.clock)));
  }

  lemma {:induction false} StartFacts(s: System)
    requires Init(s)
    ensures EndsIn([s], [], s, s) && s.phase.Idle? && MANIFESTS in s.fs && DISABLED !in s.fs
    ensures s.clock <= LAST_FOUR_DIGIT_SECOND ==> Kept(FormatUtcTimestamp(s.clock)) !in s.fs
  {
    hide FormatUtcTimestamp, Kept;
  }

  /** After a failed script the rollback puts the manifests back, if they are under one of
      their two names, and starts the kubelet; nothing else changes. */
  lemma {:induction false} RollbackWorks(run: seq<System>, acts: seq<Action>, i: nat)
    requires Execution(run, acts) && i < |run| && run[i].phase.Failed? && OneManifests(run[i])
    ensures var s := run[i];
            && Apply(s, RollbackMove).Some? && Apply(Apply(s, RollbackMove).value, RollbackStart(true)).Some?
            && var t := Apply(Apply(s, RollbackMove).value, RollbackStart(true)).value;
               && t.phase.RolledBack? && t.kubelet && t.clock == s.clock && t.ids == s.ids && t.ever == s.ever
               && t.fs.Keys == s.fs.Keys - {DISABLED} + {MANIFESTS}
               && t.fs[MANIFESTS] == s.fs[if MANIFESTS in s.fs then MANIFESTS else DISABLED]
               && forall p | p in s.fs && p != DISABLED && p != MANIFESTS :: t.fs[p] == s.fs[p]
  {
    hide FormatUtcTimestamp, Kept, Execution;
    AllNamesDiffer();
  }

  /** The same on the names of the directories as they stand in the script. */
  lemma {:induction false} QuietRestoreByName(s: System) returns (run: seq<System>, acts: seq<Action>, fs: map<string, Dir>)
    requires Init(s) && "/var/lib/etcd" in s.fs && s.clock <= LAST_FOUR_DIGIT_SECOND
    ensures EndsIn(run, acts, s, System(fs, true, s.clock + 10, Restored(s.clock, Some(s.fs[DATA].id), Some(s.ids)),
                                        s.ids + 1, s.ever + {s.ids}))
    ensures DATA in s.fs && fs.Keys == s.fs.Keys + {"/var/lib/etcd.before-restore." + FormatUtcTimestamp(s.clock)}
    ensures fs["/var/lib/etcd.before-restore." + FormatUtcTimestamp(s.clock)] == s.fs["/var/lib/etcd"]
    ensures fs["/var/lib/etcd"] == Dir(s.ids, [])
    ensures "/etc/kubernetes/manifests" in s.fs && fs["/etc/kubernetes/manifests"] == s.fs["/etc/kubernetes/manifests"]
    ensures "/etc/kubernetes/manifests.disabled" !in fs
  {
    hide EndsIn, FormatUtcTimestamp;
    run, acts := QuietRestore(s);
    fs := s.fs[Kept(FormatUtcTimestamp(s.clock)) := s.fs[DATA]][DATA := Dir(s.ids, [])];
    AllNamesDiffer();
  }
}
