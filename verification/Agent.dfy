/**
 The tick protocol: the agent, the installer and the kernel as one machine whose steps
 interleave freely. A conf file is a version, a text with the identity its writer's rename
 gave it; every rename gives a fresh identity. The installer writes under the same lock as
 the agent. Fields marked "history" record the past and steer no step.
 */
module Agent {
  import opened Common
  import opened Params
  import opened FieldSpecs
  import opened ConfMerge
  import opened Defaults

  datatype Version = Version(text: string, id: nat)

  datatype Holder = Free | ByAgent | ByInstaller

  /** What the kernel runs: a conf it loaded, or unknown after a failed load. */
  datatype Kernel = Unknown | Loaded(v: Version)

  /** What a merge is for: the startup top-up, or a polled epoch. */
  datatype Task = TopUp | Epoch(e: int, p: AwgParams)

  function ParamsOf(t: Task): Option<AwgParams> {
    match t
    case TopUp => None
    case Epoch(_, p) => Some(p)
  }

  /** The part of a tick behind the merge: the conf that was read, the identity captured under
      the lock, and (history) the write counts seen at the re-stat and at the strip. */
  datatype Pc =
    | Start
    | Idle
    | Polled(e: int, p: AwgParams)
    | Waiting(task: Task)
    | Holding(task: Task)
    | HasRead(task: Task, read: Version)
    | Wrote(task: Task, read: Version, changed: bool)
    | Captured(task: Task, read: Version, changed: bool, id: nat)
    | Released(task: Task, read: Version, changed: bool, id: nat)
    | Checked(task: Task, read: Version, id: nat, checkedAt: nat)
    | Stripped(task: Task, read: Version, id: nat, checkedAt: nat, v: Version, strippedAt: nat)
    | Synced(task: Task, read: Version, id: nat, checkedAt: nat, v: Version, strippedAt: nat)

  /** One successful save of the state file (history). */
  datatype SaveRecord = SaveRecord(e: int, p: AwgParams, defaults: ClientDefaults, read: Version, id: nat,
                                   loaded: Version, checkedAt: nat, strippedAt: nat)

  datatype State = State(
    disk: Version,
    nextId: nat,
    lock: Holder,
    kernel: Kernel,
    stragglers: set<Version>,      // confs a timed-out syncconf may still load
    epoch: Option<int>,            // the state file
    pc: Pc,
    defaults: ClientDefaults,      // this process' draw
    versions: set<Version>,        // history: every conf that was on disk
    installed: string,             // history: the installer's last text
    merged: set<AwgParams>,        // history: epochs merged since then
    saves: seq<SaveRecord>)        // history

  /** The steps, with the outcome of each fallible operation as a step of its own. */
  datatype Event =
    | BeginTopUp | Poll(e: int, p: AwgParams) | Gate | GateError
    | Acquire | LockTimeout | LockError
    | ReadConf | ReadError
    | MergeWrite | WriteError
    | Stat | StatError | Unlock
    | Restat | RestatError
    | Strip | StripError
    | Sync | SyncRefused | SyncTorn | SyncTimeout
    | Save | SaveError
    | Crash(d: ClientDefaults)
    | InstallerLock | InstallerWrite(text: string) | InstallerUnlock
    | ExternalLoad | StragglerLoad(v: Version) | StragglerTorn(v: Version)

  function Last(e: Option<int>): int {
    if e.Some? then e.value else 0
  }

  function Outcome(s: State): MergeResult
    requires s.pc.HasRead?
  {
    Merge(s.pc.read.text, ParamsOf(s.pc.task), s.defaults)
  }

  predicate Renames(s: State)
    requires s.pc.HasRead?
  {
    Outcome(s).Ok? && Outcome(s).text != s.pc.read.text
  }

  ghost predicate Enabled(s: State, a: Event) {
    match a
    case BeginTopUp => s.pc.Start?
    case Poll(_, _) => s.pc.Idle?
    case Gate | GateError => s.pc.Polled?
    case Acquire => s.pc.Waiting? && s.lock.Free?
    case LockTimeout | LockError => s.pc.Waiting?
    case ReadConf | ReadError => s.pc.Holding?
    case MergeWrite => s.pc.HasRead?
    case WriteError => s.pc.HasRead? && Renames(s)
    case Stat | StatError => s.pc.Wrote?
    case Unlock => s.pc.Captured?
    case Restat | RestatError => s.pc.Released?
    case Strip | StripError => s.pc.Checked?
    case Sync | SyncRefused | SyncTorn | SyncTimeout => s.pc.Stripped?
    case Save | SaveError => s.pc.Synced? && s.pc.task.Epoch?
    case Crash(d) => InBand(d)
    case InstallerLock => s.lock.Free?
    case InstallerWrite(_) => s.lock.ByInstaller?
    case InstallerUnlock => s.lock.ByInstaller?
    case ExternalLoad => true
    case StragglerLoad(v) => v in s.stragglers
    case StragglerTorn(v) => v in s.stragglers
  }

  function Unlocked(s: State): State {
    s.(lock := Free, pc := Idle)
  }

  /** A rename: the text under a fresh identity. */
  function Written(s: State, text: string): State {
    var v := Version(text, s.nextId);
    s.(disk := v, nextId := s.nextId + 1, versions := s.versions + {v})
  }

  function Noted(s: State): set<AwgParams>
    requires s.pc.HasRead?
  {
    if s.pc.task.Epoch? then s.merged + {s.pc.task.p} else s.merged
  }

  /** Merge and write under the lock; a byte-identical result skips the rename. */
  function MergeStep(s: State): State
    requires s.pc.HasRead?
  {
    var pc := s.pc;
    match Outcome(s)
    case Err(_) => Unlocked(s)
    case Ok(text, _) =>
      if text == pc.read.text then s.(pc := Wrote(pc.task, pc.read, false), merged := Noted(s))
      else Written(s, text).(pc := Wrote(pc.task, pc.read, true), merged := Noted(s))
  }

  /** The supersede guard; a top-up that changed nothing stops before it. */
  function RestatStep(s: State): State
    requires s.pc.Released?
  {
    var pc := s.pc;
    if (pc.task.TopUp? && !pc.changed) || s.disk.id != pc.id then s.(pc := Idle)
    else s.(pc := Checked(pc.task, pc.read, pc.id, s.nextId))
  }

  function SyncStep(s: State): State
    requires s.pc.Stripped?
  {
    var pc := s.pc;
    s.(kernel := Loaded(pc.v),
       pc := if pc.task.TopUp? then Idle
             else Synced(pc.task, pc.read, pc.id, pc.checkedAt, pc.v, pc.strippedAt))
  }

  function SaveStep(s: State): State
    requires s.pc.Synced? && s.pc.task.Epoch?
  {
    var pc := s.pc;
    s.(epoch := Some(pc.task.e), pc := Idle,
       saves := s.saves + [SaveRecord(pc.task.e, pc.task.p, s.defaults, pc.read, pc.id, pc.v,
                                    pc.checkedAt, pc.strippedAt)])
  }

  /** The process dies and is started again: the kernel releases its lock, a running
      syncconf lives on. */
  function CrashStep(s: State, d: ClientDefaults): State {
    s.(pc := Start, defaults := d,
       lock := if s.lock.ByAgent? then Free else s.lock,
       stragglers := if s.pc.Stripped? then s.stragglers + {s.pc.v} else s.stragglers)
  }

  function Step(s: State, a: Event): State
    requires Enabled(s, a)
  {
    var pc := s.pc;
    match a
    case BeginTopUp => s.(pc := Waiting(TopUp))
    case Poll(e, p) => s.(pc := Polled(e, p))
    case Gate => s.(pc := if pc.e <= Last(s.epoch) then Idle else Waiting(Epoch(pc.e, pc.p)))
    case GateError => s.(pc := Idle)
    case Acquire => s.(lock := ByAgent, pc := Holding(pc.task))
    case LockTimeout | LockError => s.(pc := Idle)
    case ReadConf => s.(pc := HasRead(pc.task, s.disk))
    case ReadError => Unlocked(s)
    case MergeWrite => MergeStep(s)
    case WriteError => Unlocked(s)
    case Stat => s.(pc := Captured(pc.task, pc.read, pc.changed, s.disk.id))
    case StatError => Unlocked(s)
    case Unlock => s.(lock := Free, pc := Released(pc.task, pc.read, pc.changed, pc.id))
    case Restat => RestatStep(s)
    case RestatError => s.(pc := Idle)
    case Strip => s.(pc := Stripped(pc.task, pc.read, pc.id, pc.checkedAt, s.disk, s.nextId))
    case StripError => s.(pc := Idle)
    case Sync => SyncStep(s)
    case SyncRefused => s.(pc := Idle)
    case SyncTorn => s.(kernel := Unknown, pc := Idle)
    case SyncTimeout => s.(pc := Idle, stragglers := s.stragglers + {pc.v})
    case Save => SaveStep(s)
    case SaveError => s.(pc := Idle)
    case Crash(d) => CrashStep(s, d)
    case InstallerLock => s.(lock := ByInstaller)
    case InstallerWrite(text) => Written(s, text).(installed := text, merged := {})
    case InstallerUnlock => s.(lock := Free)
    case ExternalLoad => s.(kernel := Loaded(s.disk))
    case StragglerLoad(v) => s.(kernel := Loaded(v))
    case StragglerTorn(_) => s.(kernel := Unknown)    // its input was cut off half-way
  }

  // ---- runs -------------------------------------------------------------------------------

  ghost predicate Runs(s: State, acts: seq<Event>)
    decreases |acts|
  {
    acts == [] || (Enabled(s, acts[0]) && Runs(Step(s, acts[0]), acts[1..]))
  }

  ghost function Run(s: State, acts: seq<Event>): State
    requires Runs(s, acts)
    decreases |acts|
  {
    if acts == [] then s else Run(Step(s, acts[0]), acts[1..])
  }

  /** A host on which the installer left a conf and the agent process has just started. */
  ghost predicate Init(s: State) {
    && s.disk.id < s.nextId
    && !s.lock.ByAgent?
    && s.kernel.Unknown?
    && s.stragglers == {}
    && s.pc.Start?
    && InBand(s.defaults)
    && s.versions == {s.disk}
    && s.installed == s.disk.text
    && s.merged == {}
    && s.saves == []
  }
}
