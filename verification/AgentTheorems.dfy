/**
 Safety of whole runs: for every interleaving of the agent, its crashes and restarts, the
 installer, and loads made by others.
 */
module AgentTheorems {
  import opened Common
  import opened Params
  import opened ConfMerge
  import opened Defaults
  import opened Agent
  import opened AgentInvariants
  import TopUps

  lemma {:induction false} Reachable(s: State, acts: seq<Event>)
    requires Init(s) && Runs(s, acts)
    ensures Inv(Run(s, acts))
  {
    hide Init, Inv, Runs, Run;
    InitInv(s);
    RunKeepsInv(s, acts);
  }

  // ---- no lost update ---------------------------------------------------------------------

  /** The text of the installer's last write in `acts`, or `text` if there is none. */
  function LastInstalled(text: string, acts: seq<Event>): string
    decreases |acts|
  {
    if acts == [] then text
    else LastInstalled(if acts[0].InstallerWrite? then acts[0].text else text, acts[1..])
  }

  lemma {:induction false} InstalledIsLast(s: State, acts: seq<Event>)
    requires Runs(s, acts)
    ensures Run(s, acts).installed == LastInstalled(s.installed, acts)
    decreases |acts|
  {
    hide Merge, InBand;
    if acts != [] {
      InstalledIsLast(Step(s, acts[0]), acts[1..]);
    }
  }

  /** In every interleaving, the lines the merge does not own (identity fields, peers,
      headers, comments) are those of the installer's last write. */
  lemma {:induction false} NoLostUpdate(s: State, acts: seq<Event>)
    requires Init(s) && Runs(s, acts)
    ensures Unowned(Run(s, acts).disk.text) == Unowned(LastInstalled(s.disk.text, acts))
  {
    hide Unowned, Runs, Run, LastInstalled, LockInv, VersionInv, TickInv, GateInv, KernelInv, ProvenanceInv,
         SavesInv, InBand;
    Reachable(s, acts);
    InstalledIsLast(s, acts);
  }

  /** The conf the agent is about to merge is still the conf on disk, and only the agent can
      replace it. */
  lemma {:induction false} ReadIsCurrent(s: State, acts: seq<Event>)
    requires Init(s) && Runs(s, acts) && Run(s, acts).pc.HasRead?
    ensures Run(s, acts).pc.read == Run(s, acts).disk && Run(s, acts).lock.ByAgent?
  {
    hide Runs, Run, VersionInv, GateInv, KernelInv, ProvenanceInv, SavesInv, UnownedInv, InBand;
    Reachable(s, acts);
  }

  // ---- the kernel ----------------------------------------------------------------------------

  ghost predicate OnDiskAt(s: State, acts: seq<Event>, n: nat, v: Version) {
    n <= |acts| && Runs(s, acts[..n]) && Run(s, acts[..n]).disk == v
  }

  lemma {:induction false} OnDiskLater(s: State, acts: seq<Event>, n: nat, v: Version)
    requires acts != [] && Enabled(s, acts[0])
    requires OnDiskAt(Step(s, acts[0]), acts[1..], n, v)
    ensures OnDiskAt(s, acts, n + 1, v)
  {
    hide Enabled, Step;
    var prefix := acts[..n + 1];
    assert prefix[1..] == acts[1..][..n];
  }

  lemma {:induction false} NewVersionOnDisk(s: State, a: Event, v: Version)
    requires Enabled(s, a) && v in Step(s, a).versions && v !in s.versions
    ensures v == Step(s, a).disk
  {
    hide Merge, InBand;
  }

  lemma {:induction false} VersionWasOnDisk(s: State, acts: seq<Event>, v: Version) returns (n: nat)
    requires Runs(s, acts) && s.disk in s.versions
    requires v in Run(s, acts).versions && (v in s.versions ==> v == s.disk)
    ensures OnDiskAt(s, acts, n, v)
    decreases |acts|
  {
    hide Enabled, Step, OnDiskAt;
    if v in s.versions {
      n := 0;
      HereOnDisk(s, acts);
    } else {
      var t := Step(s, acts[0]);
      if v in t.versions {
        NewVersionOnDisk(s, acts[0], v);
        HereOnDisk(t, acts[1..]);
        n := 0;
        OnDiskLater(s, acts, n, v);
        n := n + 1;
      } else {
        DiskRecorded(s, acts[0]);
        n := VersionWasOnDisk(t, acts[1..], v);
        OnDiskLater(s, acts, n, v);
        n := n + 1;
      }
    }
  }

  lemma {:induction false} HereOnDisk(s: State, acts: seq<Event>)
    ensures OnDiskAt(s, acts, 0, s.disk)
  {
    assert acts[..0] == [];
  }

  lemma {:induction false} DiskRecorded(s: State, a: Event)
    requires Enabled(s, a) && s.disk in s.versions
    ensures Step(s, a).disk in Step(s, a).versions
  {
    hide Merge, InBand;
  }

  /** Whenever it is known what the kernel runs, it is one complete conf that was on disk at
      some point of the run. */
  lemma {:induction false} KernelIsWhole(s: State, acts: seq<Event>) returns (n: nat)
    requires Init(s) && Runs(s, acts) && Run(s, acts).kernel.Loaded?
    ensures OnDiskAt(s, acts, n, Run(s, acts).kernel.v)
  {
    hide Runs, Run, VersionInv, GateInv, ProvenanceInv, TickInv, LockInv, SavesInv, UnownedInv, InBand, OnDiskAt;
    Reachable(s, acts);
    n := VersionWasOnDisk(s, acts, Run(s, acts).kernel.v);
  }

  /** The lock is never held by the agent while it applies the conf. */
  lemma {:induction false} ApplyUnlocked(s: State, acts: seq<Event>)
    requires Init(s) && Runs(s, acts)
    ensures var pc := Run(s, acts).pc;
            pc.Released? || pc.Checked? || pc.Stripped? || pc.Synced? ==> !Run(s, acts).lock.ByAgent?
  {
    hide Runs, Run, VersionInv, GateInv, ProvenanceInv, TickInv, KernelInv, SavesInv, UnownedInv, InBand;
    Reachable(s, acts);
  }

  // ---- the state file ------------------------------------------------------------------------

  /** The epochs of the log strictly increase and the state file holds the last one. */
  lemma {:induction false} SavesIncrease(s: State, acts: seq<Event>)
    requires Init(s) && Runs(s, acts)
    ensures var t := Run(s, acts);
            && (forall i, k :: 0 <= i < k < |t.saves| ==> t.saves[i].e < t.saves[k].e)
            && (t.saves != [] ==> t.epoch == Some(t.saves[|t.saves| - 1].e))
  {
    hide Runs, Run, Init, VersionInv, GateInv, ProvenanceInv, TickInv, KernelInv, LockInv, UnownedInv, InBand, SaveOk;
    Reachable(s, acts);
  }

  /** From any reachable state, a step changes the state file only by saving, and then raises
      it; every skip, error, crash and top-up step leaves it alone. */
  lemma {:induction false} EpochGate(s: State, acts: seq<Event>, a: Event)
    requires Init(s) && Runs(s, acts) && Enabled(Run(s, acts), a)
    ensures var t := Run(s, acts);
            && (a.Save? ==> Last(Step(t, a).epoch) > Last(t.epoch))
            && (!a.Save? ==> Step(t, a).epoch == t.epoch)
  {
    hide Runs, Run, VersionInv, ProvenanceInv, TickInv, KernelInv, LockInv, UnownedInv, SavesInv, InBand, Merge;
    Reachable(s, acts);
    KeepsGate(Run(s, acts), a);
  }

  /** The acknowledged window: a write between the re-stat and the strip, of any text, ends
      with the epoch saved while the kernel runs that text. */
  lemma {:induction false} WindowRun(s: State, text: string)
    requires s.pc.Checked? && s.pc.task.Epoch? && s.lock.Free?
    ensures var acts := [InstallerLock, InstallerWrite(text), InstallerUnlock, Strip, Sync, Save];
            && Runs(s, acts)
            && Run(s, acts).epoch == Some(s.pc.task.e)
            && Run(s, acts).kernel == Loaded(Version(text, s.nextId))
  {
    hide Enabled, Step, Run, Runs;
    var s1 := s.(lock := ByInstaller);
    var s2 := Written(s1, text).(installed := text, merged := {});
    var s3 := s2.(lock := Free);
    InstallerSteps(s, text);
    ApplySteps(s3);
    var rest := [Strip, Sync, Save];
    OneStep(s2, InstallerUnlock, rest);
    OneStep(s1, InstallerWrite(text), [InstallerUnlock] + rest);
    OneStep(s, InstallerLock, [InstallerWrite(text)] + ([InstallerUnlock] + rest));
    assert [InstallerLock] + ([InstallerWrite(text)] + ([InstallerUnlock] + rest)) ==
      [InstallerLock, InstallerWrite(text), InstallerUnlock, Strip, Sync, Save];
  }

  lemma {:induction false} InstallerSteps(s: State, text: string)
    requires s.lock.Free?
    ensures Enabled(s, InstallerLock) && Step(s, InstallerLock) == s.(lock := ByInstaller)
    ensures var s1 := s.(lock := ByInstaller);
            var s2 := Written(s1, text).(installed := text, merged := {});
            && Enabled(s1, InstallerWrite(text)) && Step(s1, InstallerWrite(text)) == s2
            && Enabled(s2, InstallerUnlock) && Step(s2, InstallerUnlock) == s2.(lock := Free)
  {
    hide Merge, InBand;
  }

  /** From a passed re-stat, an undisturbed apply loads the disk conf and saves the epoch. */
  lemma {:induction false} ApplySteps(s: State)
    requires s.pc.Checked? && s.pc.task.Epoch?
    ensures var acts := [Strip, Sync, Save];
            && Runs(s, acts)
            && Run(s, acts).epoch == Some(s.pc.task.e)
            && Run(s, acts).kernel == Loaded(s.disk)
            && Run(s, acts).disk == s.disk
            && Run(s, acts).pc.Idle? && Run(s, acts).lock == s.lock
  {
    hide Enabled, Step, Run, Runs;
    var pc := s.pc;
    var s1 := s.(pc := Stripped(pc.task, pc.read, pc.id, pc.checkedAt, s.disk, s.nextId));
    var s2 := SyncStep(s1);
    ApplyStates(s, s1, s2);
    Done(SaveStep(s2));
    OneStep(s2, Save, []);
    OneStep(s1, Sync, [Save] + []);
    OneStep(s, Strip, [Sync] + ([Save] + []));
    assert [Strip] + ([Sync] + ([Save] + [])) == [Strip, Sync, Save];
  }

  lemma {:induction false} ApplyStates(s: State, s1: State, s2: State)
    requires s.pc.Checked? && s.pc.task.Epoch?
    requires s1 == s.(pc := Stripped(s.pc.task, s.pc.read, s.pc.id, s.pc.checkedAt, s.disk, s.nextId))
    requires s2 == SyncStep(s1)
    ensures Enabled(s, Strip) && Step(s, Strip) == s1
    ensures Enabled(s1, Sync) && Step(s1, Sync) == s2
    ensures Enabled(s2, Save) && Step(s2, Save) == SaveStep(s2)
  {
    hide Merge, InBand;
  }

  lemma {:induction false} Done(s: State)
    ensures Runs(s, []) && Run(s, []) == s
  {
  }

  lemma {:induction false} OneStep(s: State, a: Event, acts: seq<Event>)
    requires Enabled(s, a) && Runs(Step(s, a), acts)
    ensures Runs(s, [a] + acts) && Run(s, [a] + acts) == Run(Step(s, a), acts)
  {
    hide Enabled, Step;
    assert ([a] + acts)[1..] == acts;
  }

  /** The events of an undisturbed tick. */
  function PlainTick(e: int, p: AwgParams): seq<Event> {
    [Poll(e, p), Gate, Acquire, ReadConf] + ([MergeWrite, Stat, Unlock, Restat] + [Strip, Sync, Save])
  }

  /** An undisturbed tick for a newer epoch whose merge succeeds ends with the epoch saved, the
      merged conf on disk, and that very conf in the kernel. */
  lemma {:induction false} TickCompletes(s: State, e: int, p: AwgParams)
    requires s.pc.Idle? && s.lock.Free? && e > Last(s.epoch)
    requires Merge(s.disk.text, Some(p), s.defaults).Ok?
    ensures var acts := PlainTick(e, p);
            && Runs(s, acts)
            && Run(s, acts).epoch == Some(e)
            && Run(s, acts).disk.text == Merge(s.disk.text, Some(p), s.defaults).text
            && Run(s, acts).kernel == Loaded(Run(s, acts).disk)
            && Run(s, acts).pc.Idle? && Run(s, acts).lock.Free?
  {
    hide Enabled, Step, Run, Runs, Merge;
    var task := Epoch(e, p);
    var s4 := s.(lock := ByAgent, pc := HasRead(task, s.disk));
    GateToRead(s, e, p);
    var s5 := MergeStep(s4);
    var s8 := s5.(lock := Free, pc := Checked(task, s.disk, s5.disk.id, s5.nextId));
    MergeToGuard(s4, task);
    ApplySteps(s8);
    RunAppend(s4, [MergeWrite, Stat, Unlock, Restat], [Strip, Sync, Save]);
    RunAppend(s, [Poll(e, p), Gate, Acquire, ReadConf], [MergeWrite, Stat, Unlock, Restat] + [Strip, Sync, Save]);
  }

  lemma {:induction false} RunAppend(s: State, a: seq<Event>, b: seq<Event>)
    requires Runs(s, a) && Runs(Run(s, a), b)
    ensures Runs(s, a + b) && Run(s, a + b) == Run(Run(s, a), b)
    decreases |a|
  {
    hide Enabled, Step;
    if a == [] {
      assert a + b == b;
    } else {
      assert (a + b)[1..] == a[1..] + b;
      RunAppend(Step(s, a[0]), a[1..], b);
    }
  }

  lemma {:induction false} GateToRead(s: State, e: int, p: AwgParams)
    requires s.pc.Idle? && s.lock.Free? && e > Last(s.epoch)
    ensures var acts := [Poll(e, p), Gate, Acquire, ReadConf];
            Runs(s, acts) && Run(s, acts) == s.(lock := ByAgent, pc := HasRead(Epoch(e, p), s.disk))
  {
    hide Enabled, Step, Run, Runs;
    var s1, s2 := s.(pc := Polled(e, p)), s.(pc := Waiting(Epoch(e, p)));
    var s3 := s.(lock := ByAgent, pc := Holding(Epoch(e, p)));
    var s4 := s.(lock := ByAgent, pc := HasRead(Epoch(e, p), s.disk));
    GateStates(s, e, p);
    Done(s4);
    OneStep(s3, ReadConf, []);
    OneStep(s2, Acquire, [ReadConf] + []);
    OneStep(s1, Gate, [Acquire] + ([ReadConf] + []));
    OneStep(s, Poll(e, p), [Gate] + ([Acquire] + ([ReadConf] + [])));
    assert [Poll(e, p)] + ([Gate] + ([Acquire] + ([ReadConf] + []))) == [Poll(e, p), Gate, Acquire, ReadConf];
  }

  lemma {:induction false} GateStates(s: State, e: int, p: AwgParams)
    requires s.pc.Idle? && s.lock.Free? && e > Last(s.epoch)
    ensures var s1, s2 := s.(pc := Polled(e, p)), s.(pc := Waiting(Epoch(e, p)));
            var s3 := s.(lock := ByAgent, pc := Holding(Epoch(e, p)));
            && Enabled(s, Poll(e, p)) && Step(s, Poll(e, p)) == s1
            && Enabled(s1, Gate) && Step(s1, Gate) == s2
            && Enabled(s2, Acquire) && Step(s2, Acquire) == s3
            && Enabled(s3, ReadConf) && Step(s3, ReadConf) == s.(lock := ByAgent, pc := HasRead(Epoch(e, p), s.disk))
  {
    hide Merge, InBand;
  }

  lemma {:induction false} MergeToGuard(s: State, task: Task)
    requires s.pc == HasRead(task, s.disk) && task.Epoch? && s.lock.ByAgent?
    requires Merge(s.disk.text, ParamsOf(task), s.defaults).Ok?
    ensures var acts, t := [MergeWrite, Stat, Unlock, Restat], MergeStep(s);
            && Runs(s, acts)
            && Run(s, acts) == t.(lock := Free, pc := Checked(task, s.disk, t.disk.id, t.nextId))
            && t.disk.text == Merge(s.disk.text, ParamsOf(task), s.defaults).text
            && t.epoch == s.epoch
  {
    hide Enabled, Step, Run, Runs, Merge;
    var t := MergeStep(s);
    var changed := t.pc.changed;
    var s1 := t.(pc := Captured(task, s.disk, changed, t.disk.id));
    var s2 := t.(lock := Free, pc := Released(task, s.disk, changed, t.disk.id));
    var s3 := t.(lock := Free, pc := Checked(task, s.disk, t.disk.id, t.nextId));
    GuardStates(s, task);
    Done(s3);
    OneStep(s2, Restat, []);
    OneStep(s1, Unlock, [Restat] + []);
    OneStep(t, Stat, [Unlock] + ([Restat] + []));
    OneStep(s, MergeWrite, [Stat] + ([Unlock] + ([Restat] + [])));
    assert [MergeWrite] + ([Stat] + ([Unlock] + ([Restat] + []))) == [MergeWrite, Stat, Unlock, Restat];
  }

  lemma {:induction false} GuardStates(s: State, task: Task)
    requires s.pc == HasRead(task, s.disk) && task.Epoch? && Outcome(s).Ok?
    ensures var t := MergeStep(s);
            && t.pc.Wrote?
            && Enabled(s, MergeWrite) && Step(s, MergeWrite) == t
            && Enabled(t, Stat) && Step(t, Stat) == t.(pc := Captured(task, s.disk, t.pc.changed, t.disk.id))
            && var s1 := t.(pc := Captured(task, s.disk, t.pc.changed, t.disk.id));
            && var s2 := t.(lock := Free, pc := Released(task, s.disk, t.pc.changed, t.disk.id));
            && Enabled(s1, Unlock) && Step(s1, Unlock) == s2
            && Enabled(s2, Restat)
            && Step(s2, Restat) == t.(lock := Free, pc := Checked(task, s.disk, t.disk.id, t.nextId))
  {
    hide Merge, InBand;
  }

  // ---- the window is reachable -------------------------------------------------------------------

  /** A start while the installer is busy: the top-up gives up on the lock. */
  const BUSY_START: seq<Event> := [BeginTopUp, LockTimeout, InstallerUnlock]

  /** The same from any start: the installer takes the lock first if it is free. */
  function BusyStart(s: State): seq<Event> {
    if s.lock.Free? then [InstallerLock] + BUSY_START else BUSY_START
  }

  lemma {:induction false} StartStates(s: State)
    requires s.pc.Start? && s.lock.ByInstaller?
    ensures var s1, s2 := s.(pc := Waiting(TopUp)), s.(pc := Idle);
            && Enabled(s, BeginTopUp) && Step(s, BeginTopUp) == s1
            && Enabled(s1, LockTimeout) && Step(s1, LockTimeout) == s2
            && Enabled(s2, InstallerUnlock) && Step(s2, InstallerUnlock) == s.(lock := Free, pc := Idle)
  {
    hide Merge, InBand;
  }

  lemma {:induction false} StartsBusy(s: State)
    requires s.pc.Start? && !s.lock.ByAgent?
    ensures Runs(s, BusyStart(s)) && Run(s, BusyStart(s)) == s.(lock := Free, pc := Idle)
  {
    hide Enabled, Step, Run, Runs;
    var held, end := s.(lock := ByInstaller), s.(lock := Free, pc := Idle);
    StartStates(held);
    Done(end);
    OneStep(held.(pc := Idle), InstallerUnlock, []);
    OneStep(held.(pc := Waiting(TopUp)), LockTimeout, [InstallerUnlock] + []);
    OneStep(held, BeginTopUp, [LockTimeout] + ([InstallerUnlock] + []));
    assert [BeginTopUp] + ([LockTimeout] + ([InstallerUnlock] + [])) == BUSY_START;
    if s.lock.Free? {
      InstallerSteps(s, "");
      OneStep(s, InstallerLock, BUSY_START);
    }
  }

  /** A tick up to the passed re-stat, then an installer write of `text`, then the rest of the tick. */
  function WindowTick(e: int, p: AwgParams, text: string): seq<Event> {
    [Poll(e, p), Gate, Acquire, ReadConf]
    + ([MergeWrite, Stat, Unlock, Restat]
       + [InstallerLock, InstallerWrite(text), InstallerUnlock, Strip, Sync, Save])
  }

  /** From every start, every epoch that merges can be saved with any text of the installer's in the
      kernel in its place. */
  lemma {:induction false} WindowReachable(s: State, e: int, p: AwgParams, text: string)
    requires Init(s) && e > Last(s.epoch)
    requires Merge(s.disk.text, Some(p), s.defaults).Ok?
    ensures var acts := BusyStart(s) + WindowTick(e, p, text);
            && Runs(s, acts)
            && Run(s, acts).epoch == Some(e)
            && Run(s, acts).kernel.Loaded? && Run(s, acts).kernel.v.text == text
  {
    hide Enabled, Step, Run, Runs, Merge;
    StartsBusy(s);
    var idle, task := s.(lock := Free, pc := Idle), Epoch(e, p);
    GateToRead(idle, e, p);
    var s4 := idle.(lock := ByAgent, pc := HasRead(task, s.disk));
    var s5 := MergeStep(s4);
    var s8 := s5.(lock := Free, pc := Checked(task, s.disk, s5.disk.id, s5.nextId));
    MergeToGuard(s4, task);
    WindowRun(s8, text);
    var rest := [InstallerLock, InstallerWrite(text), InstallerUnlock, Strip, Sync, Save];
    RunAppend(s4, [MergeWrite, Stat, Unlock, Restat], rest);
    RunAppend(idle, [Poll(e, p), Gate, Acquire, ReadConf], [MergeWrite, Stat, Unlock, Restat] + rest);
    RunAppend(s, BusyStart(s), WindowTick(e, p, text));
  }

  // ---- retries -----------------------------------------------------------------------------------

  /** The step is no installer write and merges nothing but `p`. */
  ghost predicate Allowed(s: State, a: Event, p: AwgParams) {
    !a.InstallerWrite? && (a.MergeWrite? ==> s.pc.HasRead? && (s.pc.task.TopUp? || s.pc.task.p == p))
  }

  /** A stretch of a run with no installer write, whose merges are top-ups or merges of `p`. */
  ghost predicate Quiet(s: State, acts: seq<Event>, p: AwgParams)
    requires Runs(s, acts)
    decreases |acts|
  {
    acts == [] || (Allowed(s, acts[0], p) && Quiet(Step(s, acts[0]), acts[1..], p))
  }

  lemma {:induction false} StableStep(s: State, a: Event, p: AwgParams)
    requires Enabled(s, a) && Allowed(s, a, p) && TopUps.Stable(s.disk.text, Some(p)) && Inv(s)
    ensures TopUps.Stable(Step(s, a).disk.text, Some(p))
  {
    hide Merge, InBand, TopUps.Stable, LockInv, VersionInv, GateInv, KernelInv, ProvenanceInv, SavesInv, UnownedInv;
    if a.MergeWrite? && Outcome(s).Ok? {
      assert s.pc.read == s.disk;
      if s.pc.task.TopUp? {
        TopUps.TopUpIsHarmless(s.disk.text, Some(p), s.defaults);
      } else {
        TopUps.StableMerges(s.disk.text, Some(p), s.defaults);
      }
    }
  }

  lemma {:induction false} StableRun(s: State, acts: seq<Event>, p: AwgParams)
    requires Inv(s) && Runs(s, acts) && Quiet(s, acts, p) && TopUps.Stable(s.disk.text, Some(p))
    ensures Inv(Run(s, acts)) && TopUps.Stable(Run(s, acts).disk.text, Some(p))
    decreases |acts|
  {
    hide Inv, Enabled, Step, TopUps.Stable, Allowed;
    if acts != [] {
      StepKeepsInv(s, acts[0]);
      StableStep(s, acts[0], p);
      StableRun(Step(s, acts[0]), acts[1..], p);
    }
  }

  /** Harmless retry: once `p` has been merged, and until the installer writes or another epoch
      is merged, every later merge of `p` is a no-op that keeps the file's identity, however
      often the process restarts, draws new defaults and tops up in between. */
  lemma {:induction false} HarmlessRetry(s: State, first: seq<Event>, later: seq<Event>, p: AwgParams)
    requires Init(s) && Runs(s, first)
    requires var t := Run(s, first); t.pc.HasRead? && ParamsOf(t.pc.task) == Some(p) && Outcome(t).Ok?
    requires Runs(MergeStep(Run(s, first)), later) && Quiet(MergeStep(Run(s, first)), later, p)
    requires var u := Run(MergeStep(Run(s, first)), later); u.pc.HasRead? && ParamsOf(u.pc.task) == Some(p)
    ensures var u := Run(MergeStep(Run(s, first)), later);
            && MergeStep(u).disk == u.disk
            && MergeStep(u).pc == Wrote(u.pc.task, u.pc.read, false)
  {
    hide Runs, Run, Merge, InBand, TopUps.Stable, LockInv, VersionInv, GateInv, KernelInv, ProvenanceInv, SavesInv,
         UnownedInv, Quiet;
    var t := Run(s, first);
    Reachable(s, first);
    InBandPass(t.defaults);
    TopUps.MergeIsStable(t.pc.read.text, Some(p), t.defaults);
    MergeStepIs(t);
    StepKeepsInv(t, MergeWrite);
    var u := Run(MergeStep(t), later);
    StableRun(MergeStep(t), later, p);
    TopUps.StableMerges(u.disk.text, Some(p), u.defaults);
  }

  lemma {:induction false} MergeStepIs(t: State)
    requires t.pc.HasRead? && Inv(t)
    ensures Enabled(t, MergeWrite) && Step(t, MergeWrite) == MergeStep(t)
    ensures Outcome(t).Ok? ==> MergeStep(t).disk.text == Outcome(t).text
  {
    hide Merge, InBand, LockInv, VersionInv, GateInv, KernelInv, ProvenanceInv, SavesInv, UnownedInv;
  }
}
