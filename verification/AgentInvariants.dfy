/**
 What every step of the machine keeps.
 */
module AgentInvariants {
  import opened Common
  import opened Text
  import opened Params
  import opened FieldSpecs
  import opened ConfMerge
  import opened SpliceProofs
  import opened MergeFrame
  import opened Defaults
  import opened Agent

  /** The agent is between taking and releasing the lock. */
  predicate Critical(pc: Pc) {
    pc.Holding? || pc.HasRead? || pc.Wrote? || pc.Captured?
  }

  /** The lock is the agent's exactly in the critical section. */
  ghost predicate LockInv(s: State) {
    s.lock.ByAgent? <==> Critical(s.pc)
  }

  /** Identities are fresh: a version is determined by its identity. */
  ghost predicate VersionInv(s: State) {
    && s.disk in s.versions
    && (forall v :: v in s.versions ==> v.id < s.nextId)
    && (forall v, w :: v in s.versions && w in s.versions && v.id == w.id ==> v == w)
  }

  /** `id` names the version this tick's merge of `read` produced. */
  ghost predicate Produced(s: State, task: Task, read: Version, id: nat) {
    && Merge(read.text, ParamsOf(task), s.defaults).Ok?
    && forall v :: v in s.versions && v.id == id ==> v.text == Merge(read.text, ParamsOf(task), s.defaults).text
  }

  /** What the agent knows at each point of a tick. */
  ghost predicate TickInv(s: State) {
    match s.pc
    case HasRead(task, read) => read == s.disk
    case Wrote(task, read, changed) =>
      && Produced(s, task, read, s.disk.id)
      && (changed <==> s.disk.text != read.text)
      && (!changed ==> s.disk == read)
    case Captured(task, read, changed, id) => id == s.disk.id && Produced(s, task, read, id)
    case Released(task, read, changed, id) => id < s.nextId && Produced(s, task, read, id)
    case Checked(task, read, id, at) =>
      && Produced(s, task, read, id)
      && id < at <= s.nextId
      && (if at == s.nextId then s.disk.id == id else s.disk.id >= at)
    case Stripped(task, read, id, at, v, sat) =>
      && Produced(s, task, read, id)
      && v in s.versions && id < at <= sat <= s.nextId
      && (if at == sat then v.id == id else v.id >= at)
    case Synced(task, read, id, at, v, sat) =>
      && Produced(s, task, read, id)
      && v in s.versions && id < at <= sat <= s.nextId
      && (if at == sat then v.id == id else v.id >= at)
    case _ => true
  }

  function TaskOf(pc: Pc): Option<Task> {
    match pc
    case Start | Idle | Polled(_, _) => None
    case _ => Some(pc.task)
  }

  /** An epoch past the gate is newer than the state file. */
  ghost predicate GateInv(s: State) {
    var t := TaskOf(s.pc);
    t.Some? && t.value.Epoch? ==> t.value.e > Last(s.epoch)
  }

  ghost predicate KernelInv(s: State) {
    && (s.kernel.Loaded? ==> s.kernel.v in s.versions)
    && s.stragglers <= s.versions
  }

  /** The lines the merge does not own. */
  function Unowned(text: string): seq<string> {
    Select(Split(text, '\n'), None)
  }

  ghost predicate UnownedInv(s: State) {
    Unowned(s.disk.text) == Unowned(s.installed)
  }

  /** The line renders a valid value that an epoch of `merged` carries for its key. */
  ghost predicate FromEpoch(line: string, merged: set<AwgParams>) {
    exists p, k, v :: p in merged && EpochMember(k, p) == Some(v) && Valid(k, v) && line == Render(k, v)
  }

  predicate MustMatchLine(line: string) {
    Owner(line).Some? && ClassOf(Owner(line).value).MustMatch?
  }

  ghost predicate ProvenanceInv(s: State) {
    forall line :: line in Split(s.disk.text, '\n') && MustMatchLine(line) ==>
      line in Split(s.installed, '\n') || FromEpoch(line, s.merged)
  }

  /** A record of the log: what was merged, and what the kernel loaded if nobody wrote between
      the re-stat and the strip. */
  ghost predicate SaveOk(r: SaveRecord, versions: set<Version>) {
    && Merge(r.read.text, Some(r.p), r.defaults).Ok?
    && InBand(r.defaults)
    && r.loaded in versions
    && r.id < r.checkedAt <= r.strippedAt
    && (r.checkedAt == r.strippedAt <==> r.loaded.id == r.id)
    && (r.checkedAt < r.strippedAt ==> r.loaded.id >= r.checkedAt)
    && (r.checkedAt == r.strippedAt ==> r.loaded.text == Merge(r.read.text, Some(r.p), r.defaults).text)
  }

  /** The log is strictly increasing and ends at the state file. */
  ghost predicate SavesInv(s: State) {
    && (forall i :: 0 <= i < |s.saves| ==> SaveOk(s.saves[i], s.versions))
    && (forall i, k :: 0 <= i < k < |s.saves| ==> s.saves[i].e < s.saves[k].e)
    && (s.saves != [] ==> s.epoch == Some(s.saves[|s.saves| - 1].e))
  }

  ghost predicate Inv(s: State) {
    && LockInv(s) && VersionInv(s) && TickInv(s) && GateInv(s) && KernelInv(s)
    && UnownedInv(s) && ProvenanceInv(s) && SavesInv(s) && InBand(s.defaults)
  }

  lemma {:induction false} InitInv(s: State)
    requires Init(s)
    ensures Inv(s)
  {
    hide Merge, Split, MustMatchLine, InBand, FromEpoch, Unowned;
  }

  // ---- one lemma per conjunct ---------------------------------------------------------------

  lemma {:induction false} KeepsLock(s: State, a: Event)
    requires Enabled(s, a) && LockInv(s)
    ensures LockInv(Step(s, a))
  {
    hide Merge, InBand;
  }

  lemma {:induction false} KeepsVersions(s: State, a: Event)
    requires Enabled(s, a) && VersionInv(s)
    ensures VersionInv(Step(s, a))
    ensures s.versions <= Step(s, a).versions && s.nextId <= Step(s, a).nextId
    ensures Step(s, a).nextId == s.nextId ==> Step(s, a).disk == s.disk && Step(s, a).versions == s.versions
    ensures forall v :: v in Step(s, a).versions && v !in s.versions ==> v.id >= s.nextId
  {
    hide Step, Enabled;
    var wrote, text := DiskStep(s, a);
  }

  /** A step leaves the disk alone or is one rename. */
  lemma {:induction false} DiskStep(s: State, a: Event) returns (wrote: bool, text: string)
    requires Enabled(s, a)
    ensures var t, w := Step(s, a), if wrote then Written(s, text) else s;
            t.disk == w.disk && t.nextId == w.nextId && t.versions == w.versions
  {
    if a.InstallerWrite? {
      wrote, text := true, a.text;
    } else if a.MergeWrite? && Renames(s) {
      hide Merge, Enabled;
      wrote, text := true, Outcome(s).text;
    } else {
      NoRename(s, a);
      wrote, text := false, "";
    }
  }

  lemma {:induction false} NoRename(s: State, a: Event)
    requires Enabled(s, a) && !a.InstallerWrite? && (a.MergeWrite? ==> !Renames(s))
    ensures Step(s, a).disk == s.disk && Step(s, a).nextId == s.nextId && Step(s, a).versions == s.versions
  {
    hide Merge, InBand;
  }

  lemma {:induction false} KeepsGate(s: State, a: Event)
    requires Enabled(s, a) && GateInv(s)
    ensures GateInv(Step(s, a))
    ensures Step(s, a).epoch != s.epoch ==> a.Save? && Last(Step(s, a).epoch) > Last(s.epoch)
  {
    hide Merge, InBand;
  }

  lemma {:induction false} KeepsKernel(s: State, a: Event)
    requires Enabled(s, a) && VersionInv(s) && TickInv(s) && KernelInv(s)
    ensures KernelInv(Step(s, a))
  {
    hide Merge, InBand, Produced;
  }

  predicate Environment(a: Event) {
    || a.InstallerLock? || a.InstallerWrite? || a.InstallerUnlock?
    || a.ExternalLoad? || a.StragglerLoad? || a.StragglerTorn?
  }

  lemma {:induction false} ProducedKept(s: State, t: State, task: Task, read: Version, id: nat)
    requires Produced(s, task, read, id) && id < s.nextId && t.defaults == s.defaults
    requires forall v :: v in t.versions && v !in s.versions ==> v.id >= s.nextId
    ensures Produced(t, task, read, id)
  {
    hide Merge;
  }

  /** Others leave the tick alone, and the disk too while the agent holds the lock. */
  lemma {:induction false} EnvironmentStep(s: State, a: Event)
    requires Enabled(s, a) && Environment(a)
    ensures Step(s, a).pc == s.pc && Step(s, a).defaults == s.defaults
    ensures s.lock.ByAgent? ==> Step(s, a).disk == s.disk && Step(s, a).nextId == s.nextId
    ensures Step(s, a).nextId == s.nextId || Step(s, a).disk.id >= s.nextId
  {
    hide Merge, InBand;
  }

  lemma {:induction false} KeepsTickEnv(s: State, a: Event)
    requires Enabled(s, a) && Environment(a)
    requires LockInv(s) && VersionInv(s) && TickInv(s)
    ensures TickInv(Step(s, a))
  {
    hide Merge, InBand, Produced, Step, Enabled;
    var t := Step(s, a);
    KeepsVersions(s, a);
    EnvironmentStep(s, a);
    match s.pc
    case Wrote(task, read, _) => ProducedKept(s, t, task, read, s.disk.id);
    case Captured(task, read, _, id) => ProducedKept(s, t, task, read, id);
    case Released(task, read, _, id) => ProducedKept(s, t, task, read, id);
    case Checked(task, read, id, _) => ProducedKept(s, t, task, read, id);
    case Stripped(task, read, id, _, _, _) => ProducedKept(s, t, task, read, id);
    case Synced(task, read, id, _, _, _) => ProducedKept(s, t, task, read, id);
    case _ =>
  }

  lemma {:induction false} KeepsTickMerge(s: State)
    requires s.pc.HasRead? && VersionInv(s) && TickInv(s)
    ensures TickInv(MergeStep(s))
  {
    hide Merge, InBand;
  }

  lemma {:induction false} KeepsTickAgent(s: State, a: Event)
    requires Enabled(s, a) && !Environment(a) && !a.MergeWrite?
    requires VersionInv(s) && TickInv(s)
    ensures TickInv(Step(s, a))
  {
    hide Merge, InBand, Produced;
    assert !a.Crash? ==> Step(s, a).defaults == s.defaults && Step(s, a).versions == s.versions;
    if !a.Crash? {
      SameProduced(s, Step(s, a));
    }
  }

  lemma {:induction false} SameProduced(s: State, t: State)
    requires s.defaults == t.defaults && s.versions == t.versions
    ensures forall task, read, id :: Produced(s, task, read, id) == Produced(t, task, read, id)
  {
    hide Merge;
  }

  lemma {:induction false} KeepsTick(s: State, a: Event)
    requires Enabled(s, a)
    requires LockInv(s) && VersionInv(s) && TickInv(s)
    ensures TickInv(Step(s, a))
  {
    hide Merge, InBand, Produced, TickInv, LockInv, VersionInv;
    if Environment(a) {
      KeepsTickEnv(s, a);
    } else if a.MergeWrite? {
      KeepsTickMerge(s);
    } else {
      KeepsTickAgent(s, a);
    }
  }

  lemma {:induction false} KeepsUnowned(s: State, a: Event)
    requires Enabled(s, a) && TickInv(s) && UnownedInv(s)
    ensures UnownedInv(Step(s, a))
  {
    hide Merge, InBand, Produced, Unowned;
    if a.MergeWrite? && Outcome(s).Ok? {
      MergeKeepsUnowned(s);
    }
  }

  lemma {:induction false} MergeKeepsUnowned(s: State)
    requires s.pc.HasRead? && Outcome(s).Ok?
    ensures Unowned(Outcome(s).text) == Unowned(s.pc.read.text)
  {
    hide Merge, Split, Select;
    UnownedKept(s.pc.read.text, ParamsOf(s.pc.task), s.defaults);
  }

  /** A must-match line after a merge was there before or renders a value of the epoch. */
  lemma {:induction false} MergeProvenance(s: State, line: string)
    requires s.pc.HasRead? && Outcome(s).Ok?
    requires line in Split(Outcome(s).text, '\n') && MustMatchLine(line)
    ensures line in Split(s.pc.read.text, '\n') || (s.pc.task.Epoch? && FromEpoch(line, {s.pc.task.p}))
  {
    hide Merge, Split, Owner, ClassOf, EpochMember, Valid, Render;
    MustMatchProvenance(s.pc.read.text, ParamsOf(s.pc.task), s.defaults, line);
  }

  lemma {:induction false} FromEpochGrows(line: string, a: set<AwgParams>, b: set<AwgParams>)
    requires FromEpoch(line, a) && a <= b
    ensures FromEpoch(line, b)
  {
    hide EpochMember, Valid, Render;
  }

  lemma {:induction false} KeepsProvenanceMerge(s: State)
    requires s.pc.HasRead? && s.pc.read == s.disk && ProvenanceInv(s)
    ensures ProvenanceInv(MergeStep(s))
  {
    hide Merge, Split, MustMatchLine, FromEpoch;
    var t := MergeStep(s);
    forall line | line in Split(t.disk.text, '\n') && MustMatchLine(line)
      ensures line in Split(t.installed, '\n') || FromEpoch(line, t.merged)
    {
      if Outcome(s).Ok? {
        MergeProvenance(s, line);
        if s.pc.task.Epoch? && FromEpoch(line, {s.pc.task.p}) {
          FromEpochGrows(line, {s.pc.task.p}, t.merged);
        } else if FromEpoch(line, s.merged) {
          FromEpochGrows(line, s.merged, t.merged);
        }
      }
    }
  }

  lemma {:induction false} KeepsProvenance(s: State, a: Event)
    requires Enabled(s, a) && TickInv(s) && ProvenanceInv(s)
    ensures ProvenanceInv(Step(s, a))
  {
    hide Merge, InBand, Produced, Split, MustMatchLine, FromEpoch, MergeStep;
    if a.MergeWrite? {
      KeepsProvenanceMerge(s);
    }
  }

  lemma {:induction false} KeepsSaves(s: State, a: Event)
    requires Enabled(s, a) && VersionInv(s) && TickInv(s) && GateInv(s) && SavesInv(s) && InBand(s.defaults)
    ensures SavesInv(Step(s, a))
  {
    hide Merge, InBand, VersionInv, TickInv, SaveOk;
    KeepsVersions(s, a);
    SavesStay(s, Step(s, a).versions);
    if a.Save? {
      KeepsSavesSave(s);
    } else {
      assert Step(s, a).saves == s.saves && Step(s, a).epoch == s.epoch;
    }
  }

  lemma {:induction false} KeepsSavesSave(s: State)
    requires s.pc.Synced? && s.pc.task.Epoch?
    requires TickInv(s) && GateInv(s) && SavesInv(s) && InBand(s.defaults)
    ensures SavesInv(SaveStep(s))
  {
    hide Merge, InBand, TickInv, SaveOk;
    SaveIsOk(s);
    assert forall i :: 0 <= i < |s.saves| ==> s.saves[i].e <= Last(s.epoch);
  }

  lemma {:induction false} SavesStay(s: State, versions: set<Version>)
    requires SavesInv(s) && s.versions <= versions
    ensures forall i :: 0 <= i < |s.saves| ==> SaveOk(s.saves[i], versions)
  {
    hide Merge, InBand;
  }

  lemma {:induction false} SaveIsOk(s: State)
    requires s.pc.Synced? && s.pc.task.Epoch? && TickInv(s) && InBand(s.defaults)
    ensures var pc := s.pc;
            SaveOk(SaveRecord(pc.task.e, pc.task.p, s.defaults, pc.read, pc.id, pc.v, pc.checkedAt, pc.strippedAt),
                   s.versions)
  {
    hide Merge, InBand;
  }

  /** Every step keeps the invariant. */
  lemma {:induction false} StepKeepsInv(s: State, a: Event)
    requires Inv(s) && Enabled(s, a)
    ensures Inv(Step(s, a))
  {
    hide Merge, InBand, LockInv, VersionInv, TickInv, GateInv, KernelInv, UnownedInv, ProvenanceInv, SavesInv;
    KeepsLock(s, a);
    KeepsVersions(s, a);
    KeepsTick(s, a);
    KeepsGate(s, a);
    KeepsKernel(s, a);
    KeepsUnowned(s, a);
    KeepsProvenance(s, a);
    KeepsSaves(s, a);
  }

  /** Every state of every run satisfies the invariant. */
  lemma {:induction false} RunKeepsInv(s: State, acts: seq<Event>)
    requires Inv(s) && Runs(s, acts)
    ensures Inv(Run(s, acts))
    decreases |acts|
  {
    hide Inv, Enabled, Step;
    if acts != [] {
      StepKeepsInv(s, acts[0]);
      RunKeepsInv(Step(s, acts[0]), acts[1..]);
    }
  }
}
