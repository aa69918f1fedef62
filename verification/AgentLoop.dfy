/**
 The agent loop as the code runs it, on a host whose other writers interfere between any two
 of its operations. The ghost field `trace` collects the machine events the code performs;
 `Valid` says that they form a run of the machine and that the fields are where it ends.
 */
module AgentLoop {
  import opened Common
  import opened Params
  import opened FieldSpecs
  import opened ConfMerge
  import opened Defaults
  import opened Agent
  import opened AgentInvariants
  import MergeMethod

  lemma {:induction false} RunSnoc(s: State, acts: seq<Event>, a: Event)
    requires Runs(s, acts) && Enabled(Run(s, acts), a)
    ensures Runs(s, acts + [a]) && Run(s, acts + [a]) == Step(Run(s, acts), a)
    decreases |acts|
  {
    hide Enabled, Step;
    if acts == [] {
      assert acts + [a] == [a];
      assert [a][1..] == [];
    } else {
      assert (acts + [a])[1..] == acts[1..] + [a];
      RunSnoc(Step(s, acts[0]), acts[1..], a);
    }
  }

  datatype SyncOutcome = Applied | Refused | Torn | TimedOut

  /** The outcome of every fallible operation of one pass. */
  datatype Io = Io(stateOk: bool, attempts: nat, lockError: Option<nat>, readOk: bool, writeOk: bool, statOk: bool,
                   restatOk: bool, stripOk: bool, sync: SyncOutcome, saveOk: bool)

  // ---- the others ---------------------------------------------------------------------------

  /** One request of the others: carried out if it is an installer or kernel event and possible. */
  ghost function AfterOne(s: State, r: Event): State {
    if Environment(r) && Enabled(s, r) then Step(s, r) else s
  }

  ghost function After(s: State, requests: seq<Event>): State {
    if requests == [] then s
    else AfterOne(After(s, requests[..|requests| - 1]), requests[|requests| - 1])
  }

  /** The state after the first `n` stretches of waiting. */
  ghost function Waited(s: State, env: nat -> seq<Event>, n: nat): State {
    if n == 0 then s else After(Waited(s, env, n - 1), env(n - 1))
  }

  /** The lock comes free within the attempts, before any of them fails. */
  ghost predicate GetsLock(s: State, attempts: nat, error: Option<nat>, env: nat -> seq<Event>) {
    exists n: nat :: n <= attempts && Waited(s, env, n).lock.Free? && (error.Some? ==> n < error.value)
  }

  /** The lock is free after `n` stretches and not before. */
  ghost predicate FirstFree(s: State, env: nat -> seq<Event>, n: nat) {
    Waited(s, env, n).lock.Free? && forall k: nat :: k < n ==> !Waited(s, env, k).lock.Free?
  }

  /** Up to the attempt `n` the lock was never free, and no attempt failed. */
  ghost predicate Blocked(s: State, env: nat -> seq<Event>, error: Option<nat>, n: nat) {
    forall k: nat :: k < n ==> !Waited(s, env, k).lock.Free? && error != Some(k)
  }

  lemma NoWait(s: State, env: nat -> seq<Event>, error: Option<nat>)
    ensures Waited(s, env, 0) == s && Blocked(s, env, error, 0)
  {
  }

  lemma BlockedLonger(s: State, env: nat -> seq<Event>, error: Option<nat>, n: nat)
    requires Blocked(s, env, error, n) && !Waited(s, env, n).lock.Free? && error != Some(n)
    ensures Blocked(s, env, error, n + 1)
  {
    hide Waited;
  }

  lemma NeverFree(s: State, env: nat -> seq<Event>, error: Option<nat>, n: nat, attempts: nat)
    requires Blocked(s, env, error, n) && n <= attempts
    requires error == Some(n) || (n == attempts && !Waited(s, env, n).lock.Free?)
    ensures !GetsLock(s, attempts, error, env)
    ensures error.Some? && error.value <= attempts <==> error == Some(n)
  {
    hide Waited;
  }

  lemma NowFree(s: State, env: nat -> seq<Event>, error: Option<nat>, n: nat, attempts: nat)
    requires Blocked(s, env, error, n) && n <= attempts && error != Some(n) && Waited(s, env, n).lock.Free?
    ensures GetsLock(s, attempts, error, env) && FirstFree(s, env, n)
  {
    hide Waited;
  }

  predicate Writeless(requests: seq<Event>) {
    forall i :: 0 <= i < |requests| ==> !requests[i].InstallerWrite?
  }

  /** The others do no more than take and release the lock. */
  predicate Locking(requests: seq<Event>) {
    forall i :: 0 <= i < |requests| ==> requests[i].InstallerLock? || requests[i].InstallerUnlock?
  }

  ghost predicate NoWrites(env: nat -> seq<Event>) {
    forall n :: Writeless(env(n))
  }

  ghost predicate LocksOnly(env: nat -> seq<Event>) {
    forall n :: Locking(env(n))
  }

  /** The same, event by event. */
  lemma {:induction false} OneRequest(s: State, r: Event)
    ensures AfterOne(s, r) ==
            if r.InstallerLock? && s.lock.Free? then s.(lock := ByInstaller)
            else if r.InstallerWrite? && s.lock.ByInstaller? then Written(s, r.text).(installed := r.text, merged := {})
            else if r.InstallerUnlock? && s.lock.ByInstaller? then s.(lock := Free)
            else if r.ExternalLoad? || ((r.StragglerLoad? || r.StragglerTorn?) && r.v in s.stragglers)
                 then s.(kernel := LoadedBy(r, s.disk))
            else s
  {
    hide Merge, InBand;
  }

  /** What the others leave alone. */
  lemma {:induction false} AfterKeeps(s: State, requests: seq<Event>)
    ensures var t := After(s, requests);
            && t.pc == s.pc && t.epoch == s.epoch && t.defaults == s.defaults && t.saves == s.saves
            && (s.lock.ByAgent? ==> t.lock.ByAgent?) && (!s.lock.ByAgent? ==> !t.lock.ByAgent?)
            && (s.lock.ByAgent? || Writeless(requests) ==> t.disk == s.disk && t.nextId == s.nextId)
            && (Locking(requests) ==> t.kernel == s.kernel)
  {
    hide AfterOne;
    if requests != [] {
      var n := |requests| - 1;
      AfterKeeps(s, requests[..n]);
      OneRequest(After(s, requests[..n]), requests[n]);
    }
  }

  lemma {:induction false} WaitedKeeps(s: State, env: nat -> seq<Event>, n: nat)
    ensures var t := Waited(s, env, n);
            && t.pc == s.pc && t.epoch == s.epoch && t.defaults == s.defaults && t.saves == s.saves
            && (!s.lock.ByAgent? ==> !t.lock.ByAgent?)
            && (NoWrites(env) ==> t.disk == s.disk && t.nextId == s.nextId)
            && (LocksOnly(env) ==> t.kernel == s.kernel)
  {
    hide After, Writeless, Locking;
    if n > 0 {
      WaitedKeeps(s, env, n - 1);
      AfterKeeps(Waited(s, env, n - 1), env(n - 1));
    }
  }

  /** A lock that is released in the stretch `n` and not taken again in it is free after it: whoever
      has attempts left gets it. */
  lemma {:induction false} ReleasedInTime(s: State, env: nat -> seq<Event>, n: nat, attempts: nat)
    requires !s.lock.ByAgent? && n < attempts
    requires env(n) != [] && env(n)[|env(n)| - 1].InstallerUnlock?
    ensures GetsLock(s, attempts, None, env)
  {
    hide After, AfterOne, Waited;
    WaitedKeeps(s, env, n);
    var t, requests := Waited(s, env, n), env(n);
    var init := requests[..|requests| - 1];
    AfterKeeps(t, init);
    OneRequest(After(t, init), InstallerUnlock);
    LastRequest(t, requests);
    OneStretch(s, env, n);
  }

  lemma LastRequest(s: State, requests: seq<Event>)
    requires requests != []
    ensures After(s, requests) == AfterOne(After(s, requests[..|requests| - 1]), requests[|requests| - 1])
  {
    hide AfterOne;
  }

  lemma OneStretch(s: State, env: nat -> seq<Event>, n: nat)
    ensures Waited(s, env, n + 1) == After(Waited(s, env, n), env(n))
  {
    hide After;
  }

  // ---- the outcomes -------------------------------------------------------------------------

  predicate AllOk(io: Io) {
    && io.stateOk && io.lockError.None? && io.readOk && io.writeOk && io.statOk
    && io.restatOk && io.stripOk && io.sync.Applied? && io.saveOk
  }

  /** What the kernel runs after such an event. */
  function LoadedBy(r: Event, disk: Version): Kernel
    requires r.ExternalLoad? || r.StragglerLoad? || r.StragglerTorn?
  {
    match r
    case ExternalLoad => Loaded(disk)
    case StragglerLoad(v) => Loaded(v)
    case StragglerTorn(_) => Unknown
  }

  /** The log grew by one record, for this epoch. */
  ghost predicate Logged(before: seq<SaveRecord>, after: seq<SaveRecord>, e: int, p: AwgParams) {
    |after| == |before| + 1 && before <= after && after[|before|].e == e && after[|before|].p == p
  }

  class Host {
    var disk: Version
    var nextId: nat
    var lock: Holder
    var kernel: Kernel
    var stragglers: set<Version>
    var epoch: Option<int>
    var defaults: ClientDefaults

    ghost var pc: Pc
    ghost var versions: set<Version>
    ghost var installed: string
    ghost var merged: set<AwgParams>
    ghost var saves: seq<SaveRecord>
    ghost var start: State
    ghost var trace: seq<Event>

    ghost function Abs(): State
      reads this
    {
      State(disk, nextId, lock, kernel, stragglers, epoch, pc, defaults, versions, installed, merged, saves)
    }

    ghost predicate Valid()
      reads this
    {
      Runs(start, trace) && Run(start, trace) == Abs()
    }

    constructor (text: string, state: Option<int>, d: ClientDefaults)
      requires InBand(d)
      ensures Valid() && Init(Abs()) && start == Abs()
      ensures disk.text == text && epoch == state && defaults == d && lock == Free
    {
      disk, nextId, lock, kernel, stragglers, epoch, defaults := Version(text, 0), 1, Free, Unknown, {}, state, d;
      pc, versions, installed, merged, saves := Start, {Version(text, 0)}, text, {}, [];
      start := State(Version(text, 0), 1, Free, Unknown, {}, state, Start, d, {Version(text, 0)}, text, {}, []);
      trace := [];
    }

    /** Commit the event `a` of which the fields already show the result. */
    ghost method Commit(a: Event, before: State)
      requires Runs(start, trace) && Run(start, trace) == before
      requires Enabled(before, a) && Step(before, a) == Abs()
      modifies this`trace
      ensures Valid() && trace == old(trace) + [a]
    {
      RunSnoc(start, trace, a);
      trace := trace + [a];
    }

    /** What the environment does while the agent is elsewhere: those of the requests that are
        installer or kernel events and possible at their turn. */
    method Interfere(requests: seq<Event>)
      requires Valid()
      modifies this
      ensures Valid() && start == old(start) && old(trace) <= trace
      ensures pc == old(pc) && epoch == old(epoch) && defaults == old(defaults) && saves == old(saves)
      ensures old(lock).ByAgent? ==> lock.ByAgent? && disk == old(disk) && nextId == old(nextId)
      ensures !old(lock).ByAgent? ==> !lock.ByAgent?
      ensures Abs() == After(old(Abs()), requests)
      ensures Writeless(requests) ==> disk == old(disk) && nextId == old(nextId)
      ensures Locking(requests) ==> kernel == old(kernel)
    {
      hide Valid, Run, Runs, Merge, InBand, AfterOne;
      var n := 0;
      while n < |requests|
        invariant 0 <= n <= |requests|
        invariant Valid() && start == old(start) && old(trace) <= trace
        invariant Abs() == After(old(Abs()), requests[..n])
      {
        Serve(requests[n]);
        assert requests[..n + 1][..n] == requests[..n];
        n := n + 1;
      }
      assert requests[..n] == requests;
      AfterKeeps(old(Abs()), requests);
    }

    method Serve(r: Event)
      requires Valid()
      modifies this
      ensures Valid() && start == old(start) && old(trace) <= trace
      ensures Abs() == AfterOne(old(Abs()), r)
    {
      hide Valid, Run, Runs, Merge, InBand, AfterOne;
      OneRequest(Abs(), r);
      if r.InstallerLock? && lock.Free? {
        InstallerLockStep();
      } else if r.InstallerWrite? && lock.ByInstaller? {
        InstallerWriteStep(r.text);
      } else if r.InstallerUnlock? && lock.ByInstaller? {
        InstallerUnlockStep();
      } else if r.ExternalLoad? || ((r.StragglerLoad? || r.StragglerTorn?) && r.v in stragglers) {
        KernelStep(r);
      }
    }

    method InstallerLockStep()
      requires Valid() && lock.Free?
      modifies this
      ensures Valid() && start == old(start) && trace == old(trace) + [InstallerLock]
      ensures Abs() == old(Abs()).(lock := ByInstaller)
    {
      hide Run, Runs, Merge, InBand;
      ghost var before := Abs();
      lock := ByInstaller;
      Commit(InstallerLock, before);
    }

    method InstallerWriteStep(text: string)
      requires Valid() && lock.ByInstaller?
      modifies this
      ensures Valid() && start == old(start) && trace == old(trace) + [InstallerWrite(text)]
      ensures Abs() == Written(old(Abs()), text).(installed := text, merged := {})
    {
      hide Run, Runs, Merge, InBand;
      ghost var before := Abs();
      disk, nextId := Version(text, nextId), nextId + 1;
      versions, installed, merged := versions + {disk}, text, {};
      assert Abs() == Written(before, text).(installed := text, merged := {});
      Commit(InstallerWrite(text), before);
    }

    method InstallerUnlockStep()
      requires Valid() && lock.ByInstaller?
      modifies this
      ensures Valid() && start == old(start) && trace == old(trace) + [InstallerUnlock]
      ensures Abs() == old(Abs()).(lock := Free)
    {
      hide Run, Runs, Merge, InBand;
      ghost var before := Abs();
      lock := Free;
      Commit(InstallerUnlock, before);
    }

    /** Somebody loads the conf on disk, or a `syncconf` given up on finishes after all, with the
        whole conf or with the part of it that had reached it. */
    method KernelStep(r: Event)
      requires Valid() && (r.ExternalLoad? || ((r.StragglerLoad? || r.StragglerTorn?) && r.v in stragglers))
      modifies this
      ensures Valid() && start == old(start) && trace == old(trace) + [r]
      ensures Abs() == old(Abs()).(kernel := LoadedBy(r, disk))
    {
      hide Run, Runs, Merge, InBand;
      ghost var before := Abs();
      kernel := LoadedBy(r, disk);
      Commit(r, before);
    }

    /** `acquire_conf_lock_blocking`: poll the lock until it is free or the attempts run out, or
        until opening or locking the file fails, at the attempt `error`. */
    method AcquireLock(task: Task, attempts: nat, error: Option<nat>, env: nat -> seq<Event>) returns (ok: bool)
      requires Valid() && pc == Waiting(task) && !lock.ByAgent?
      modifies this
      ensures Valid() && start == old(start) && old(trace) <= trace
      ensures epoch == old(epoch) && defaults == old(defaults) && saves == old(saves)
      ensures ok ==> pc == Holding(task) && lock.ByAgent?
      ensures !ok ==> pc.Idle? && !lock.ByAgent?
      ensures ok <==> GetsLock(old(Abs()), attempts, error, env)
      ensures ok ==> exists n: nat ::
                && FirstFree(old(Abs()), env, n)
                && Abs() == Waited(old(Abs()), env, n).(lock := ByAgent, pc := Holding(task))
      ensures !ok ==>
                trace != []
                && trace[|trace| - 1] == (if error.Some? && error.value <= attempts then LockError else LockTimeout)
      ensures NoWrites(env) ==> disk == old(disk) && nextId == old(nextId)
      ensures LocksOnly(env) ==> kernel == old(kernel)
    {
      hide Valid, Run, Runs, Merge, InBand, After, Writeless, Locking, Waited, Blocked, GetsLock, FirstFree;
      ghost var s := Abs();
      var n := 0;
      NoWait(s, env, error);
      while error == Some(n) || !lock.Free?
        invariant Valid() && start == old(start) && old(trace) <= trace
        invariant n <= attempts && Abs() == Waited(s, env, n) && Blocked(s, env, error, n)
        decreases attempts - n
      {
        WaitedKeeps(s, env, n);
        if error == Some(n) || n == attempts {
          NeverFree(s, env, error, n, attempts);
          GiveUp(if error == Some(n) then LockError else LockTimeout);
          return false;
        }
        BlockedLonger(s, env, error, n);
        OneStretch(s, env, n);
        Interfere(env(n));
        n := n + 1;
      }
      WaitedKeeps(s, env, n);
      NowFree(s, env, error, n, attempts);
      TakeLock(task);
      return true;
    }

    method TakeLock(task: Task)
      requires Valid() && lock.Free? && pc == Waiting(task)
      modifies this
      ensures Valid() && start == old(start) && trace == old(trace) + [Acquire]
      ensures Abs() == old(Abs()).(lock := ByAgent, pc := Holding(task))
    {
      hide Run, Runs, Merge, InBand;
      ghost var before := Abs();
      lock, pc := ByAgent, Holding(task);
      Commit(Acquire, before);
    }

    method GiveUp(e: Event)
      requires Valid() && pc.Waiting? && (e.LockError? || e.LockTimeout?)
      modifies this
      ensures Valid() && start == old(start) && trace == old(trace) + [e]
      ensures Abs() == old(Abs()).(pc := Idle)
    {
      hide Run, Runs, Merge, InBand;
      ghost var before := Abs();
      pc := Idle;
      Commit(e, before);
    }

    /** Leave the critical section on an error path (`e` is the event that failed). */
    method Abandon(e: Event)
      requires Valid() && lock.ByAgent?
      requires (e.ReadError? && pc.Holding?) || (e.StatError? && pc.Wrote?)
               || (e.WriteError? && pc.HasRead? && Renames(Abs()))
               || (e.MergeWrite? && pc.HasRead? && Outcome(Abs()).Err?)
      modifies this
      ensures Valid() && start == old(start) && trace == old(trace) + [e]
      ensures epoch == old(epoch) && defaults == old(defaults) && saves == old(saves) && disk == old(disk)
      ensures kernel == old(kernel) && pc.Idle? && lock.Free?
    {
      hide Run, Runs, Merge, InBand;
      ghost var before := Abs();
      lock, pc := Free, Idle;
      Commit(e, before);
    }

    /** `merge_and_write_conf_locked`: read, merge and rename inside one critical section, and
        capture the identity before releasing the lock. */
    method MergeAndWriteLocked(task: Task, io: Io, env: nat -> seq<Event>)
      returns (written: Option<(nat, bool)>, ghost read: Version)
      requires Valid() && pc == Waiting(task) && !lock.ByAgent?
      modifies this
      ensures Valid() && start == old(start) && old(trace) <= trace
      ensures epoch == old(epoch) && defaults == old(defaults) && saves == old(saves)
      ensures !lock.ByAgent?
      ensures written.Some? ==> ReleasedWith(task, io, written.value, read)
      ensures written.None? ==> pc.Idle?
      ensures GetsLock(old(Abs()), io.attempts, io.lockError, env) && NoWrites(env)
              && io.readOk && io.writeOk && io.statOk ==>
                lock.Free? && WroteMerge(old(disk), old(nextId), task, written)
      ensures !GetsLock(old(Abs()), io.attempts, io.lockError, env) ==> written.None?
      ensures LocksOnly(env) ==> kernel == old(kernel)
    {
      hide Valid, Run, Runs, Merge, InBand, WroteMerge, ReleasedWith, GetsLock, FirstFree, After, Writeless, Locking;
      read := disk;
      var locked := AcquireLock(task, io.attempts, io.lockError, env);
      if !locked {
        return None, disk;
      }
      Interfere(env(io.attempts));
      written, read := CriticalSection(task, io, env);
    }

    /** The tick stands behind the critical section, with the identity and the verdict it reports. */
    ghost predicate ReleasedWith(task: Task, io: Io, written: (nat, bool), read: Version)
      reads this
    {
      && io.readOk && io.statOk
      && pc == Released(task, read, written.1, written.0)
      && Merge(read.text, ParamsOf(task), defaults).Ok?
    }

    /** The disk holds the merge of what it held before, under a new identity if that changed it. */
    ghost predicate WroteMerge(was: Version, newId: nat, task: Task, written: Option<(nat, bool)>)
      reads this
    {
      match Merge(was.text, ParamsOf(task), defaults)
      case Err(_) => written.None? && disk == was
      case Ok(text, _) =>
        && disk == (if text == was.text then was else Version(text, newId))
        && written == Some((disk.id, text != was.text))
    }

    method CriticalSection(task: Task, io: Io, env: nat -> seq<Event>)
      returns (written: Option<(nat, bool)>, ghost read: Version)
      requires Valid() && pc == Holding(task) && lock.ByAgent?
      modifies this
      ensures Valid() && start == old(start) && old(trace) <= trace
      ensures epoch == old(epoch) && defaults == old(defaults) && saves == old(saves)
      ensures lock.Free?
      ensures written.Some? ==> ReleasedWith(task, io, written.value, read)
      ensures written.None? ==> pc.Idle?
      ensures io.readOk && io.writeOk && io.statOk ==> WroteMerge(old(disk), old(nextId), task, written)
      ensures LocksOnly(env) ==> kernel == old(kernel)
    {
      hide Valid, Run, Runs, Merge, InBand;
      if !io.readOk {
        Abandon(ReadError);
        return None, disk;
      }
      var text := disk.text;
      read := disk;
      ReadStep(task);
      Interfere(env(io.attempts + 1));
      var ok, changed := MergeUnderLock(task, text, io.writeOk);
      if !ok {
        return None, read;
      }
      Interfere(env(io.attempts + 2));
      if !io.statOk {
        Abandon(StatError);
        return None, read;
      }
      var id := disk.id;
      ReleaseSteps(task, read, changed, env(io.attempts + 3));
      return Some((id, changed)), read;
    }

    /** Merge the text that was read and rename the result into place if it differs. */
    method MergeUnderLock(task: Task, text: string, writeOk: bool) returns (ok: bool, changed: bool)
      requires Valid() && lock.ByAgent? && pc == HasRead(task, disk) && text == disk.text
      modifies this
      ensures Valid() && start == old(start) && old(trace) <= trace
      ensures epoch == old(epoch) && defaults == old(defaults) && saves == old(saves) && kernel == old(kernel)
      ensures var m := Merge(text, ParamsOf(task), defaults);
              && changed == (m.Ok? && m.text != text)
              && ok == (m.Ok? && (changed ==> writeOk))
              && disk == if ok && changed then Version(m.text, old(nextId)) else old(disk)
      ensures if ok then lock.ByAgent? && pc == Wrote(task, old(disk), changed) else lock.Free? && pc.Idle?
    {
      hide Valid, Run, Runs, Merge, InBand;
      var r := MergeMethod.MergeReporting(text, ParamsOf(task), defaults);
      changed := r.Ok? && r.text != text;
      if r.Err? {
        Abandon(MergeWrite);
        return false, changed;
      }
      if changed && !writeOk {
        Abandon(WriteError);
        return false, changed;
      }
      WriteStep(task, r.text, changed);
      return true, changed;
    }

    method ReadStep(task: Task)
      requires Valid() && pc == Holding(task)
      modifies this
      ensures Valid() && start == old(start) && trace == old(trace) + [ReadConf]
      ensures Abs() == old(Abs()).(pc := HasRead(task, disk))
    {
      hide Run, Runs, Merge, InBand;
      ghost var before := Abs();
      pc := HasRead(task, disk);
      Commit(ReadConf, before);
    }

    /** The rename, skipped when the merge changed nothing. */
    method WriteStep(task: Task, text: string, changed: bool)
      requires Valid() && pc.HasRead? && pc.task == task && lock.ByAgent?
      requires Outcome(Abs()).Ok? && text == Outcome(Abs()).text && changed == (text != pc.read.text)
      modifies this
      ensures Valid() && start == old(start) && trace == old(trace) + [MergeWrite]
      ensures epoch == old(epoch) && defaults == old(defaults) && saves == old(saves) && lock == old(lock)
      ensures pc == Wrote(task, old(pc).read, changed) && kernel == old(kernel)
      ensures disk == if changed then Version(text, old(nextId)) else old(disk)
    {
      hide Run, Runs, Merge, InBand;
      ghost var before := Abs();
      if changed {
        disk, nextId := Version(text, nextId), nextId + 1;
        versions := versions + {disk};
      }
      merged := if task.Epoch? then merged + {task.p} else merged;
      pc := Wrote(task, pc.read, changed);
      Commit(MergeWrite, before);
    }

    /** Capture the identity while the lock is still held, then let it go. */
    method ReleaseSteps(task: Task, ghost read: Version, changed: bool, between: seq<Event>)
      requires Valid() && pc == Wrote(task, read, changed) && lock.ByAgent?
      modifies this
      ensures Valid() && start == old(start) && old(trace) <= trace
      ensures epoch == old(epoch) && defaults == old(defaults) && saves == old(saves)
      ensures pc == Released(task, read, changed, old(disk).id) && lock.Free? && disk == old(disk)
      ensures Locking(between) ==> kernel == old(kernel)
    {
      hide Valid, Run, Runs, Merge, InBand;
      StatStep(task, read, changed);
      Interfere(between);
      UnlockStep(task, read, changed, old(disk).id);
    }

    method StatStep(task: Task, ghost read: Version, changed: bool)
      requires Valid() && pc == Wrote(task, read, changed)
      modifies this
      ensures Valid() && start == old(start) && trace == old(trace) + [Stat]
      ensures Abs() == old(Abs()).(pc := Captured(task, read, changed, disk.id))
    {
      hide Run, Runs, Merge, InBand;
      ghost var before := Abs();
      pc := Captured(task, read, changed, disk.id);
      Commit(Stat, before);
    }

    method UnlockStep(task: Task, ghost read: Version, changed: bool, ghost id: nat)
      requires Valid() && pc == Captured(task, read, changed, id)
      modifies this
      ensures Valid() && start == old(start) && trace == old(trace) + [Unlock]
      ensures Abs() == old(Abs()).(lock := Free, pc := Released(task, read, changed, id))
    {
      hide Run, Runs, Merge, InBand;
      ghost var before := Abs();
      lock, pc := Free, Released(task, read, changed, id);
      Commit(Unlock, before);
    }

    /** `conf_changed_since` and its three outcomes. */
    method Guard(task: Task, ghost read: Version, changed: bool, id: nat, restatOk: bool) returns (go: bool)
      requires Valid() && pc == Released(task, read, changed, id)
      modifies this
      ensures Valid() && start == old(start) && old(trace) <= trace
      ensures epoch == old(epoch) && saves == old(saves) && defaults == old(defaults)
      ensures lock == old(lock) && disk == old(disk)
      ensures go <==> restatOk && !(task.TopUp? && !changed) && disk.id == id
      ensures kernel == old(kernel)
      ensures go ==> pc == Checked(task, read, id, nextId)
      ensures !go ==> pc.Idle?
    {
      hide Run, Runs, Merge, InBand;
      ghost var before := Abs();
      if task.TopUp? && !changed {
        pc := Idle;
        Commit(Restat, before);
        return false;
      }
      if !restatOk {
        pc := Idle;
        Commit(RestatError, before);
        return false;
      }
      if disk.id != id {
        pc := Idle;
        Commit(Restat, before);
        return false;
      }
      pc := Checked(task, read, id, nextId);
      Commit(Restat, before);
      return true;
    }

    /** `apply_to_kernel`: strip the conf on disk, then load what was stripped. */
    method ApplyToKernel(task: Task, io: Io, between: seq<Event>) returns (ok: bool)
      requires Valid() && pc.Checked? && pc.task == task && !lock.ByAgent?
      modifies this
      ensures Valid() && start == old(start) && old(trace) <= trace
      ensures epoch == old(epoch) && saves == old(saves) && defaults == old(defaults) && !lock.ByAgent?
      ensures ok <==> io.stripOk && io.sync.Applied?
      ensures !ok ==> pc.Idle?
      ensures ok && task.TopUp? ==> pc.Idle?
      ensures ok && task.Epoch? ==> pc.Synced? && pc.task == task
      ensures ok ==> kernel == Loaded(old(disk))
      ensures Writeless(between) ==> disk == old(disk)
    {
      hide Run, Runs, Merge, InBand;
      ghost var before := Abs();
      if !io.stripOk {
        pc := Idle;
        Commit(StripError, before);
        return false;
      }
      var stripped := disk;
      pc := Stripped(task, pc.read, pc.id, pc.checkedAt, disk, nextId);
      Commit(Strip, before);
      Interfere(between);
      ok := LoadStep(task, stripped, io.sync);
    }

    method LoadStep(task: Task, stripped: Version, outcome: SyncOutcome) returns (ok: bool)
      requires Valid() && pc.Stripped? && pc.task == task && pc.v == stripped && !lock.ByAgent?
      modifies this
      ensures Valid() && start == old(start) && old(trace) <= trace
      ensures epoch == old(epoch) && saves == old(saves) && defaults == old(defaults) && lock == old(lock)
      ensures ok <==> outcome.Applied?
      ensures !ok ==> pc.Idle?
      ensures ok && task.TopUp? ==> pc.Idle?
      ensures ok && task.Epoch? ==> pc.Synced? && pc.task == task
      ensures (ok ==> kernel == Loaded(stripped)) && disk == old(disk)
    {
      hide Run, Runs, Merge, InBand;
      ghost var before := Abs();
      match outcome
      case Applied =>
        kernel := Loaded(stripped);
        pc := if task.TopUp? then Idle
              else Synced(task, pc.read, pc.id, pc.checkedAt, pc.v, pc.strippedAt);
        Commit(Sync, before);
        return true;
      case Refused =>
        pc := Idle;
        Commit(SyncRefused, before);
        return false;
      case Torn =>
        kernel, pc := Unknown, Idle;
        Commit(SyncTorn, before);
        return false;
      case TimedOut =>
        stragglers, pc := stragglers + {stripped}, Idle;
        Commit(SyncTimeout, before);
        return false;
    }

    /** `save_state`, reached only after a successful apply. */
    method SaveState(task: Task, saveOk: bool)
      requires Valid() && pc.Synced? && pc.task == task && task.Epoch? && !lock.ByAgent?
      modifies this
      ensures Valid() && start == old(start) && old(trace) <= trace
      ensures pc.Idle? && lock == old(lock)
      ensures epoch == if saveOk then Some(task.e) else old(epoch)
      ensures kernel == old(kernel) && disk == old(disk)
      ensures if saveOk then Logged(old(saves), saves, task.e, task.p) else saves == old(saves)
    {
      hide Run, Runs, Merge, InBand;
      ghost var before := Abs();
      if saveOk {
        epoch := Some(task.e);
        saves := saves + [SaveRecord(task.e, task.p, defaults, pc.read, pc.id, pc.v, pc.checkedAt, pc.strippedAt)];
        pc := Idle;
        Commit(Save, before);
      } else {
        pc := Idle;
        Commit(SaveError, before);
      }
    }

    /** One tick. Whatever happens in between and whichever operation fails, the tick is a run
        of the machine that ends idle without the lock; the state file changes only to a newer
        epoch, and only when every operation of the tick succeeded. */
    method Tick(e: int, p: AwgParams, io: Io, env: nat -> seq<Event>) returns (saved: bool)
      requires Valid() && pc.Idle? && !lock.ByAgent?
      modifies this
      ensures Valid() && start == old(start) && old(trace) <= trace
      ensures pc.Idle? && !lock.ByAgent?
      ensures epoch == if saved then Some(e) else old(epoch)
      ensures saved ==> e > Last(old(epoch))
      ensures saved ==> io.stateOk && io.readOk && io.statOk && io.restatOk
      ensures saved ==> io.stripOk && io.sync.Applied? && io.saveOk
      ensures if saved then Logged(old(saves), saves, e, p) else saves == old(saves)
      ensures var was := old(Abs()).(pc := Waiting(Epoch(e, p)));
              GetsLock(was, io.attempts, io.lockError, env) && NoWrites(env) && AllOk(io) && e > Last(old(epoch)) ==>
                var m := Merge(old(disk).text, Some(p), old(defaults));
                && (saved <==> m.Ok?)
                && (if saved then disk.text == m.text else disk == old(disk))
                && (LocksOnly(env) ==> kernel == if saved then Loaded(disk) else old(kernel))
      ensures saved ==> GetsLock(old(Abs()).(pc := Waiting(Epoch(e, p))), io.attempts, io.lockError, env)
    {
      hide Valid, Run, Runs, Merge, InBand, GetsLock, Writeless, Locking;
      var pass := GateSteps(e, p, io.stateOk);
      if !pass {
        return false;
      }
      var task := Epoch(e, p);
      var written, read := MergeAndWriteLocked(task, io, env);
      if written.None? {
        return false;
      }
      saved := ApplyAndSave(task, written.value.1, written.value.0, read, io, env);
    }

    /** The second half of a tick, without the lock: guard, load, save. */
    method ApplyAndSave(task: Task, changed: bool, id: nat, ghost read: Version, io: Io, env: nat -> seq<Event>)
      returns (saved: bool)
      requires Valid() && pc == Released(task, read, changed, id) && task.Epoch? && !lock.ByAgent?
      modifies this
      ensures Valid() && start == old(start) && old(trace) <= trace
      ensures pc.Idle? && !lock.ByAgent?
      ensures epoch == if saved then Some(task.e) else old(epoch)
      ensures saved ==> io.restatOk && io.stripOk && io.sync.Applied? && io.saveOk
      ensures if saved then Logged(old(saves), saves, task.e, task.p) else saves == old(saves)
      ensures NoWrites(env) && AllOk(io) && old(disk).id == id ==>
                saved && disk == old(disk) && (LocksOnly(env) ==> kernel == Loaded(disk))
    {
      hide Valid, Run, Runs, Merge, InBand, After, Writeless, Locking;
      Interfere(env(io.attempts + 4));
      var go := Guard(task, read, changed, id, io.restatOk);
      if !go {
        return false;
      }
      Interfere(env(io.attempts + 5));
      var applied := ApplyToKernel(task, io, env(io.attempts + 6));
      if !applied {
        return false;
      }
      Interfere(env(io.attempts + 7));
      SaveState(task, io.saveOk);
      return io.saveOk;
    }

    method GateSteps(e: int, p: AwgParams, stateOk: bool) returns (pass: bool)
      requires Valid() && pc.Idle? && !lock.ByAgent?
      modifies this
      ensures Valid() && start == old(start) && old(trace) <= trace
      ensures epoch == old(epoch) && saves == old(saves) && lock == old(lock) && defaults == old(defaults)
      ensures pass <==> stateOk && e > Last(epoch)
      ensures Abs() == old(Abs()).(pc := pc)
      ensures pc == if pass then Waiting(Epoch(e, p)) else Idle
    {
      hide Run, Runs, Merge, InBand;
      ghost var before := Abs();
      pc := Polled(e, p);
      Commit(Poll(e, p), before);
      before := Abs();
      if !stateOk {
        pc := Idle;
        Commit(GateError, before);
        return false;
      }
      if e <= Last(epoch) {
        pc := Idle;
        Commit(Gate, before);
        return false;
      }
      pc := Waiting(Epoch(e, p));
      Commit(Gate, before);
      return true;
    }

    method BeginStep()
      requires Valid() && pc.Start?
      modifies this
      ensures Valid() && start == old(start) && trace == old(trace) + [BeginTopUp]
      ensures Abs() == old(Abs()).(pc := Waiting(TopUp))
    {
      hide Run, Runs, Merge, InBand;
      ghost var before := Abs();
      pc := Waiting(TopUp);
      Commit(BeginTopUp, before);
    }

    /** `startup_defaults_top_up`: a merge without params, applied only when it changed the
        conf; it never touches the state file. */
    method StartupTopUp(io: Io, env: nat -> seq<Event>)
      requires Valid() && pc.Start? && !lock.ByAgent?
      modifies this
      ensures Valid() && start == old(start) && old(trace) <= trace
      ensures pc.Idle? && !lock.ByAgent?
      ensures epoch == old(epoch) && saves == old(saves)
      ensures var was := old(Abs()).(pc := Waiting(TopUp));
              GetsLock(was, io.attempts, io.lockError, env) && NoWrites(env) && AllOk(io) ==>
                var m := Merge(old(disk).text, None, old(defaults));
                var changes := m.Ok? && m.text != old(disk).text;
                && (if changes then disk.text == m.text else disk == old(disk))
                && (LocksOnly(env) ==> kernel == if changes then Loaded(disk) else old(kernel))
    {
      hide Valid, Run, Runs, Merge, InBand, GetsLock, After, Writeless, Locking;
      BeginStep();
      var written, read := MergeAndWriteLocked(TopUp, io, env);
      if written.None? {
        return;
      }
      Interfere(env(io.attempts + 4));
      var go := Guard(TopUp, read, written.value.1, written.value.0, io.restatOk);
      if !go {
        return;
      }
      Interfere(env(io.attempts + 5));
      var _ := ApplyToKernel(TopUp, io, env(io.attempts + 6));
    }
  }

  /** Whatever mixture of calls brought it there, a host is in a state the machine's invariant covers. */
  lemma HostInvariant(h: Host)
    requires h.Valid() && Init(h.start)
    ensures Inv(h.Abs())
  {
    hide Init, Inv, Runs, Run;
    InitInv(h.start);
    RunKeepsInv(h.start, h.trace);
  }
}
