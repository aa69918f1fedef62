/**
 What the recorded history of a run means in terms of its events.
 */
module AgentHistory {
  import opened Common
  import opened Text
  import opened Params
  import opened FieldSpecs
  import opened ConfMerge
  import opened MergeTheorems
  import opened Defaults
  import opened Agent
  import opened AgentInvariants
  import opened AgentTheorems

  // ---- merged epochs --------------------------------------------------------------------------

  /** The number of events up to and including the installer's last write. */
  function UpToWrite(acts: seq<Event>): (n: nat)
    ensures n <= |acts|
  {
    if acts == [] then 0
    else if acts[|acts| - 1].InstallerWrite? then |acts|
    else UpToWrite(acts[..|acts| - 1])
  }

  /** The last poll before the event `m` delivered the epoch `e` with the params `p`. */
  ghost predicate PolledBefore(acts: seq<Event>, m: nat, e: int, p: AwgParams) {
    exists n :: 0 <= n < m <= |acts| && acts[n] == Poll(e, p) && forall i :: n < i < m ==> !acts[i].Poll?
  }

  /** The run merges `p` after the event `from`, in the tick that polled it. */
  ghost predicate MergesAfter(acts: seq<Event>, from: nat, p: AwgParams) {
    exists m, e :: from <= m < |acts| && acts[m].MergeWrite? && PolledBefore(acts, m, e, p)
  }

  /** The epoch the agent is busy with. */
  function InFlight(pc: Pc): Option<(int, AwgParams)> {
    if pc.Polled? then Some((pc.e, pc.p))
    else match TaskOf(pc)
         case Some(Epoch(e, p)) => Some((e, p))
         case _ => None
  }

  lemma {:induction false} RunInit(s: State, acts: seq<Event>)
    requires acts != [] && Runs(s, acts)
    ensures var n := |acts| - 1;
            && Runs(s, acts[..n])
            && Enabled(Run(s, acts[..n]), acts[n])
            && Run(s, acts) == Step(Run(s, acts[..n]), acts[n])
    decreases |acts|
  {
    hide Enabled, Step;
    var n := |acts| - 1;
    if n > 0 {
      RunInit(Step(s, acts[0]), acts[1..]);
      assert acts[1..][..n - 1] == acts[..n][1..];
    } else {
      assert acts[1..] == [] && acts[..n] == [];
    }
  }

  lemma {:induction false} PolledLonger(acts: seq<Event>, a: Event, m: nat, e: int, p: AwgParams)
    requires m <= |acts| && PolledBefore(acts, m, e, p)
    ensures PolledBefore(acts + [a], m, e, p)
    ensures m == |acts| && !a.Poll? ==> PolledBefore(acts + [a], m + 1, e, p)
  {
    var all := acts + [a];
    var n :| 0 <= n < m <= |acts| && acts[n] == Poll(e, p) && forall i :: n < i < m ==> !acts[i].Poll?;
    assert all[n] == Poll(e, p) && forall i :: n < i < m ==> all[i] == acts[i];
  }

  lemma {:induction false} MergesLonger(acts: seq<Event>, a: Event, from: nat, p: AwgParams)
    requires MergesAfter(acts, from, p)
    ensures MergesAfter(acts + [a], from, p)
  {
    hide PolledBefore;
    var m, e :| from <= m < |acts| && acts[m].MergeWrite? && PolledBefore(acts, m, e, p);
    PolledLonger(acts, a, m, e, p);
    assert (acts + [a])[m] == acts[m];
  }

  /** What one step does to the epoch in flight and to the merged ones. */
  lemma {:induction false} MergedStep(s: State, a: Event)
    requires Enabled(s, a)
    ensures var t := Step(s, a);
            && (InFlight(t.pc).Some? ==> InFlight(t.pc) == if a.Poll? then Some((a.e, a.p)) else InFlight(s.pc))
            && (a.InstallerWrite? ==> t.merged == {})
            && (forall p :: p in t.merged && p !in s.merged ==>
                  a.MergeWrite? && InFlight(s.pc).Some? && InFlight(s.pc).value.1 == p)
  {
    hide Merge, InBand;
  }

  /** Every epoch that counts as merged was polled in the run and merged after the installer's last
      write, and the epoch in flight is the one polled last. */
  lemma {:induction false} MergedWasPolled(s: State, acts: seq<Event>)
    requires Init(s) && Runs(s, acts)
    ensures forall p :: p in Run(s, acts).merged ==> MergesAfter(acts, UpToWrite(acts), p)
    ensures var x := InFlight(Run(s, acts).pc);
            x.Some? ==> PolledBefore(acts, |acts|, x.value.0, x.value.1)
    decreases |acts|
  {
    hide Enabled, Step, PolledBefore, MergesAfter, InBand;
    if acts != [] {
      var init, a := acts[..|acts| - 1], acts[|acts| - 1];
      assert acts == init + [a];
      RunInit(s, acts);
      var t, u := Run(s, init), Run(s, acts);
      MergedWasPolled(s, init);
      MergedStep(t, a);
      if InFlight(u.pc).Some? {
        if a.Poll? {
          JustPolled(init, a);
        } else {
          PolledLonger(init, a, |init|, InFlight(t.pc).value.0, InFlight(t.pc).value.1);
        }
      }
      forall p | p in u.merged
        ensures MergesAfter(acts, UpToWrite(acts), p)
      {
        if p in t.merged {
          MergesLonger(init, a, UpToWrite(init), p);
        } else {
          var e := InFlight(t.pc).value.0;
          PolledLonger(init, a, |init|, e, p);
          JustMerged(init, a, e, p);
        }
      }
    }
  }

  lemma JustPolled(acts: seq<Event>, a: Event)
    requires a.Poll?
    ensures PolledBefore(acts + [a], |acts| + 1, a.e, a.p)
  {
    assert (acts + [a])[|acts|] == Poll(a.e, a.p);
  }

  lemma JustMerged(acts: seq<Event>, a: Event, e: int, p: AwgParams)
    requires a.MergeWrite? && PolledBefore(acts + [a], |acts|, e, p)
    ensures MergesAfter(acts + [a], UpToWrite(acts), p)
  {
    assert (acts + [a])[|acts|] == a;
  }

  /** The line renders a valid value of an epoch that the run polled, and merged after the
      installer's last write. */
  ghost predicate FromRun(line: string, acts: seq<Event>) {
    exists p, k, v ::
      MergesAfter(acts, UpToWrite(acts), p) && EpochMember(k, p) == Some(v) && Valid(k, v) && line == Render(k, v)
  }

  /** Every must-match line on disk is one the installer last wrote or the rendering of a valid
      value of an epoch merged since; a top-up adds none. */
  lemma {:induction false} DiskProvenance(s: State, acts: seq<Event>, line: string)
    requires Init(s) && Runs(s, acts)
    requires line in Split(Run(s, acts).disk.text, '\n') && MustMatchLine(line)
    ensures line in Split(LastInstalled(s.disk.text, acts), '\n') || FromRun(line, acts)
  {
    hide Runs, Run, VersionInv, GateInv, KernelInv, TickInv, LockInv, SavesInv, UnownedInv, InBand, Split,
         MustMatchLine, LastInstalled, MergesAfter, UpToWrite, EpochMember, Valid, Render;
    Reachable(s, acts);
    InstalledIsLast(s, acts);
    MergedWasPolled(s, acts);
  }

  // ---- saved epochs ---------------------------------------------------------------------------

  /** Where the tick behind a save read the conf, re-stated it and stripped it. */
  datatype Marks = Marks(read: nat, restat: nat, strip: nat)

  ghost predicate ReadAt(s: State, acts: seq<Event>, n: nat, v: Version, d: ClientDefaults) {
    && n < |acts| && acts[n].ReadConf?
    && Runs(s, acts[..n]) && Run(s, acts[..n]).disk == v && Run(s, acts[..n]).defaults == d
  }

  ghost predicate RestatAt(s: State, acts: seq<Event>, n: nat, writes: nat) {
    && n < |acts| && acts[n].Restat?
    && Runs(s, acts[..n]) && Run(s, acts[..n]).nextId == writes
  }

  ghost predicate StripAt(s: State, acts: seq<Event>, n: nat, v: Version, writes: nat) {
    && n < |acts| && acts[n].Strip?
    && Runs(s, acts[..n]) && Run(s, acts[..n]).disk == v && Run(s, acts[..n]).nextId == writes
  }

  /** Between the two events nobody acts but the others. */
  ghost predicate OnlyOthers(acts: seq<Event>, from: nat, end: nat) {
    forall i :: from < i < end && i < |acts| ==> Environment(acts[i])
  }

  function ReadOf(pc: Pc): Option<Version> {
    if pc.HasRead? || pc.Wrote? || pc.Captured? || pc.Released? || pc.Checked? || pc.Stripped? || pc.Synced?
    then Some(pc.read) else None
  }

  function CheckOf(pc: Pc): Option<nat> {
    if pc.Checked? || pc.Stripped? || pc.Synced? then Some(pc.checkedAt) else None
  }

  function StripOf(pc: Pc): Option<(Version, nat)> {
    if pc.Stripped? || pc.Synced? then Some((pc.v, pc.strippedAt)) else None
  }

  /** The marks are those of the tick that the agent is in, as far as it has come. */
  ghost predicate Trail(s: State, acts: seq<Event>, t: State, w: Marks) {
    && (ReadOf(t.pc).Some? ==>
          && ReadAt(s, acts, w.read, ReadOf(t.pc).value, t.defaults)
          && (InFlight(t.pc).Some? ==> PolledBefore(acts, w.read, InFlight(t.pc).value.0, InFlight(t.pc).value.1)))
    && (CheckOf(t.pc).Some? ==> w.read < w.restat && RestatAt(s, acts, w.restat, CheckOf(t.pc).value))
    && (CheckOf(t.pc).Some? && StripOf(t.pc).None? ==> OnlyOthers(acts, w.restat, |acts|))
    && (StripOf(t.pc).Some? ==>
          && w.restat < w.strip && StripAt(s, acts, w.strip, StripOf(t.pc).value.0, StripOf(t.pc).value.1)
          && OnlyOthers(acts, w.restat, w.strip))
  }

  /** The record is the account of one tick of the run: the last poll before it read the conf delivered
      its epoch, and it re-stated and stripped where the marks say. */
  ghost predicate Recorded(s: State, acts: seq<Event>, r: SaveRecord, w: Marks) {
    && w.read < w.restat < w.strip
    && PolledBefore(acts, w.read, r.e, r.p)
    && ReadAt(s, acts, w.read, r.read, r.defaults)
    && RestatAt(s, acts, w.restat, r.checkedAt)
    && StripAt(s, acts, w.strip, r.loaded, r.strippedAt)
    && OnlyOthers(acts, w.restat, w.strip)
  }

  lemma {:induction false} AtLonger(s: State, acts: seq<Event>, a: Event, n: nat)
    requires n < |acts|
    ensures forall v, d :: ReadAt(s, acts, n, v, d) ==> ReadAt(s, acts + [a], n, v, d)
    ensures forall k :: RestatAt(s, acts, n, k) ==> RestatAt(s, acts + [a], n, k)
    ensures forall v, k :: StripAt(s, acts, n, v, k) ==> StripAt(s, acts + [a], n, v, k)
  {
    hide Runs, Run;
    assert (acts + [a])[..n] == acts[..n];
  }

  lemma {:induction false} RecordedLonger(s: State, acts: seq<Event>, a: Event, r: SaveRecord, w: Marks)
    requires Recorded(s, acts, r, w)
    ensures Recorded(s, acts + [a], r, w)
  {
    hide Runs, Run, PolledBefore;
    AtLonger(s, acts, a, w.read);
    AtLonger(s, acts, a, w.restat);
    AtLonger(s, acts, a, w.strip);
    PolledLonger(acts, a, w.read, r.e, r.p);
  }

  /** What one step does to the account of the tick. */
  lemma {:induction false} PcStep(s: State, a: Event)
    requires Enabled(s, a)
    ensures var t := Step(s, a);
            && (ReadOf(t.pc).Some? ==>
                  && t.defaults == s.defaults && !a.Poll? && InFlight(t.pc) == InFlight(s.pc)
                  && ReadOf(t.pc) == if a.ReadConf? then Some(s.disk) else ReadOf(s.pc))
            && (CheckOf(t.pc).Some? ==>
                  && ReadOf(t.pc).Some? && !a.ReadConf?
                  && CheckOf(t.pc) == if a.Restat? then Some(s.nextId) else CheckOf(s.pc))
            && (StripOf(t.pc).Some? ==>
                  && CheckOf(t.pc).Some? && !a.Restat? && (a.Strip? ==> StripOf(s.pc).None?)
                  && StripOf(t.pc) == if a.Strip? then Some((s.disk, s.nextId)) else StripOf(s.pc))
            && (CheckOf(t.pc).Some? && StripOf(t.pc).None? ==> a.Restat? || (Environment(a) && StripOf(s.pc).None?))
  {
    hide Merge, InBand;
  }

  /** What one step does to the log. */
  lemma {:induction false} SavesStep(s: State, a: Event)
    requires Enabled(s, a)
    ensures Step(s, a).saves ==
            if !a.Save? then s.saves
            else s.saves + [SaveRecord(s.pc.task.e, s.pc.task.p, s.defaults, s.pc.read, s.pc.id, s.pc.v,
                                       s.pc.checkedAt, s.pc.strippedAt)]
  {
    hide Merge, InBand;
  }

  lemma {:induction false} TrailStep(s: State, init: seq<Event>, a: Event, t: State, w: Marks) returns (x: Marks)
    requires Runs(s, init) && t == Run(s, init) && Enabled(t, a) && Trail(s, init, t, w)
    requires InFlight(t.pc).Some? ==> PolledBefore(init, |init|, InFlight(t.pc).value.0, InFlight(t.pc).value.1)
    ensures Trail(s, init + [a], Step(t, a), x)
  {
    hide Runs, Run, Enabled, Step, PolledBefore, InFlight, ReadOf, CheckOf, StripOf, Environment;
    var acts, n, u := init + [a], |init|, Step(t, a);
    x := if a.ReadConf? then w.(read := n) else if a.Restat? then w.(restat := n)
         else if a.Strip? then w.(strip := n) else w;
    PcStep(t, a);
    assert acts[..n] == init && acts[n] == a;
    if ReadOf(u.pc).Some? {
      TrailRead(s, init, a, t, w, x);
    }
    if CheckOf(u.pc).Some? {
      TrailRestat(s, init, a, t, w, x);
    }
    if StripOf(u.pc).Some? {
      TrailStrip(s, init, a, t, w, x);
    }
  }

  lemma {:induction false} TrailRead(s: State, init: seq<Event>, a: Event, t: State, w: Marks, x: Marks)
    requires Runs(s, init) && t == Run(s, init) && Enabled(t, a) && Trail(s, init, t, w)
    requires InFlight(t.pc).Some? ==> PolledBefore(init, |init|, InFlight(t.pc).value.0, InFlight(t.pc).value.1)
    requires ReadOf(Step(t, a).pc).Some? && x.read == if a.ReadConf? then |init| else w.read
    ensures var u := Step(t, a);
            && ReadAt(s, init + [a], x.read, ReadOf(u.pc).value, u.defaults)
            && (InFlight(u.pc).Some? ==>
                  PolledBefore(init + [a], x.read, InFlight(u.pc).value.0, InFlight(u.pc).value.1))
  {
    hide Runs, Run, Enabled, Step, PolledBefore, InFlight, ReadOf, CheckOf, StripOf, RestatAt, StripAt, OnlyOthers;
    PcStep(t, a);
    assert (init + [a])[..|init|] == init;
    if !a.ReadConf? {
      AtLonger(s, init, a, w.read);
    }
    if InFlight(t.pc).Some? {
      PolledLonger(init, a, x.read, InFlight(t.pc).value.0, InFlight(t.pc).value.1);
    }
  }

  lemma {:induction false} TrailRestat(s: State, init: seq<Event>, a: Event, t: State, w: Marks, x: Marks)
    requires Runs(s, init) && t == Run(s, init) && Enabled(t, a) && Trail(s, init, t, w)
    requires CheckOf(Step(t, a).pc).Some?
    requires x.read == w.read && x.restat == if a.Restat? then |init| else w.restat
    ensures var u := Step(t, a);
            && x.read < x.restat && RestatAt(s, init + [a], x.restat, CheckOf(u.pc).value)
            && (StripOf(u.pc).None? ==> OnlyOthers(init + [a], x.restat, |init| + 1))
  {
    hide Runs, Run, Enabled, Step, PolledBefore, InFlight, ReadOf, CheckOf, StripOf, StripAt, Environment;
    PcStep(t, a);
    assert (init + [a])[..|init|] == init;
    if !a.Restat? {
      AtLonger(s, init, a, w.restat);
      assert forall i :: 0 <= i < |init| ==> (init + [a])[i] == init[i];
    }
  }

  lemma {:induction false} TrailStrip(s: State, init: seq<Event>, a: Event, t: State, w: Marks, x: Marks)
    requires Runs(s, init) && t == Run(s, init) && Enabled(t, a) && Trail(s, init, t, w)
    requires StripOf(Step(t, a).pc).Some?
    requires x.restat == w.restat && x.strip == if a.Strip? then |init| else w.strip
    ensures var u := Step(t, a);
            && x.restat < x.strip && StripAt(s, init + [a], x.strip, StripOf(u.pc).value.0, StripOf(u.pc).value.1)
            && OnlyOthers(init + [a], x.restat, x.strip)
  {
    hide Runs, Run, Enabled, Step, PolledBefore, InFlight, ReadOf, CheckOf, StripOf, ReadAt, Environment;
    PcStep(t, a);
    assert (init + [a])[..|init|] == init;
    assert forall i :: 0 <= i < |init| ==> (init + [a])[i] == init[i];
    if !a.Strip? {
      AtLonger(s, init, a, w.strip);
    }
  }

  /** The account of a whole run: the tick under way, and one tick for every record of the log. */
  lemma {:induction false} History(s: State, acts: seq<Event>) returns (w: Marks, ws: seq<Marks>)
    requires Init(s) && Runs(s, acts)
    ensures Trail(s, acts, Run(s, acts), w)
    ensures |ws| == |Run(s, acts).saves|
    ensures forall i :: 0 <= i < |ws| ==> Recorded(s, acts, Run(s, acts).saves[i], ws[i])
    decreases |acts|
  {
    hide Enabled, Step, InBand, Trail, Recorded, PolledBefore;
    if acts == [] {
      w, ws := Marks(0, 0, 0), [];
      NoTrail(s, acts, w);
    } else {
      var init, a := acts[..|acts| - 1], acts[|acts| - 1];
      assert acts == init + [a];
      RunInit(s, acts);
      var t := Run(s, init);
      var v, vs := History(s, init);
      MergedWasPolled(s, init);
      w := TrailStep(s, init, a, t, v);
      ws := LogStep(s, init, a, t, v, vs);
    }
  }

  lemma NoTrail(s: State, acts: seq<Event>, w: Marks)
    requires s.pc.Start?
    ensures Trail(s, acts, s, w)
  {
  }

  lemma {:induction false} LogStep(s: State, init: seq<Event>, a: Event, t: State, v: Marks, vs: seq<Marks>)
    returns (ws: seq<Marks>)
    requires Enabled(t, a) && Trail(s, init, t, v) && |vs| == |t.saves|
    requires forall i :: 0 <= i < |vs| ==> Recorded(s, init, t.saves[i], vs[i])
    ensures |ws| == |Step(t, a).saves|
    ensures forall i :: 0 <= i < |ws| ==> Recorded(s, init + [a], Step(t, a).saves[i], ws[i])
  {
    hide Step, Recorded, Trail;
    SavesStep(t, a);
    forall i | 0 <= i < |vs|
      ensures Recorded(s, init + [a], t.saves[i], vs[i])
    {
      RecordedLonger(s, init, a, t.saves[i], vs[i]);
    }
    if a.Save? {
      var r := SaveRecord(t.pc.task.e, t.pc.task.p, t.defaults, t.pc.read, t.pc.id, t.pc.v,
                          t.pc.checkedAt, t.pc.strippedAt);
      TrailRecorded(s, init, t, v, r);
      RecordedLonger(s, init, a, r, v);
      ws := vs + [v];
    } else {
      ws := vs;
    }
  }

  lemma {:induction false} TrailRecorded(s: State, acts: seq<Event>, t: State, w: Marks, r: SaveRecord)
    requires t.pc.Synced? && t.pc.task.Epoch? && Trail(s, acts, t, w)
    requires r == SaveRecord(t.pc.task.e, t.pc.task.p, t.defaults, t.pc.read, t.pc.id, t.pc.v,
                             t.pc.checkedAt, t.pc.strippedAt)
    ensures Recorded(s, acts, r, w)
  {
    hide ReadAt, RestatAt, StripAt, OnlyOthers, PolledBefore;
  }

  ghost predicate NobodyWrote(acts: seq<Event>, from: nat, end: nat) {
    forall i :: from < i < end && i < |acts| ==> !acts[i].InstallerWrite?
  }

  /** Among the others' events, the write count moves exactly at an installer write. */
  lemma {:induction false} WritesCount(s: State, acts: seq<Event>, from: nat, end: nat)
    requires Runs(s, acts) && from < end <= |acts| && acts[from].Restat? && OnlyOthers(acts, from, end)
    ensures Runs(s, acts[..from]) && Runs(s, acts[..end])
    ensures Run(s, acts[..from]).nextId <= Run(s, acts[..end]).nextId
    ensures Run(s, acts[..from]).nextId == Run(s, acts[..end]).nextId <==> NobodyWrote(acts, from, end)
    decreases end
  {
    hide Runs, Run, Enabled, Step, Environment;
    RunPrefix(s, acts, from);
    RunPrefix(s, acts, end);
    var n := end - 1;
    assert acts[..end][..n] == acts[..n] && acts[..end][n] == acts[n];
    RunInit(s, acts[..end]);
    var t := Run(s, acts[..n]);
    WriteStep(t, acts[n]);
    if from < n {
      WritesCount(s, acts, from, n);
      assert Environment(acts[n]);
    }
  }

  lemma {:induction false} WriteStep(s: State, a: Event)
    requires Enabled(s, a)
    ensures Environment(a) || a.Restat? ==> Step(s, a).nextId == if a.InstallerWrite? then s.nextId + 1 else s.nextId
  {
    hide Merge, InBand;
  }

  lemma {:induction false} RunPrefix(s: State, acts: seq<Event>, n: nat)
    requires Runs(s, acts) && n <= |acts|
    ensures Runs(s, acts[..n])
    decreases |acts|
  {
    hide Enabled, Step;
    if n > 0 {
      RunPrefix(Step(s, acts[0]), acts[1..], n - 1);
      assert acts[..n][1..] == acts[1..][..n - 1];
    }
  }

  /** State and kernel agree. For every saved epoch the run has a tick that polled it, read a conf,
      re-stated and stripped; the kernel got the conf that was on disk at the strip. That conf is the
      one the tick had merged if and only if the installer did not write between the re-stat and the
      strip, and then it is the merge of the epoch into what was read, safe on the wire, and stable. */
  lemma {:induction false} SavedEpochIsLoaded(s: State, acts: seq<Event>, i: nat) returns (w: Marks)
    requires Init(s) && Runs(s, acts) && i < |Run(s, acts).saves|
    ensures var r := Run(s, acts).saves[i];
            && Recorded(s, acts, r, w)
            && (r.loaded.id == r.id <==> NobodyWrote(acts, w.restat, w.strip))
            && (NobodyWrote(acts, w.restat, w.strip) ==>
                  && Merge(r.read.text, Some(r.p), r.defaults).Ok?
                  && r.loaded.text == Merge(r.read.text, Some(r.p), r.defaults).text
                  && SafeConf(r.loaded.text)
                  && TopUps.Stable(r.loaded.text, Some(r.p)))
            && (!NobodyWrote(acts, w.restat, w.strip) ==> r.loaded.id >= r.checkedAt > r.id)
            && (NobodyWrote(acts, w.restat, w.strip) <==> r.checkedAt == r.strippedAt)
  {
    hide Runs, Run, Init, VersionInv, GateInv, ProvenanceInv, TickInv, KernelInv, LockInv, UnownedInv, InBand, Merge,
         SafeConf, TopUps.Stable, Recorded, NobodyWrote, Trail;
    var v, ws := History(s, acts);
    w := ws[i];
    var r := Run(s, acts).saves[i];
    RecordWrites(s, acts, r, w);
    Reachable(s, acts);
    assert SaveOk(r, Run(s, acts).versions);
    InBandPass(r.defaults);
    WrittenConfIsSafe(r.read.text, Some(r.p), r.defaults);
    TopUps.MergeIsStable(r.read.text, Some(r.p), r.defaults);
  }

  lemma {:induction false} RecordWrites(s: State, acts: seq<Event>, r: SaveRecord, w: Marks)
    requires Runs(s, acts) && Recorded(s, acts, r, w)
    ensures r.checkedAt == r.strippedAt <==> NobodyWrote(acts, w.restat, w.strip)
  {
    hide Runs, Run, PolledBefore, OnlyOthers, NobodyWrote;
    WritesCount(s, acts, w.restat, w.strip);
  }
}
