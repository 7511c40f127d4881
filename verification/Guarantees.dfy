/**
 Crash consistency, temp-file hygiene and the accounting of retries and renames, for all runs.
 */
module Guarantees {
  import opened YamlTree
  import opened UserFile
  import opened Protocol
  import opened ProtocolInv

  // ----- power loss -----

  predicate ByAuthelia(a: Action) {
    a.ForeignOpen? || a.ForeignTear? || a.ForeignClose?
  }

  /** The users file after a power loss is one whole version, unless Authelia's own write was not on disk yet. */
  lemma PowerLossLeavesAWholeVersion(plan: Plan, s: State, a: Action)
    requires Inv(plan, s) && a.PowerLoss? && Enabled(s, a)
    ensures var v, t := s.versions[s.durable], Do(plan, s, a);
            Shaped(t) && (!s.files[v].status.Dirty? ==> Content(t) == s.files[v].data)
  {
    KeepsShape(plan, s, a);
    assert s.versions[s.durable] in s.versions;
  }

  /** Short of a rename, a foreign write and a power loss, the versions stay as they are. */
  lemma VersionsStay(plan: Plan, s: State, a: Action)
    requires WorkInv(plan, s) && Enabled(s, a) && !ByAuthelia(a) && !a.PowerLoss? && !a.Rename?
    ensures var t := Do(plan, s, a);
            && t.versions == s.versions && s.durable <= t.durable
            && forall v :: v in s.versions ==>
              v in t.files && t.files[v].data == s.files[v].data
                && (s.files[v].status.Stable? ==> t.files[v].status.Stable?)
  {
  }

  /** t is not behind what s had on disk. */
  ghost predicate Final(s: State, t: State) {
    Shaped(s) && Shaped(t) && s.durable <= t.durable && t.versions[..s.durable + 1] == s.versions[..s.durable + 1]
  }

  lemma StepKeepsDurable(plan: Plan, s: State, a: Action)
    requires Inv(plan, s) && Enabled(s, a)
    ensures Final(s, Do(plan, s, a))
  {
    KeepsShape(plan, s, a);
  }

  lemma FinalTransitive(r: State, s: State, t: State)
    requires Final(r, s) && Final(s, t)
    ensures Final(r, t)
  {
    assert t.versions[..r.durable + 1] == t.versions[..s.durable + 1][..r.durable + 1];
    assert s.versions[..r.durable + 1] == s.versions[..s.durable + 1][..r.durable + 1];
  }

  /** What is on disk stays: no run, power losses included, takes the users file back behind it. */
  lemma {:induction false} DurableIsFinal(plan: Plan, s: State, acts: seq<Action>)
    requires Inv(plan, s) && Legal(plan, s, acts)
    ensures Final(s, After(plan, s, acts))
  {
    if acts != [] {
      var n := |acts| - 1;
      var r := After(plan, s, acts[..n]);
      DurableIsFinal(plan, s, acts[..n]);
      RunKeepsInv(plan, s, acts[..n]);
      StepKeepsDurable(plan, r, acts[n]);
      FinalTransitive(s, r, Do(plan, r, acts[n]));
    }
  }

  lemma StepKeepsStable(plan: Plan, s: State, a: Action, v: Ino)
    requires WorkInv(plan, s) && Enabled(s, a) && !ByAuthelia(a)
    requires v in s.versions && s.files[v].status.Stable?
    ensures v in Do(plan, s, a).files && Do(plan, s, a).files[v] == s.files[v]
  {
  }

  /**
   Once mutate has returned and the directory sync succeeded, the new content is there to stay:
   whatever happens later, short of Authelia writing to the file, its bytes are intact and the users
   file is that version or one that replaced it.
   */
  lemma {:induction false} CommittedContentSurvives(plan: Plan, s: State, acts: seq<Action>)
    requires Inv(plan, s) && s.durable == |s.versions| - 1 && s.files[Main(s)].status.Stable?
    requires Legal(plan, s, acts) && forall a :: a in acts ==> !ByAuthelia(a)
    ensures var t := After(plan, s, acts);
            && Shaped(t) && s.versions <= t.versions
            && Main(s) in t.files && t.files[Main(s)] == s.files[Main(s)]
            && (|t.versions| == |s.versions| ==> Content(t) == Content(s))
  {
    DurableIsFinal(plan, s, acts);
    var t := After(plan, s, acts);
    assert s.versions[..s.durable + 1] == s.versions;
    if acts != [] {
      var n := |acts| - 1;
      var r := After(plan, s, acts[..n]);
      CommittedContentSurvives(plan, s, acts[..n]);
      RunKeepsInv(plan, s, acts[..n]);
      assert Main(s) in r.versions by { assert r.versions[|s.versions| - 1] == Main(s); }
      StepKeepsStable(plan, r, acts[n], Main(s));
    }
  }

  lemma DurableIsOldOrNew(s: State, t: State)
    requires Final(s, t) && s.durable == |s.versions| - 1 && |t.versions| <= |s.versions| + 1
    ensures Main(s) in t.versions && (t.versions[t.durable] == Main(s) || t.versions[t.durable] == Main(t))
  {
    assert t.versions[..s.durable + 1] == s.versions;
    assert t.versions[s.durable] == s.versions[s.durable];
  }

  /**
   Power may fail at any step of a mutation, with any foreign writes and earlier crashes. From a state
   whose directory entry is on disk, with at most one rename since: unless the version on disk has a
   foreign write in it that was not flushed, what is found afterwards is the current content in full
   or in full what the old file held last.
   */
  lemma OldOrNew(plan: Plan, s: State, acts: seq<Action>, loss: Action)
    requires Inv(plan, s) && s.durable == |s.versions| - 1 && Legal(plan, s, acts)
    requires loss.PowerLoss? && Enabled(After(plan, s, acts), loss)
    requires var t := After(plan, s, acts);
            && |t.versions| <= |s.versions| + 1
            && !t.files[t.versions[t.durable]].status.Dirty?
    ensures var t := After(plan, s, acts);
            && Shaped(Do(plan, t, loss)) && Main(s) in t.files
            && (Content(Do(plan, t, loss)) == t.files[Main(s)].data || Content(Do(plan, t, loss)) == Content(t))
  {
    var t := After(plan, s, acts);
    DurableIsFinal(plan, s, acts);
    RunKeepsInv(plan, s, acts);
    hide Do, After, Legal, Inv;
    DurableIsOldOrNew(s, t);
    PowerLossLeavesAWholeVersion(plan, t, loss);
  }

  /** If no foreign write is made either, the old file still holds what it held. */
  lemma UndisturbedOldOrNew(plan: Plan, s: State, acts: seq<Action>, loss: Action)
    requires Inv(plan, s) && s.durable == |s.versions| - 1 && s.files[Main(s)].status.Stable?
    requires Legal(plan, s, acts) && forall a :: a in acts ==> !ByAuthelia(a)
    requires loss.PowerLoss? && Enabled(After(plan, s, acts), loss)
    requires |After(plan, s, acts).versions| <= |s.versions| + 1
    ensures var t := After(plan, s, acts);
            && Shaped(Do(plan, t, loss))
            && (Content(Do(plan, t, loss)) == Content(s) || Content(Do(plan, t, loss)) == Content(t))
  {
    CommittedContentSurvives(plan, s, acts);
    NothingDirty(plan, s, acts);
    DurableIsFinal(plan, s, acts);
    hide Do, After, Legal, Inv, Enabled;
    OldOrNew(plan, s, acts, loss);
  }

  /** Without foreign writes, versions from some point on are never dirty. */
  lemma {:induction false} NothingDirty(plan: Plan, s: State, acts: seq<Action>)
    requires Inv(plan, s) && s.durable == |s.versions| - 1 && s.files[Main(s)].status.Stable?
    requires Legal(plan, s, acts) && forall a :: a in acts ==> !ByAuthelia(a)
    ensures var t := After(plan, s, acts); Shaped(t) && forall i :: s.durable <= i < |t.versions| ==>
      !t.files[t.versions[i]].status.Dirty?
  {
    RunKeepsInv(plan, s, acts);
    if acts != [] {
      var n := |acts| - 1;
      NothingDirty(plan, s, acts[..n]);
      RunKeepsInv(plan, s, acts[..n]);
      DurableIsFinal(plan, s, acts[..n]);
      StepDirtiesNothing(plan, After(plan, s, acts[..n]), acts[n], s.durable);
    }
  }

  lemma StepDirtiesNothing(plan: Plan, s: State, a: Action, from: nat)
    requires Inv(plan, s) && Enabled(s, a) && !ByAuthelia(a) && from < |s.versions|
    requires forall i :: from <= i < |s.versions| ==> !s.files[s.versions[i]].status.Dirty?
    ensures var t := Do(plan, s, a); Shaped(t) && forall i :: from <= i < |t.versions| ==>
      !t.files[t.versions[i]].status.Dirty?
  {
    KeepsShape(plan, s, a);
    var t := Do(plan, s, a);
    forall i | from <= i < |t.versions|
      ensures !t.files[t.versions[i]].status.Dirty?
    {
      VersionNotDirtied(plan, s, a, i);
    }
  }

  lemma VersionNotDirtied(plan: Plan, s: State, a: Action, i: nat)
    requires Inv(plan, s) && Enabled(s, a) && !ByAuthelia(a) && i < |Do(plan, s, a).versions| && Shaped(Do(plan, s, a))
    requires i < |s.versions| ==> !s.files[s.versions[i]].status.Dirty?
    ensures var t := Do(plan, s, a); !t.files[t.versions[i]].status.Dirty?
  {
    if a.Rename? {
      assert Work(plan, s.files, s.temps, s.writers[a.w]);
    } else if !a.PowerLoss? {
      VersionsStay(plan, s, a);
      StatusStays(plan, s, a, s.versions[i]);
    } else {
      assert s.versions[i] in s.versions;
    }
  }

  lemma StatusStays(plan: Plan, s: State, a: Action, v: Ino)
    requires WorkInv(plan, s) && Enabled(s, a) && !ByAuthelia(a) && !a.PowerLoss? && v in s.versions
    ensures v in Do(plan, s, a).files
      && (Do(plan, s, a).files[v].status == s.files[v].status || Do(plan, s, a).files[v].status.Stable?)
  {
  }

  /** And the exception is one: a version on disk with an unflushed foreign write in it can come back as anything. */
  lemma DirtyVersionMayBeLost(plan: Plan, s: State, junk: Bytes) returns (loss: Action)
    requires Inv(plan, s) && s.files[s.versions[s.durable]].status.Dirty?
    ensures loss.PowerLoss? && Enabled(s, loss)
    ensures var t := Do(plan, s, loss); Shaped(t) && Content(t) == junk
  {
    var v := s.versions[s.durable];
    loss := PowerLoss({}, map[v := junk], None);
    KeepsShape(plan, s, loss);
    assert s.versions[..s.durable + 1][s.durable] == v;
    assert v in s.versions;
  }

  /** The successful directory sync is what makes the rename final, with the synced data behind it. */
  lemma SyncDirMakesDurable(plan: Plan, s: State, w: Wid)
    requires Inv(plan, s) && Enabled(s, SyncDir(w, true))
    ensures var t := Do(plan, s, SyncDir(w, true));
            Shaped(t) && t.durable == |t.versions| - 1 && !t.files[Main(t)].status.Unsynced?
  {
    KeepsShape(plan, s, SyncDir(w, true));
    assert Main(s) in s.versions;
  }

  // ----- temp files -----

  /**
   A sweep never takes a running writer's temp file, nor any inode that the users file is or was;
   and a writer that has synced its temp file always finds it there to rename.
   */
  lemma SweepIsSafe(plan: Plan, s: State, w: Wid, removed: set<Ino>)
    requires Inv(plan, s) && Enabled(s, Sweep(w, removed))
    ensures forall v, t :: v in s.writers && OwnsTemp(s.writers[v].pc, t) ==> t !in removed
    ensures forall t :: t in removed ==> t !in s.versions
  {
    if v, t :| v in s.writers && OwnsTemp(s.writers[v].pc, t) && t in removed {
      OthersIdle(s, w, v);
      assert false;
    }
  }

  /** The deferred remove takes nobody else's temp file and never the users file. */
  lemma RemoveIsSafe(plan: Plan, s: State, w: Wid, ok: bool)
    requires Inv(plan, s) && Enabled(s, RemoveTemp(w, ok))
    ensures var t := Do(plan, s, RemoveTemp(w, ok));
            && t.versions == s.versions && t.files == s.files
            && forall v, x :: v in s.writers && OwnsTemp(s.writers[v].pc, x) ==> (x in t.temps <==> x in s.temps)
  {
    if v, x :| v in s.writers && OwnsTemp(s.writers[v].pc, x) {
      if v != w { OthersIdle(s, w, v); }
      assert false;
    }
  }

  /** Every temp file in the directory is the lock holder's own, or belongs to nobody at work. */
  lemma TempsHaveOneOwner(plan: Plan, s: State, v: Wid, t: Ino)
    requires Inv(plan, s) && v in s.writers && OwnsTemp(s.writers[v].pc, t)
    ensures s.lock == Some(v) && t in s.temps && t != Main(s)
    ensures s.writers[v].pc.Synced? ==> Enabled(s, Rename(v))
  {
    assert Work(plan, s.files, s.temps, s.writers[v]);
  }

  /** When a call that swept completely, and removed what it made, gives the lock back, no temp file is left. */
  lemma NoTempLeftBehind(plan: Plan, s: State, w: Wid)
    requires Inv(plan, s) && Enabled(s, Release(w)) && s.writers[w].swept
    ensures Do(plan, s, Release(w)).temps == {}
  {
    assert Tidy(s.temps, s.writers[w]);
  }

  // ----- attempts, renames, results -----

  function CountRenames(acts: seq<Action>, w: Wid): nat {
    if acts == [] then 0
    else CountRenames(acts[..|acts| - 1], w) + if acts[|acts| - 1] == Rename(w) then 1 else 0
  }

  function CountReads(acts: seq<Action>, w: Wid): nat {
    if acts == [] then 0
    else CountReads(acts[..|acts| - 1], w) + Begun(acts[|acts| - 1], w)
  }

  /** How many first reads a call has begun by this point. */
  predicate ReadsFit(wr: Writer, done: nat) {
    var pc := wr.pc;
    && done <= ATTEMPTS
    && (pc.Start? || pc.Locked? ==> done == 0)
    && (pc.Reading? ==> done == wr.failed)
    && (pc.Fetching? || pc.Computed? || pc.Comparing? ==> done == wr.failed + 1)
  }

  lemma {:induction false} Tally(plan: Plan, s: State, acts: seq<Action>, w: Wid)
    requires Initial(s) && Legal(plan, s, acts)
    ensures var t := After(plan, s, acts);
            && (w !in t.writers ==> CountRenames(acts, w) == CountReads(acts, w) == 0)
            && (w in t.writers ==> CountRenames(acts, w) == (if t.writers[w].replaced.Some? then 1 else 0))
            && (w in t.writers ==> ReadsFit(t.writers[w], CountReads(acts, w)))
  {
    if acts != [] {
      var n := |acts| - 1;
      Tally(plan, s, acts[..n], w);
      InitialInv(plan, s);
      RunKeepsInv(plan, s, acts[..n]);
      ReadsStep(plan, After(plan, s, acts[..n]), acts[n], w, CountReads(acts[..n], w));
      RenamesStep(plan, After(plan, s, acts[..n]), acts[n], w);
    }
  }

  /** a's part in how many reads w has begun. */
  function Begun(a: Action, w: Wid): nat {
    if a == Open(w) then 1 else 0
  }

  lemma OwnReadsEarly(plan: Plan, s: State, a: Action, done: nat)
    requires CountInv(s) && Enabled(s, a) && Early(a)
      && (if a.w in s.writers then ReadsFit(s.writers[a.w], done) else done == 0)
    ensures a.w in Do(plan, s, a).writers && ReadsFit(Do(plan, s, a).writers[a.w], done + Begun(a, a.w))
  {
    if a.w in s.writers { assert Counted(s.changes, Content(s), s.writers[a.w]); }
  }

  lemma OwnReadsLate(plan: Plan, s: State, a: Action, done: nat)
    requires Enabled(s, a) && (Making(a) || Ending(a) || Stopping(a)) && ReadsFit(s.writers[a.w], done)
    ensures a.w in Do(plan, s, a).writers && ReadsFit(Do(plan, s, a).writers[a.w], done)
  {
  }

  lemma ReadsStep(plan: Plan, s: State, a: Action, w: Wid, done: nat)
    requires CountInv(s) && Enabled(s, a)
    requires if w in s.writers then ReadsFit(s.writers[w], done) else done == 0
    ensures w in Do(plan, s, a).writers ==> ReadsFit(Do(plan, s, a).writers[w], done + Begun(a, w))
  {
    if a.PowerLoss? {
    } else if Outside(a) {
      OutsideStep(plan, s, a);
    } else if a.w == w {
      if Early(a) { OwnReadsEarly(plan, s, a, done); } else { OwnReadsLate(plan, s, a, done); }
    } else if !a.Begin? {
      OwnStep(plan, s, a, w);
    }
  }

  lemma RenamesStep(plan: Plan, s: State, a: Action, w: Wid)
    requires AccountInv(s) && Enabled(s, a)
    ensures var t := Do(plan, s, a);
            && (w !in t.writers ==> w !in s.writers && a != Rename(w) && a != Open(w))
            && (w in t.writers && w !in s.writers ==> t.writers[w].replaced.None? && a != Rename(w))
            && (w in s.writers ==>
              w in t.writers && (a != Rename(w) ==> t.writers[w].replaced == s.writers[w].replaced))
            && (a == Rename(w) ==> w in s.writers && s.writers[w].replaced.None? && t.writers[w].replaced.Some?)
  {
    if w in s.writers { assert Accounted(s.bak, s.writers[w]); }
  }

  /**
   A finished call made at most four attempts. It renamed exactly once if it reports success and not
   at all if it reports any error; and if it reports exhausted retries, then Authelia has changed the
   file at least four times since this call took the lock.
   */
  lemma AllOrNothing(plan: Plan, s: State, acts: seq<Action>, w: Wid)
    requires Initial(s) && Legal(plan, s, acts)
    requires w in After(plan, s, acts).writers && After(plan, s, acts).writers[w].pc.Done?
    ensures var result := After(plan, s, acts).writers[w].pc.result;
            && CountReads(acts, w) <= 4
            && CountRenames(acts, w) == (if result.Success? then 1 else 0)
            && (result.Exhausted? ==> After(plan, s, acts).changes >= After(plan, s, acts).writers[w].since + 4)
  {
    InitialInv(plan, s);
    RunKeepsInv(plan, s, acts);
    Tally(plan, s, acts, w);
    var t := After(plan, s, acts);
    assert Accounted(t.bak, t.writers[w]);
    assert Counted(t.changes, Content(t), t.writers[w]);
  }

  // ----- why a call ends as it does -----

  /** What the run so far holds responsible for an outcome of w. */
  ghost predicate Caused(plan: Plan, op: Op, result: Result, acts: seq<Action>, w: Wid) {
    && (result.IoError? ==> exists junk :: Fail(w, junk) in acts)
    && (result.Declined? ==> exists seen :: Read(w, seen) in acts && plan(op, seen) == Reject(result.error))
  }

  ghost predicate CausedPc(plan: Plan, wr: Writer, acts: seq<Action>, w: Wid) {
    wr.pc.Leaving? || wr.pc.Done? ==> Caused(plan, wr.op, wr.pc.result, acts, w)
  }

  lemma CauseStays(plan: Plan, op: Op, result: Result, acts: seq<Action>, a: Action, w: Wid)
    requires Caused(plan, op, result, acts, w)
    ensures Caused(plan, op, result, acts + [a], w)
  {
    if result.IoError? {
      var junk :| Fail(w, junk) in acts;
      assert Fail(w, junk) in acts + [a];
    }
    if result.Declined? {
      var seen :| Read(w, seen) in acts && plan(op, seen) == Reject(result.error);
      assert Read(w, seen) in acts + [a];
    }
  }

  /** An outcome is new only by a failure, by a read, or as success or giving up; else it is carried along. */
  lemma OwnOutcome(plan: Plan, s: State, a: Action, w: Wid)
    requires Enabled(s, a) && !Outside(a) && !a.Begin? && a.w == w
    ensures w in s.writers && w in Do(plan, s, a).writers
    ensures var wr, pc := s.writers[w], Do(plan, s, a).writers[w].pc;
            && Do(plan, s, a).writers[w].op == wr.op
            && (pc.Leaving? || pc.Done? ==>
                  || pc.result.Success? || pc.result.Exhausted?
                  || (pc.result.IoError? && a.Fail?)
                  || (pc.result.Declined? && a.Read? && plan(wr.op, a.seen) == Reject(pc.result.error))
                  || (wr.pc.Leaving? && wr.pc.result == pc.result))
  {
  }

  lemma CauseStep(plan: Plan, s: State, a: Action, acts: seq<Action>, w: Wid)
    requires Enabled(s, a) && w in Do(plan, s, a).writers
    requires w in s.writers ==> CausedPc(plan, s.writers[w], acts, w)
    ensures CausedPc(plan, Do(plan, s, a).writers[w], acts + [a], w)
  {
    hide Caused;
    if w in s.writers && (s.writers[w].pc.Leaving? || s.writers[w].pc.Done?) {
      CauseStays(plan, s.writers[w].op, s.writers[w].pc.result, acts, a, w);
    }
    if a.PowerLoss? {
    } else if Outside(a) {
      OutsideStep(plan, s, a);
    } else if a.Begin? {
    } else if a.w != w {
      OwnStep(plan, s, a, w);
    } else {
      OwnCause(plan, s, a, acts, w);
    }
  }

  lemma OwnCause(plan: Plan, s: State, a: Action, acts: seq<Action>, w: Wid)
    requires Enabled(s, a) && !Outside(a) && !a.Begin? && a.w == w && w in s.writers && w in Do(plan, s, a).writers
    requires s.writers[w].pc.Leaving? ==> Caused(plan, s.writers[w].op, s.writers[w].pc.result, acts + [a], w)
    ensures CausedPc(plan, Do(plan, s, a).writers[w], acts + [a], w)
  {
    OwnOutcome(plan, s, a, w);
    hide Do, Enabled;
    assert a in acts + [a];
    if a.Fail? { assert a == Fail(w, a.junk); }
    if a.Read? { assert a == Read(w, a.seen); }
  }

  /**
   In every run every outcome has its cause: an error means that a system call of this very call failed,
   a refusal that the attempt on some bytes it read is refused so, and giving up that Authelia changed
   the file four times since the lock was taken.
   */
  lemma {:induction false} OutcomeHasItsCause(plan: Plan, s: State, acts: seq<Action>, w: Wid)
    requires Initial(s) && Legal(plan, s, acts) && w in After(plan, s, acts).writers
    ensures var t := After(plan, s, acts); CausedPc(plan, t.writers[w], acts, w)
  {
    if acts != [] {
      var n := |acts| - 1;
      var t := After(plan, s, acts[..n]);
      if w in t.writers { OutcomeHasItsCause(plan, s, acts[..n], w); }
      CauseStep(plan, t, acts[n], acts[..n], w);
      assert acts[..n] + [acts[n]] == acts;
    }
  }

  lemma {:induction false} NoAutheliaNoChanges(plan: Plan, s: State, acts: seq<Action>)
    requires Initial(s) && Legal(plan, s, acts) && forall a :: a in acts ==> !ByAuthelia(a)
    ensures After(plan, s, acts).changes == 0
  {
    if acts != [] {
      var n := |acts| - 1;
      NoAutheliaNoChanges(plan, s, acts[..n]);
      ChangesStep(plan, After(plan, s, acts[..n]), acts[n]);
    }
  }

  lemma ChangesStep(plan: Plan, s: State, a: Action)
    requires Enabled(s, a) && !ByAuthelia(a)
    ensures Do(plan, s, a).changes == s.changes
  {
  }

  /**
   Any number of portal writers among themselves never get in each other's way: whatever the
   interleaving, deaths and power losses included, a call none of whose own system calls failed has
   succeeded once it is done, or was refused for bytes that it read.
   */
  lemma PortalsAloneSucceed(plan: Plan, s: State, acts: seq<Action>, w: Wid)
    requires Initial(s) && Legal(plan, s, acts) && (forall a :: a in acts ==> !ByAuthelia(a))
    requires w in After(plan, s, acts).writers && After(plan, s, acts).writers[w].pc.Done?
    requires forall a :: a in acts ==> !(a.Fail? && a.w == w)
    ensures var wr := After(plan, s, acts).writers[w];
            || (wr.pc.result.Success? && CountRenames(acts, w) == 1)
            || (wr.pc.result.Declined?
                  && exists seen :: Read(w, seen) in acts && plan(wr.op, seen) == Reject(wr.pc.result.error))
  {
    OutcomeHasItsCause(plan, s, acts, w);
    NoAutheliaNoChanges(plan, s, acts);
    AllOrNothing(plan, s, acts, w);
  }

  /** While the lock is still held: giving up takes four changes by Authelia since it was taken. */
  lemma ExhaustedMeansFourChanges(plan: Plan, s: State, w: Wid)
    requires Inv(plan, s) && w in s.writers && s.writers[w].pc.Leaving? && s.writers[w].pc.result.Exhausted?
    ensures s.lock == Some(w) && s.changes >= s.writers[w].since + 4
  {
    assert Counted(s.changes, Content(s), s.writers[w]);
  }

  /** Only Authelia's in-place writes advance the change counter. */
  lemma OnlyAutheliaChanges(plan: Plan, s: State, a: Action)
    requires Enabled(s, a)
    ensures Do(plan, s, a).changes <= s.changes + 1
    ensures Do(plan, s, a).changes > s.changes ==>
      ByAuthelia(a) && Shaped(Do(plan, s, a)) && Content(Do(plan, s, a)) != Content(s)
  {
  }
}
