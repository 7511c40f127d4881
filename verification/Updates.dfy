/**
 No update is lost as long as Authelia is not writing between a matching second read and the
 rename that follows it; and how one is lost otherwise.
 */
module Updates {
  import opened YamlTree
  import opened UserFile
  import opened Protocol
  import opened ProtocolInv

  /** The content that a commit makes of the one before. */
  function Committed(plan: Plan, before: Bytes, c: Commit): Bytes {
    if c.ForeignCommit? then c.content
    else
      var r := plan(c.op, before);
      if r.Replace? then r.out else before
  }

  /** The content after these commits, one by one. */
  function Fold(plan: Plan, start: Bytes, log: seq<Commit>): Bytes {
    if log == [] then start
    else Committed(plan, Fold(plan, start, log[..|log| - 1]), log[|log| - 1])
  }

  /** Authelia is not in the middle of a write while a writer is in the window. */
  predicate Calm(s: State) {
    s.foreign.Idle? || forall w :: w in s.writers ==> !InWindow(s.writers[w].pc)
  }

  /** A second read that matches has returned what the file holds. */
  predicate Untorn(s: State, a: Action)
    requires Enabled(s, a)
  {
    a.Recheck? && a.seen == s.writers[a.w].pc.original ==> a.seen == Content(s)
  }

  /** Calm at every point, no match by a torn second read, and the power stays on. */
  ghost predicate CalmRun(plan: Plan, s: State, acts: seq<Action>)
    requires Legal(plan, s, acts)
  {
    && Calm(After(plan, s, acts))
    && (acts != [] ==>
          var n := |acts| - 1;
          !acts[n].PowerLoss? && Untorn(After(plan, s, acts[..n]), acts[n]) && CalmRun(plan, s, acts[..n]))
  }

  /** In the window the file holds what was read; at rest it holds the fold of the commits. */
  ghost predicate Current(plan: Plan, start: Bytes, s: State) {
    && Shaped(s)
    && (s.foreign.Writing? ==> s.foreign.ino == Main(s))
    && (s.foreign.Idle? ==> Content(s) == Fold(plan, start, s.log))
    && (forall w :: w in s.writers && InWindow(s.writers[w].pc) ==> Content(s) == s.writers[w].pc.original)
  }

  /** The writer is past its rename and has not unlocked. */
  predicate PastRename(pc: Pc) {
    pc.Renamed? || (pc.Leaving? && pc.result.Success?)
  }

  /** The backup holds what the rename replaced. */
  ghost predicate BackedUpRight(s: State) {
    forall w :: w in s.writers && PastRename(s.writers[w].pc) ==> s.bak == s.writers[w].replaced
  }

  /** Steps that can change what the users file holds. */
  predicate Touches(a: Action) {
    a.Rename? || a.ForeignOpen? || a.ForeignTear? || a.ForeignClose? || a.PowerLoss?
  }

  /** s and t have the same file, with the same history. */
  ghost predicate SameContent(s: State, t: State) {
    Shaped(s) && Shaped(t) && Content(t) == Content(s) && t.versions == s.versions && t.foreign == s.foreign
      && t.log == s.log
  }

  lemma EarlyKeepsContent(plan: Plan, s: State, a: Action)
    requires WorkInv(plan, s) && Enabled(s, a) && Early(a)
    ensures SameContent(s, Do(plan, s, a))
  {
  }

  lemma LateKeepsContent(plan: Plan, s: State, a: Action)
    requires WorkInv(plan, s) && Enabled(s, a) && (Making(a) || Ending(a)) && !a.Rename? && Shaped(Do(plan, s, a))
    ensures SameContent(s, Do(plan, s, a))
  {
  }

  lemma StoppingKeepsContent(plan: Plan, s: State, a: Action)
    requires WorkInv(plan, s) && Enabled(s, a) && Stopping(a) && Shaped(Do(plan, s, a))
    ensures SameContent(s, Do(plan, s, a))
  {
  }

  lemma FlushKeepsContent(plan: Plan, s: State, a: Action)
    requires Enabled(s, a) && (a.Flush? || a.FlushDir?) && Shaped(Do(plan, s, a))
    ensures SameContent(s, Do(plan, s, a))
  {
  }

  /** No other step does: a temp file is never the users file. */
  lemma OthersKeepContent(plan: Plan, s: State, a: Action)
    requires WorkInv(plan, s) && Enabled(s, a) && !Touches(a)
    ensures SameContent(s, Do(plan, s, a))
  {
    hide Do, Enabled, WorkInv, SameContent, Shaped;
    KeepsShape(plan, s, a);
    if Early(a) { EarlyKeepsContent(plan, s, a); }
    else if Making(a) || Ending(a) { LateKeepsContent(plan, s, a); }
    else if Stopping(a) { StoppingKeepsContent(plan, s, a); }
    else { FlushKeepsContent(plan, s, a); }
  }

  /** In t the writer's window has just opened, by a match, or is the one it was in. */
  predicate SameWindow(s: State, t: State, a: Action, w: Wid) {
    w in t.writers && InWindow(t.writers[w].pc) ==>
      && w in s.writers
      && (InWindow(s.writers[w].pc) || (s.writers[w].pc.Comparing? && a == Recheck(w, s.writers[w].pc.original)))
      && t.writers[w].pc.out == s.writers[w].pc.out && t.writers[w].pc.original == s.writers[w].pc.original
  }

  lemma WindowEnteredEarly(plan: Plan, s: State, a: Action)
    requires Enabled(s, a) && Early(a)
    ensures SameWindow(s, Do(plan, s, a), a, a.w)
  {
  }

  lemma WindowEnteredLate(plan: Plan, s: State, a: Action)
    requires Enabled(s, a) && (Making(a) || Ending(a) || Stopping(a)) && !a.Rename?
    ensures SameWindow(s, Do(plan, s, a), a, a.w)
  {
  }

  /** Entering the window means that the second read has just matched the first. */
  lemma WindowEntered(plan: Plan, s: State, a: Action, w: Wid)
    requires Enabled(s, a) && !Touches(a)
    ensures SameWindow(s, Do(plan, s, a), a, w)
  {
    if Outside(a) { OutsideStep(plan, s, a); }
    else if a.w == w {
      if Early(a) { WindowEnteredEarly(plan, s, a); } else { WindowEnteredLate(plan, s, a); }
    } else if !a.Begin? {
      OwnStep(plan, s, a, w);
    }
  }

  lemma QuietKeepsCurrent(plan: Plan, start: Bytes, s: State, a: Action)
    requires Inv(plan, s) && Current(plan, start, s) && Enabled(s, a) && !Touches(a) && Untorn(s, a)
    ensures Current(plan, start, Do(plan, s, a))
  {
    OthersKeepContent(plan, s, a);
    var t := Do(plan, s, a);
    forall w | w in t.writers && InWindow(t.writers[w].pc)
      ensures Content(t) == t.writers[w].pc.original
    {
      WindowEntered(plan, s, a, w);
    }
  }

  /** A rename installs exactly the edit of what the file holds at that moment. */
  lemma RenameInstallsEdit(plan: Plan, start: Bytes, s: State, w: Wid)
    requires Inv(plan, s) && Current(plan, start, s) && Enabled(s, Rename(w))
    ensures var t := Do(plan, s, Rename(w));
            Shaped(t) && plan(s.writers[w].op, Content(s)) == Replace(Content(t))
  {
    KeepsShape(plan, s, Rename(w));
    assert Work(plan, s.files, s.temps, s.writers[w]);
  }

  lemma FoldSnoc(plan: Plan, start: Bytes, log: seq<Commit>, c: Commit)
    ensures Fold(plan, start, log + [c]) == Committed(plan, Fold(plan, start, log), c)
  {
    assert (log + [c])[..|log|] == log;
  }

  lemma RenameKeepsCurrent(plan: Plan, start: Bytes, s: State, w: Wid)
    requires Inv(plan, s) && Current(plan, start, s) && Calm(s) && Enabled(s, Rename(w))
    ensures Current(plan, start, Do(plan, s, Rename(w)))
  {
    RenameInstallsEdit(plan, start, s, w);
    FoldSnoc(plan, start, s.log, PortalCommit(s.writers[w].op));
    var t := Do(plan, s, Rename(w));
    assert s.foreign.Idle?;
    forall v | v in t.writers
      ensures !InWindow(t.writers[v].pc)
    {
      if v != w { OthersIdle(s, w, v); }
    }
  }

  lemma ForeignKeepsCurrent(plan: Plan, start: Bytes, s: State, a: Action)
    requires Inv(plan, s) && Current(plan, start, s) && Calm(s) && Enabled(s, a)
    requires a.ForeignOpen? || a.ForeignTear? || a.ForeignClose?
    requires Calm(Do(plan, s, a))
    ensures Current(plan, start, Do(plan, s, a))
  {
    KeepsShape(plan, s, a);
    if a.ForeignClose? { FoldSnoc(plan, start, s.log, ForeignCommit(s.foreign.target)); }
  }

  lemma CalmStepKeepsCurrent(plan: Plan, start: Bytes, s: State, a: Action)
    requires Inv(plan, s) && Current(plan, start, s) && Enabled(s, a) && !a.PowerLoss? && Untorn(s, a)
    requires Calm(s) && Calm(Do(plan, s, a))
    ensures Current(plan, start, Do(plan, s, a))
  {
    if !Touches(a) { QuietKeepsCurrent(plan, start, s, a); }
    else if a.Rename? { RenameKeepsCurrent(plan, start, s, a.w); }
    else { ForeignKeepsCurrent(plan, start, s, a); }
  }

  /**
   For any number of writers in any interleaving with deaths, failing calls and in-place writes: as
   long as the run is calm, whenever Authelia is not writing, the users file is the fold of all
   commits in commit order. In particular every reader then sees one whole version.
   */
  lemma {:induction false} NoLostUpdate(plan: Plan, s: State, acts: seq<Action>)
    requires Initial(s) && Legal(plan, s, acts) && CalmRun(plan, s, acts)
    ensures Inv(plan, After(plan, s, acts))
    ensures Current(plan, Content(s), After(plan, s, acts))
  {
    InitialInv(plan, s);
    RunKeepsInv(plan, s, acts);
    if acts != [] {
      var n := |acts| - 1;
      NoLostUpdate(plan, s, acts[..n]);
      CalmStepKeepsCurrent(plan, Content(s), After(plan, s, acts[..n]), acts[n]);
    }
  }

  /** No foreign write changed the file during a second read that matches. */
  predicate Undisturbed(s: State, a: Action)
    requires Enabled(s, a)
  {
    a.Recheck? && a.seen == s.writers[a.w].pc.original ==> s.changes == s.writers[a.w].pc.mark
  }

  /** Authelia neither changes the file during a matching second read nor writes from there to the rename. */
  ghost predicate UndisturbedRun(plan: Plan, s: State, acts: seq<Action>)
    requires Legal(plan, s, acts)
  {
    && Calm(After(plan, s, acts))
    && (acts != [] ==>
          var n := |acts| - 1;
          && !acts[n].PowerLoss? && Undisturbed(After(plan, s, acts[..n]), acts[n])
          && UndisturbedRun(plan, s, acts[..n]))
  }

  lemma {:induction false} UndisturbedIsCalm(plan: Plan, s: State, acts: seq<Action>)
    requires Legal(plan, s, acts) && UndisturbedRun(plan, s, acts)
    ensures CalmRun(plan, s, acts)
  {
    if acts != [] { UndisturbedIsCalm(plan, s, acts[..|acts| - 1]); }
  }

  /** The same with a condition on Authelia alone. */
  lemma NoLostUpdateUndisturbed(plan: Plan, s: State, acts: seq<Action>)
    requires Initial(s) && Legal(plan, s, acts) && UndisturbedRun(plan, s, acts)
    ensures var t := After(plan, s, acts);
            && Shaped(t)
            && (t.foreign.Idle? ==> Content(t) == Fold(plan, Content(s), t.log))
  {
    UndisturbedIsCalm(plan, s, acts);
    NoLostUpdate(plan, s, acts);
  }

  lemma OwnPastRename(plan: Plan, s: State, a: Action)
    requires Enabled(s, a) && !Outside(a) && !a.Rename?
    requires a.w in Do(plan, s, a).writers && PastRename(Do(plan, s, a).writers[a.w].pc)
    ensures a.SyncDir? || a.RemoveTemp?
  {
  }

  /** Only the lock holder writes the backup, and not after its rename. */
  lemma BackupStays(plan: Plan, s: State, a: Action, w: Wid)
    requires LockInv(s) && Enabled(s, a) && !a.PowerLoss? && !a.Rename?
    requires w in Do(plan, s, a).writers && PastRename(Do(plan, s, a).writers[w].pc)
    ensures w in s.writers && PastRename(s.writers[w].pc)
    ensures Do(plan, s, a).bak == s.bak && Do(plan, s, a).writers[w].replaced == s.writers[w].replaced
  {
    if Outside(a) {
      OutsideStep(plan, s, a);
    } else if a.w == w {
      OwnPastRename(plan, s, a);
    } else if !a.Begin? {
      OwnStep(plan, s, a, w);
      if Critical(s.writers[a.w].pc) { OthersIdle(s, a.w, w); }
      BackupWriters(plan, s, a);
    }
  }

  /** The backup is written from within the critical section. */
  lemma BackupWriters(plan: Plan, s: State, a: Action)
    requires Enabled(s, a) && !Outside(a) && !a.Begin?
    ensures Do(plan, s, a).bak != s.bak ==> a.w in s.writers && Critical(s.writers[a.w].pc)
  {
  }

  lemma StepBacksUpRight(plan: Plan, start: Bytes, s: State, a: Action)
    requires Inv(plan, s) && Current(plan, start, s) && BackedUpRight(s) && Enabled(s, a) && !a.PowerLoss?
    ensures BackedUpRight(Do(plan, s, a))
  {
    var t := Do(plan, s, a);
    forall w | w in t.writers && PastRename(t.writers[w].pc)
      ensures t.bak == t.writers[w].replaced
    {
      if !a.Rename? {
        BackupStays(plan, s, a, w);
      } else if a.w == w {
        assert Accounted(s.bak, s.writers[w]);
      } else {
        OthersIdle(s, a.w, w);
      }
    }
  }

  /** A call that succeeded left the bytes it replaced in the backup. */
  lemma {:induction false} BackupIsWhatWasReplaced(plan: Plan, s: State, acts: seq<Action>)
    requires Initial(s) && Legal(plan, s, acts) && CalmRun(plan, s, acts)
    ensures BackedUpRight(After(plan, s, acts))
  {
    if acts != [] {
      var n := |acts| - 1;
      NoLostUpdate(plan, s, acts[..n]);
      BackupIsWhatWasReplaced(plan, s, acts[..n]);
      StepBacksUpRight(plan, Content(s), After(plan, s, acts[..n]), acts[n]);
    }
  }

  // ----- when the window is not calm -----

  /**
   In any reachable state, calm or not: the backup holds what the rename replaces exactly if the file
   still holds what the second read compared; and then the rename installs the edit of it.
   */
  lemma BackupIsRightExactlyIf(plan: Plan, s: State, w: Wid)
    requires Inv(plan, s) && Enabled(s, Rename(w))
    ensures var t, wr := Do(plan, s, Rename(w)), s.writers[w];
            && Shaped(t) && t.writers[w].replaced == Some(Content(s))
            && (t.bak == Some(Content(s)) <==> Content(s) == wr.pc.original)
            && (Content(s) == wr.pc.original ==> plan(wr.op, Content(s)) == Replace(Content(t)))
  {
    KeepsShape(plan, s, Rename(w));
    assert Work(plan, s.files, s.temps, s.writers[w]);
    assert Accounted(s.bak, s.writers[w]);
  }

  lemma LegalSnoc(plan: Plan, s: State, acts: seq<Action>, a: Action)
    requires Legal(plan, s, acts) && Enabled(After(plan, s, acts), a)
    ensures Legal(plan, s, acts + [a]) && After(plan, s, acts + [a]) == Do(plan, After(plan, s, acts), a)
  {
    assert (acts + [a])[..|acts|] == acts;
  }

  lemma Extend(plan: Plan, s: State, acts: seq<Action>, a: Action) returns (r: seq<Action>)
    requires Legal(plan, s, acts) && Enabled(After(plan, s, acts), a)
    ensures r == acts + [a] && Legal(plan, s, r) && After(plan, s, r) == Do(plan, After(plan, s, acts), a)
  {
    r := acts + [a];
    LegalSnoc(plan, s, acts, a);
  }

  /** A directory whose users file holds b. */
  function Holding(b: Bytes): State {
    State(map[0 := File(b, Stable)], [0], 0, None, {}, None, map[], Idle, 0, [])
  }

  /** One writer at work in it, at a given point of its call. */
  function Scene(op: Op, files: map<Ino, File>, temps: set<Ino>, bak: Option<Bytes>, pc: Pc, changes: nat,
      log: seq<Commit>): State {
    State(files, [0], 0, bak, temps, Some(0), map[0 := Writer(op, pc, 0, 0, None, true)], Idle, changes, log)
  }

  /** The writer before its sweep. */
  function Entered(op: Op, b: Bytes, pc: Pc, lock: Option<Wid>): State {
    Holding(b).(lock := lock, writers := map[0 := Writer(op, pc, 0, 0, None, false)])
  }

  lemma Enters(plan: Plan, op: Op, b: Bytes)
    ensures Enabled(Holding(b), Begin(0, op)) && Do(plan, Holding(b), Begin(0, op)) == Entered(op, b, Start, None)
  {
  }

  lemma Locks(plan: Plan, op: Op, b: Bytes)
    ensures var s := Entered(op, b, Start, None);
            Enabled(s, Acquire(0)) && Do(plan, s, Acquire(0)) == Entered(op, b, Locked, Some(0))
  {
  }

  lemma Sweeps(plan: Plan, op: Op, b: Bytes)
    ensures var s := Entered(op, b, Locked, Some(0));
            && Enabled(s, Sweep(0, {}))
            && Do(plan, s, Sweep(0, {})) == Scene(op, map[0 := File(b, Stable)], {}, None, Reading, 0, [])
  {
  }

  lemma Opens(plan: Plan, op: Op, b: Bytes)
    ensures var files := map[0 := File(b, Stable)];
            var s := Scene(op, files, {}, None, Reading, 0, []);
            Enabled(s, Open(0)) && Do(plan, s, Open(0)) == Scene(op, files, {}, None, Fetching(0), 0, [])
  {
  }

  lemma Fetches(plan: Plan, op: Op, b: Bytes, out: Bytes)
    requires plan(op, b) == Replace(out)
    ensures var files := map[0 := File(b, Stable)];
            var s := Scene(op, files, {}, None, Fetching(0), 0, []);
            Enabled(s, Read(0, b)) && Do(plan, s, Read(0, b)) == Scene(op, files, {}, None, Computed(b, out), 0, [])
  {
  }

  lemma Reopens(plan: Plan, op: Op, b: Bytes, out: Bytes)
    ensures var files := map[0 := File(b, Stable)];
            var s := Scene(op, files, {}, None, Computed(b, out), 0, []);
            Enabled(s, Reopen(0)) && Do(plan, s, Reopen(0)) == Scene(op, files, {}, None, Comparing(b, out, 0), 0, [])
  {
  }

  lemma Matches(plan: Plan, op: Op, b: Bytes, out: Bytes)
    ensures var files := map[0 := File(b, Stable)];
            var s := Scene(op, files, {}, None, Comparing(b, out, 0), 0, []);
            Enabled(s, Recheck(0, b))
              && Do(plan, s, Recheck(0, b)) == Scene(op, files, {}, None, Matched(b, out), 0, [])
  {
  }

  /** Whether a foreign write of these bytes changes the file. */
  function Change(b: Bytes, reset: Bytes): nat {
    if reset == b then 0 else 1
  }

  /** A whole password reset inside the window. */
  lemma ForeignWrites(plan: Plan, op: Op, b: Bytes, out: Bytes, reset: Bytes)
    ensures var s := Scene(op, map[0 := File(b, Stable)], {}, None, Matched(b, out), 0, []);
            && Enabled(s, ForeignOpen(reset, reset))
            && var t := Do(plan, s, ForeignOpen(reset, reset));
               && Enabled(t, ForeignClose)
               && Do(plan, t, ForeignClose)
               == Scene(op, map[0 := File(reset, Dirty)], {}, None, Matched(b, out), Change(b, reset),
                 [ForeignCommit(reset)])
  {
  }

  lemma BacksUp(plan: Plan, op: Op, b: Bytes, out: Bytes, k: nat, files: map<Ino, File>, log: seq<Commit>)
    requires 0 in files
    ensures var s := Scene(op, files, {}, None, Matched(b, out), k, log);
            Enabled(s, Backup(0)) && Do(plan, s, Backup(0)) == Scene(op, files, {}, Some(b), BackedUp(b, out), k, log)
  {
  }

  lemma MakesTemp(plan: Plan, op: Op, b: Bytes, out: Bytes, k: nat, f: File, log: seq<Commit>)
    ensures var s := Scene(op, map[0 := f], {}, Some(b), BackedUp(b, out), k, log);
            && Enabled(s, CreateTemp(0, 1))
            && Do(plan, s, CreateTemp(0, 1))
              == Scene(op, map[0 := f, 1 := File([], Unsynced)], {1}, Some(b), Created(b, out, 1), k, log)
  {
  }

  lemma FillsTemp(plan: Plan, op: Op, b: Bytes, out: Bytes, k: nat, f: File, log: seq<Commit>)
    ensures var s := Scene(op, map[0 := f, 1 := File([], Unsynced)], {1}, Some(b), Created(b, out, 1), k, log);
            && Enabled(s, WriteTemp(0))
            && Do(plan, s, WriteTemp(0))
              == Scene(op, map[0 := f, 1 := File(out, Unsynced)], {1}, Some(b), Written(b, out, 1), k, log)
  {
  }

  lemma SyncsTemp(plan: Plan, op: Op, b: Bytes, out: Bytes, k: nat, f: File, log: seq<Commit>)
    ensures var s := Scene(op, map[0 := f, 1 := File(out, Unsynced)], {1}, Some(b), Written(b, out, 1), k, log);
            && Enabled(s, SyncTemp(0))
            && Do(plan, s, SyncTemp(0))
              == Scene(op, map[0 := f, 1 := File(out, Stable)], {1}, Some(b), Synced(b, out, 1), k, log)
  {
  }

  /** The run up to the rename. */
  lemma LostUpToTheSync(plan: Plan, op: Op, b: Bytes, out: Bytes, reset: Bytes) returns (acts: seq<Action>)
    requires plan(op, b) == Replace(out)
    ensures Legal(plan, Holding(b), acts)
    ensures After(plan, Holding(b), acts)
         == Scene(op, map[0 := File(reset, Dirty), 1 := File(out, Stable)], {1}, Some(b), Synced(b, out, 1),
           Change(b, reset), [ForeignCommit(reset)])
  {
    var s, k, f, log := Holding(b), Change(b, reset), File(reset, Dirty), [ForeignCommit(reset)];
    assert Legal(plan, s, []) && After(plan, s, []) == s;
    hide *;
    Enters(plan, op, b);
    acts := Extend(plan, s, [], Begin(0, op));
    Locks(plan, op, b);
    acts := Extend(plan, s, acts, Acquire(0));
    Sweeps(plan, op, b);
    acts := Extend(plan, s, acts, Sweep(0, {}));
    Opens(plan, op, b);
    acts := Extend(plan, s, acts, Open(0));
    Fetches(plan, op, b, out);
    acts := Extend(plan, s, acts, Read(0, b));
    Reopens(plan, op, b, out);
    acts := Extend(plan, s, acts, Reopen(0));
    Matches(plan, op, b, out);
    acts := Extend(plan, s, acts, Recheck(0, b));
    ForeignWrites(plan, op, b, out, reset);
    acts := Extend(plan, s, acts, ForeignOpen(reset, reset));
    acts := Extend(plan, s, acts, ForeignClose);
    BacksUp(plan, op, b, out, k, map[0 := f], log);
    acts := Extend(plan, s, acts, Backup(0));
    MakesTemp(plan, op, b, out, k, f, log);
    acts := Extend(plan, s, acts, CreateTemp(0, 1));
    FillsTemp(plan, op, b, out, k, f, log);
    acts := Extend(plan, s, acts, WriteTemp(0));
    SyncsTemp(plan, op, b, out, k, f, log);
    acts := Extend(plan, s, acts, SyncTemp(0));
  }

  /** The end of the call: the portal's version is in place, the reset only in an inode that no name leads to. */
  predicate LostEnding(s: State, op: Op, b: Bytes, out: Bytes, reset: Bytes, pc: Pc) {
    && Shaped(s) && s.foreign.Idle? && s.files == map[0 := File(reset, Dirty), 1 := File(out, Stable)]
    && Content(s) == out && s.bak == Some(b) && s.log == [ForeignCommit(reset), PortalCommit(op)]
    && 0 in s.writers && s.writers[0].op == op && s.writers[0].pc == pc
  }

  lemma RenameLoses(plan: Plan, op: Op, b: Bytes, out: Bytes, reset: Bytes)
    ensures var s :=
      Scene(op, map[0 := File(reset, Dirty), 1 := File(out, Stable)], {1}, Some(b), Synced(b, out, 1),
        Change(b, reset), [ForeignCommit(reset)]);
            && Enabled(s, Rename(0))
            && LostEnding(Do(plan, s, Rename(0)), op, b, out, reset, Renamed(b, out, 1))
  {
  }

  lemma EndsInSuccess(plan: Plan, s: State, op: Op, b: Bytes, out: Bytes, reset: Bytes)
    requires LostEnding(s, op, b, out, reset, Renamed(b, out, 1))
    ensures Enabled(s, SyncDir(0, true))
    ensures LostEnding(Do(plan, s, SyncDir(0, true)), op, b, out, reset, Leaving(Success, Some(1)))
  {
  }

  lemma EndsClean(plan: Plan, s: State, op: Op, b: Bytes, out: Bytes, reset: Bytes)
    requires LostEnding(s, op, b, out, reset, Leaving(Success, Some(1)))
    ensures Enabled(s, RemoveTemp(0, true))
    ensures LostEnding(Do(plan, s, RemoveTemp(0, true)), op, b, out, reset, Leaving(Success, None))
  {
  }

  lemma EndsUnlocked(plan: Plan, s: State, op: Op, b: Bytes, out: Bytes, reset: Bytes)
    requires LostEnding(s, op, b, out, reset, Leaving(Success, None))
    ensures Enabled(s, Release(0))
    ensures LostEnding(Do(plan, s, Release(0)), op, b, out, reset, Done(Success))
  {
  }

  lemma FoldOfLost(plan: Plan, op: Op, b: Bytes, reset: Bytes)
    ensures Fold(plan, b, [ForeignCommit(reset), PortalCommit(op)]) == Committed(plan, reset, PortalCommit(op))
  {
    FoldSnoc(plan, b, [], ForeignCommit(reset));
    FoldSnoc(plan, b, [ForeignCommit(reset)], PortalCommit(op));
    assert [] + [ForeignCommit(reset)] == [ForeignCommit(reset)];
  }

  /**
   Without calm an update is lost: for any codec, any operation that edits the content b, and any
   password reset, there is a run in which the reset is written in full inside the window and the
   call then reports success. The file ends up holding the edit of b, and the backup b, so a reset to
   anything else is in neither; the fold of the two commits would be the edit of the reset.
   */
  lemma UpdateLostInTheWindow(c: Codec, op: Op, b: Bytes, reset: Bytes) returns (s: State, acts: seq<Action>)
    requires Apply(c, op, b).Replace?
    ensures Initial(s) && Content(s) == b && Legal(PlanOf(c), s, acts)
    ensures var t := After(PlanOf(c), s, acts);
            && Shaped(t) && t.foreign.Idle?
            && 0 in t.writers && t.writers[0].op == op && t.writers[0].pc == Done(Success)
            && t.log == [ForeignCommit(reset), PortalCommit(op)]
            && Content(t) == Apply(c, op, b).out && t.bak == Some(b)
            && (reset != b && reset != Apply(c, op, b).out ==> Content(t) != reset && t.bak != Some(reset))
            && Fold(PlanOf(c), b, t.log) == Committed(PlanOf(c), reset, PortalCommit(op))
  {
    hide Legal, After, Apply, Do, Enabled;
    var plan, out := PlanOf(c), Apply(c, op, b).out;
    s := Holding(b);
    acts := LostUpToTheSync(plan, op, b, out, reset);
    RenameLoses(plan, op, b, out, reset);
    acts := Extend(plan, s, acts, Rename(0));
    EndsInSuccess(plan, After(plan, s, acts), op, b, out, reset);
    acts := Extend(plan, s, acts, SyncDir(0, true));
    EndsClean(plan, After(plan, s, acts), op, b, out, reset);
    acts := Extend(plan, s, acts, RemoveTemp(0, true));
    EndsUnlocked(plan, After(plan, s, acts), op, b, out, reset);
    acts := Extend(plan, s, acts, Release(0));
    FoldOfLost(plan, op, b, reset);
  }
}
