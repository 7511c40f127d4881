/**
 What every step of the protocol keeps, and what therefore holds in every reachable state.
 */
module ProtocolInv {
  import opened YamlTree
  import opened UserFile
  import opened Protocol

  /** Only the lock holder is past the lock, and a held lock has a holder at work. */
  ghost predicate LockInv(s: State) {
    && (forall w :: w in s.writers && Critical(s.writers[w].pc) ==> s.lock == Some(w))
    && (s.lock.Some? ==> s.lock.value in s.writers && Critical(s.writers[s.lock.value].pc))
  }

  /** What a writer carries is the plan for what it read, and its temp file is what it made it. */
  ghost predicate Work(plan: Plan, files: map<Ino, File>, temps: set<Ino>, wr: Writer) {
    var pc := wr.pc;
    && (pc.Computed? || pc.Comparing? || InWindow(pc) || pc.Renamed? ==> plan(wr.op, pc.original) == Replace(pc.out))
    && (pc.Created? || pc.Written? || pc.Synced? ==> pc.tmp in temps && pc.tmp in files)
    && (pc.Written? || pc.Synced? ==> files[pc.tmp].data == pc.out)
    && (pc.Synced? ==> files[pc.tmp].status == Stable)
  }

  ghost predicate WorkInv(plan: Plan, s: State) {
    forall w :: w in s.writers ==> Work(plan, s.files, s.temps, s.writers[w])
  }

  /** Every attempt given up is owed to a foreign change made since the lock was taken. */
  ghost predicate Counted(changes: nat, content: Bytes, wr: Writer) {
    match wr.pc
    case Start => wr.since == 0 && wr.failed == 0
    case Locked => wr.failed == 0 && wr.since <= changes
    case Reading => wr.failed < ATTEMPTS && wr.since + wr.failed <= changes
    case Fetching(mark) => wr.failed < ATTEMPTS && wr.since + wr.failed <= mark <= changes
    case Computed(original, _) =>
      wr.failed < ATTEMPTS && wr.since + wr.failed + (if content == original then 0 else 1) <= changes
    case Comparing(original, _, mark) =>
      wr.failed < ATTEMPTS && mark <= changes
      && wr.since + wr.failed + (if content == original && changes == mark then 0 else 1) <= changes
    case Leaving(result, _) =>
      wr.failed <= ATTEMPTS && (result.Exhausted? ==> wr.failed == ATTEMPTS && wr.since + ATTEMPTS <= changes)
    case Done(result) =>
      wr.failed <= ATTEMPTS && (result.Exhausted? ==> wr.failed == ATTEMPTS && wr.since + ATTEMPTS <= changes)
    case _ => wr.failed <= ATTEMPTS
  }

  ghost predicate CountInv(s: State) {
    Shaped(s) && forall w :: w in s.writers ==> Counted(s.changes, Content(s), s.writers[w])
  }

  /** Whether the call has renamed: exactly if it is to report success; the backup is in place before. */
  ghost predicate Accounted(bak: Option<Bytes>, wr: Writer) {
    var pc := wr.pc;
    && (wr.replaced.Some? ==>
      pc.Renamed? || (pc.Leaving? && pc.result.Success?) || (pc.Done? && pc.result.Success?) || pc.Dead?)
    && (pc.Renamed? || (pc.Leaving? && pc.result.Success?) || (pc.Done? && pc.result.Success?) ==> wr.replaced.Some?)
    && ((InWindow(pc) && !pc.Matched?) || pc.Renamed? ==> bak == Some(pc.original))
  }

  ghost predicate AccountInv(s: State) {
    forall w :: w in s.writers ==> Accounted(s.bak, s.writers[w])
  }

  /** After a complete sweep there is no temp file but the writer's own. */
  ghost predicate Tidy(temps: set<Ino>, wr: Writer) {
    var pc := wr.pc;
    Critical(pc) && !pc.Locked? && wr.swept ==>
      forall t :: t in temps ==> OwnsTemp(pc, t) || (pc.Leaving? && pc.left == Some(t))
  }

  ghost predicate TidyInv(s: State) {
    forall w :: w in s.writers ==> Tidy(s.temps, s.writers[w])
  }

  /** Whatever was renamed into place had been synced, and only Authelia dirties it afterwards. */
  ghost predicate SyncedInv(s: State) {
    Shaped(s) && forall v :: v in s.versions ==> s.files[v].status != Unsynced
  }

  ghost predicate Inv(plan: Plan, s: State) {
    && Shaped(s) && LockInv(s) && WorkInv(plan, s) && CountInv(s) && AccountInv(s) && TidyInv(s) && SyncedInv(s)
  }

  lemma InitialInv(plan: Plan, s: State)
    requires Initial(s)
    ensures Inv(plan, s)
  {
  }

  // ----- the steps, by phase of the call; the proofs go phase by phase -----

  /** The steps up to the first file that is written. */
  predicate Early(a: Action) {
    a.Begin? || a.Acquire? || a.Sweep? || a.Open? || a.Read? || a.Reopen? || a.Recheck? || a.Backup?
  }

  predicate Reads(a: Action) {
    a.Open? || a.Read? || a.Reopen? || a.Recheck?
  }

  /** From the temp file to the rename. */
  predicate Making(a: Action) {
    a.CreateTemp? || a.WriteTemp? || a.SyncTemp? || a.Rename?
  }

  predicate Ending(a: Action) {
    a.SyncDir? || a.RemoveTemp? || a.Release?
  }

  /** A failing system call or a dying process. */
  predicate Stopping(a: Action) {
    a.Fail? || a.Die?
  }

  /** Someone other than a portal writer. */
  predicate Outside(a: Action) {
    a.ForeignOpen? || a.ForeignTear? || a.ForeignClose? || a.Flush? || a.FlushDir? || a.PowerLoss?
  }

  /** A step from outside, short of a power loss, touches no record, nor the lock, the backup or the temp files. */
  lemma OutsideStep(plan: Plan, s: State, a: Action)
    requires Enabled(s, a) && Outside(a) && !a.PowerLoss?
    ensures var t := Do(plan, s, a); t.writers == s.writers && t.bak == s.bak && t.lock == s.lock && t.temps == s.temps
  {
  }

  lemma KeepsShapeEarly(plan: Plan, s: State, a: Action)
    requires WorkInv(plan, s) && Enabled(s, a) && Early(a)
    ensures Shaped(Do(plan, s, a))
  {
  }

  lemma KeepsShapeMaking(plan: Plan, s: State, a: Action)
    requires WorkInv(plan, s) && Enabled(s, a) && Making(a)
    ensures Shaped(Do(plan, s, a))
  {
  }

  lemma KeepsShapeEnding(plan: Plan, s: State, a: Action)
    requires WorkInv(plan, s) && Enabled(s, a) && Ending(a)
    ensures Shaped(Do(plan, s, a))
  {
  }

  lemma KeepsShapeStopping(plan: Plan, s: State, a: Action)
    requires WorkInv(plan, s) && Enabled(s, a) && Stopping(a)
    ensures Shaped(Do(plan, s, a))
  {
  }

  lemma KeepsShapeOutside(plan: Plan, s: State, a: Action)
    requires WorkInv(plan, s) && Enabled(s, a) && Outside(a) && !a.PowerLoss?
    ensures Shaped(Do(plan, s, a))
  {
  }

  lemma KeepsShapePowerLoss(plan: Plan, s: State, a: Action)
    requires WorkInv(plan, s) && Enabled(s, a) && a.PowerLoss?
    ensures Shaped(Do(plan, s, a))
  {
  }

  lemma KeepsShape(plan: Plan, s: State, a: Action)
    requires WorkInv(plan, s) && Enabled(s, a)
    ensures Shaped(Do(plan, s, a))
  {
    hide Do, Enabled, Shaped, WorkInv;
    if Early(a) { KeepsShapeEarly(plan, s, a); }
    else if Making(a) { KeepsShapeMaking(plan, s, a); }
    else if Ending(a) { KeepsShapeEnding(plan, s, a); }
    else if Stopping(a) { KeepsShapeStopping(plan, s, a); }
    else if a.PowerLoss? { KeepsShapePowerLoss(plan, s, a); }
    else { KeepsShapeOutside(plan, s, a); }
  }

  lemma KeepsLockEarly(plan: Plan, s: State, a: Action)
    requires LockInv(s) && Enabled(s, a) && Early(a)
    ensures LockInv(Do(plan, s, a))
  {
  }

  lemma KeepsLockMaking(plan: Plan, s: State, a: Action)
    requires LockInv(s) && Enabled(s, a) && Making(a)
    ensures LockInv(Do(plan, s, a))
  {
  }

  lemma KeepsLockEnding(plan: Plan, s: State, a: Action)
    requires LockInv(s) && Enabled(s, a) && Ending(a)
    ensures LockInv(Do(plan, s, a))
  {
  }

  lemma KeepsLockStopping(plan: Plan, s: State, a: Action)
    requires LockInv(s) && Enabled(s, a) && Stopping(a)
    ensures LockInv(Do(plan, s, a))
  {
  }

  lemma KeepsLockOutside(plan: Plan, s: State, a: Action)
    requires LockInv(s) && Enabled(s, a) && Outside(a) && !a.PowerLoss?
    ensures LockInv(Do(plan, s, a))
  {
    OutsideStep(plan, s, a);
    hide Do;
  }

  lemma KeepsLockPowerLoss(plan: Plan, s: State, a: Action)
    requires LockInv(s) && Enabled(s, a) && a.PowerLoss?
    ensures LockInv(Do(plan, s, a))
  {
  }

  lemma KeepsLock(plan: Plan, s: State, a: Action)
    requires LockInv(s) && Enabled(s, a)
    ensures LockInv(Do(plan, s, a))
  {
    hide Do, Enabled, LockInv;
    if Early(a) { KeepsLockEarly(plan, s, a); }
    else if Making(a) { KeepsLockMaking(plan, s, a); }
    else if Ending(a) { KeepsLockEnding(plan, s, a); }
    else if Stopping(a) { KeepsLockStopping(plan, s, a); }
    else if a.PowerLoss? { KeepsLockPowerLoss(plan, s, a); }
    else { KeepsLockOutside(plan, s, a); }
  }

  lemma KeepsWorkEarly(plan: Plan, s: State, a: Action)
    requires LockInv(s) && WorkInv(plan, s) && Enabled(s, a) && Early(a)
    ensures WorkInv(plan, Do(plan, s, a))
  {
  }

  lemma KeepsWorkMaking(plan: Plan, s: State, a: Action)
    requires LockInv(s) && WorkInv(plan, s) && Enabled(s, a) && Making(a)
    ensures WorkInv(plan, Do(plan, s, a))
  {
  }

  lemma KeepsWorkEnding(plan: Plan, s: State, a: Action)
    requires LockInv(s) && WorkInv(plan, s) && Enabled(s, a) && Ending(a)
    ensures WorkInv(plan, Do(plan, s, a))
  {
  }

  lemma KeepsWorkStopping(plan: Plan, s: State, a: Action)
    requires LockInv(s) && WorkInv(plan, s) && Enabled(s, a) && Stopping(a)
    ensures WorkInv(plan, Do(plan, s, a))
  {
  }

  lemma KeepsWorkOutside(plan: Plan, s: State, a: Action)
    requires LockInv(s) && WorkInv(plan, s) && Enabled(s, a) && Outside(a)
    ensures WorkInv(plan, Do(plan, s, a))
  {
  }

  lemma KeepsWork(plan: Plan, s: State, a: Action)
    requires LockInv(s) && WorkInv(plan, s) && Enabled(s, a)
    ensures WorkInv(plan, Do(plan, s, a))
  {
    hide Do, Enabled, LockInv, WorkInv;
    if Early(a) { KeepsWorkEarly(plan, s, a); }
    else if Making(a) { KeepsWorkMaking(plan, s, a); }
    else if Ending(a) { KeepsWorkEnding(plan, s, a); }
    else if Stopping(a) { KeepsWorkStopping(plan, s, a); }
    else { KeepsWorkOutside(plan, s, a); }
  }

  lemma KeepsAccountEarly(plan: Plan, s: State, a: Action)
    requires LockInv(s) && AccountInv(s) && Enabled(s, a) && Early(a)
    ensures AccountInv(Do(plan, s, a))
  {
  }

  lemma KeepsAccountMaking(plan: Plan, s: State, a: Action)
    requires LockInv(s) && AccountInv(s) && Enabled(s, a) && Making(a)
    ensures AccountInv(Do(plan, s, a))
  {
  }

  lemma KeepsAccountEnding(plan: Plan, s: State, a: Action)
    requires LockInv(s) && AccountInv(s) && Enabled(s, a) && Ending(a)
    ensures AccountInv(Do(plan, s, a))
  {
  }

  lemma KeepsAccountStopping(plan: Plan, s: State, a: Action)
    requires LockInv(s) && AccountInv(s) && Enabled(s, a) && Stopping(a)
    ensures AccountInv(Do(plan, s, a))
  {
  }

  lemma KeepsAccountOutside(plan: Plan, s: State, a: Action)
    requires LockInv(s) && AccountInv(s) && Enabled(s, a) && Outside(a) && !a.PowerLoss?
    ensures AccountInv(Do(plan, s, a))
  {
    OutsideStep(plan, s, a);
    hide Do;
  }

  lemma KeepsAccountPowerLoss(plan: Plan, s: State, a: Action)
    requires LockInv(s) && AccountInv(s) && Enabled(s, a) && a.PowerLoss?
    ensures AccountInv(Do(plan, s, a))
  {
  }

  lemma KeepsAccount(plan: Plan, s: State, a: Action)
    requires LockInv(s) && AccountInv(s) && Enabled(s, a)
    ensures AccountInv(Do(plan, s, a))
  {
    hide Do, Enabled, LockInv, AccountInv;
    if Early(a) { KeepsAccountEarly(plan, s, a); }
    else if Making(a) { KeepsAccountMaking(plan, s, a); }
    else if Ending(a) { KeepsAccountEnding(plan, s, a); }
    else if Stopping(a) { KeepsAccountStopping(plan, s, a); }
    else if a.PowerLoss? { KeepsAccountPowerLoss(plan, s, a); }
    else { KeepsAccountOutside(plan, s, a); }
  }

  lemma KeepsTidyEarly(plan: Plan, s: State, a: Action)
    requires LockInv(s) && TidyInv(s) && Enabled(s, a) && Early(a)
    ensures TidyInv(Do(plan, s, a))
  {
  }

  lemma KeepsTidyMaking(plan: Plan, s: State, a: Action)
    requires LockInv(s) && TidyInv(s) && Enabled(s, a) && Making(a)
    ensures TidyInv(Do(plan, s, a))
  {
  }

  lemma KeepsTidyEnding(plan: Plan, s: State, a: Action)
    requires LockInv(s) && TidyInv(s) && Enabled(s, a) && Ending(a)
    ensures TidyInv(Do(plan, s, a))
  {
  }

  lemma KeepsTidyStopping(plan: Plan, s: State, a: Action)
    requires LockInv(s) && TidyInv(s) && Enabled(s, a) && Stopping(a)
    ensures TidyInv(Do(plan, s, a))
  {
  }

  lemma KeepsTidyOutside(plan: Plan, s: State, a: Action)
    requires LockInv(s) && TidyInv(s) && Enabled(s, a) && Outside(a) && !a.PowerLoss?
    ensures TidyInv(Do(plan, s, a))
  {
    OutsideStep(plan, s, a);
    hide Do;
  }

  lemma KeepsTidyPowerLoss(plan: Plan, s: State, a: Action)
    requires LockInv(s) && TidyInv(s) && Enabled(s, a) && a.PowerLoss?
    ensures TidyInv(Do(plan, s, a))
  {
  }

  lemma KeepsTidy(plan: Plan, s: State, a: Action)
    requires LockInv(s) && TidyInv(s) && Enabled(s, a)
    ensures TidyInv(Do(plan, s, a))
  {
    hide Do, Enabled, LockInv, TidyInv;
    if Early(a) { KeepsTidyEarly(plan, s, a); }
    else if Making(a) { KeepsTidyMaking(plan, s, a); }
    else if Ending(a) { KeepsTidyEnding(plan, s, a); }
    else if Stopping(a) { KeepsTidyStopping(plan, s, a); }
    else if a.PowerLoss? { KeepsTidyPowerLoss(plan, s, a); }
    else { KeepsTidyOutside(plan, s, a); }
  }

  lemma KeepsSyncedEarly(plan: Plan, s: State, a: Action)
    requires WorkInv(plan, s) && SyncedInv(s) && Enabled(s, a) && Early(a)
    ensures Shaped(Do(plan, s, a)) ==> SyncedInv(Do(plan, s, a))
  {
  }

  lemma KeepsSyncedMaking(plan: Plan, s: State, a: Action)
    requires WorkInv(plan, s) && SyncedInv(s) && Enabled(s, a) && Making(a)
    ensures Shaped(Do(plan, s, a)) ==> SyncedInv(Do(plan, s, a))
  {
  }

  lemma KeepsSyncedEnding(plan: Plan, s: State, a: Action)
    requires WorkInv(plan, s) && SyncedInv(s) && Enabled(s, a) && Ending(a)
    ensures Shaped(Do(plan, s, a)) ==> SyncedInv(Do(plan, s, a))
  {
  }

  lemma KeepsSyncedStopping(plan: Plan, s: State, a: Action)
    requires WorkInv(plan, s) && SyncedInv(s) && Enabled(s, a) && Stopping(a)
    ensures Shaped(Do(plan, s, a)) ==> SyncedInv(Do(plan, s, a))
  {
  }

  lemma KeepsSyncedOutside(plan: Plan, s: State, a: Action)
    requires WorkInv(plan, s) && SyncedInv(s) && Enabled(s, a) && Outside(a)
    ensures Shaped(Do(plan, s, a)) ==> SyncedInv(Do(plan, s, a))
  {
  }

  lemma KeepsSynced(plan: Plan, s: State, a: Action)
    requires WorkInv(plan, s) && SyncedInv(s) && Enabled(s, a)
    ensures Shaped(Do(plan, s, a)) ==> SyncedInv(Do(plan, s, a))
  {
    hide Do, Enabled, WorkInv, SyncedInv, Shaped;
    if Early(a) { KeepsSyncedEarly(plan, s, a); }
    else if Making(a) { KeepsSyncedMaking(plan, s, a); }
    else if Ending(a) { KeepsSyncedEnding(plan, s, a); }
    else if Stopping(a) { KeepsSyncedStopping(plan, s, a); }
    else { KeepsSyncedOutside(plan, s, a); }
  }

  // ----- the count of attempts -----

  lemma KeepsCountOpen(plan: Plan, s: State, a: Action)
    requires LockInv(s) && CountInv(s) && Enabled(s, a) && a.Open?
    ensures CountInv(Do(plan, s, a))
  {
  }

  lemma KeepsCountRead(plan: Plan, s: State, a: Action)
    requires LockInv(s) && CountInv(s) && Enabled(s, a) && a.Read?
    ensures CountInv(Do(plan, s, a))
  {
  }

  lemma KeepsCountReopen(plan: Plan, s: State, a: Action)
    requires LockInv(s) && CountInv(s) && Enabled(s, a) && a.Reopen?
    ensures CountInv(Do(plan, s, a))
  {
  }

  lemma KeepsCountEarly(plan: Plan, s: State, a: Action)
    requires LockInv(s) && CountInv(s) && Enabled(s, a) && Early(a) && !Reads(a)
    ensures CountInv(Do(plan, s, a))
  {
  }

  /** A step past the first reads belongs to the lock holder; nobody else is counting then. */
  lemma OthersIdle(s: State, w: Wid, v: Wid)
    requires LockInv(s) && w in s.writers && Critical(s.writers[w].pc) && v in s.writers && v != w
    ensures !Critical(s.writers[v].pc)
  {
  }

  lemma IdleStaysCounted(changes: nat, a: Bytes, b: Bytes, wr: Writer)
    requires Counted(changes, a, wr) && !Critical(wr.pc)
    ensures Counted(changes, b, wr)
  {
  }

  /** A step of w leaves the record of every other writer alone. */
  lemma OwnStep(plan: Plan, s: State, a: Action, v: Wid)
    requires Enabled(s, a) && !a.Begin? && !Outside(a) && v != a.w
    ensures v in Do(plan, s, a).writers <==> v in s.writers
    ensures v in s.writers ==> Do(plan, s, a).writers[v] == s.writers[v]
  {
  }

  /** A comparison changes nothing but the writer's own record. */
  lemma RecheckFrame(plan: Plan, s: State, a: Action)
    requires Enabled(s, a) && a.Recheck?
    ensures var t := Do(plan, s, a);
            && Shaped(t) && t.changes == s.changes && Content(t) == Content(s)
            && t.writers == s.writers[a.w := t.writers[a.w]]
  {
  }

  lemma OwnCountRecheck(plan: Plan, s: State, a: Action)
    requires Enabled(s, a) && a.Recheck? && Counted(s.changes, Content(s), s.writers[a.w])
    ensures a.w in Do(plan, s, a).writers && Counted(s.changes, Content(s), Do(plan, s, a).writers[a.w])
  {
  }

  lemma KeepsCountRecheck(plan: Plan, s: State, a: Action)
    requires CountInv(s) && Enabled(s, a) && a.Recheck?
    ensures CountInv(Do(plan, s, a))
  {
    RecheckFrame(plan, s, a);
    OwnCountRecheck(plan, s, a);
    hide Do, Counted;
  }

  lemma OwnCountMaking(plan: Plan, s: State, a: Action)
    requires CountInv(s) && Enabled(s, a) && Making(a) && Shaped(Do(plan, s, a))
    ensures var t := Do(plan, s, a); a.w in t.writers && Counted(t.changes, Content(t), t.writers[a.w])
  {
    assert Counted(s.changes, Content(s), s.writers[a.w]);
  }

  lemma OwnCountEnding(plan: Plan, s: State, a: Action)
    requires CountInv(s) && Enabled(s, a) && Ending(a) && Shaped(Do(plan, s, a))
    ensures var t := Do(plan, s, a); a.w in t.writers && Counted(t.changes, Content(t), t.writers[a.w])
  {
    assert Counted(s.changes, Content(s), s.writers[a.w]);
  }

  lemma OwnCountStopping(plan: Plan, s: State, a: Action)
    requires CountInv(s) && Enabled(s, a) && Stopping(a) && Shaped(Do(plan, s, a))
    ensures var t := Do(plan, s, a); a.w in t.writers && Counted(t.changes, Content(t), t.writers[a.w])
  {
    assert Counted(s.changes, Content(s), s.writers[a.w]);
  }

  lemma LateFrame(plan: Plan, s: State, a: Action)
    requires Enabled(s, a) && (Making(a) || Ending(a) || Stopping(a)) && Shaped(Do(plan, s, a))
    ensures Do(plan, s, a).changes == s.changes
    ensures !Critical(s.writers[a.w].pc) ==> Content(Do(plan, s, a)) == Content(s)
  {
  }

  lemma OtherCountLate(plan: Plan, s: State, a: Action, v: Wid)
    requires LockInv(s) && CountInv(s) && Enabled(s, a) && (Making(a) || Ending(a) || Stopping(a))
      && Shaped(Do(plan, s, a))
    requires v in Do(plan, s, a).writers && v != a.w
    ensures var t := Do(plan, s, a); Counted(t.changes, Content(t), t.writers[v])
  {
    LateFrame(plan, s, a);
    OwnStep(plan, s, a, v);
    hide Do, Counted;
    if Critical(s.writers[a.w].pc) {
      OthersIdle(s, a.w, v);
      IdleStaysCounted(s.changes, Content(s), Content(Do(plan, s, a)), s.writers[v]);
    }
  }

  lemma KeepsCountLate(plan: Plan, s: State, a: Action)
    requires LockInv(s) && CountInv(s) && Enabled(s, a) && (Making(a) || Ending(a) || Stopping(a))
      && Shaped(Do(plan, s, a))
    ensures CountInv(Do(plan, s, a))
  {
    hide Do, Counted, Enabled, LockInv;
    var t := Do(plan, s, a);
    if Making(a) { OwnCountMaking(plan, s, a); }
    else if Ending(a) { OwnCountEnding(plan, s, a); }
    else { OwnCountStopping(plan, s, a); }
    forall v | v in t.writers && v != a.w
      ensures Counted(t.changes, Content(t), t.writers[v])
    {
      OtherCountLate(plan, s, a, v);
    }
  }

  lemma KeepsCountOutside(plan: Plan, s: State, a: Action)
    requires CountInv(s) && Enabled(s, a) && Outside(a) && Shaped(Do(plan, s, a))
    ensures CountInv(Do(plan, s, a))
  {
  }

  lemma KeepsCount(plan: Plan, s: State, a: Action)
    requires LockInv(s) && CountInv(s) && Enabled(s, a) && Shaped(Do(plan, s, a))
    ensures CountInv(Do(plan, s, a))
  {
    hide Do, Enabled, LockInv, CountInv, Shaped;
    if a.Recheck? { KeepsCountRecheck(plan, s, a); }
    else if a.Reopen? { KeepsCountReopen(plan, s, a); }
    else if a.Read? { KeepsCountRead(plan, s, a); }
    else if a.Open? { KeepsCountOpen(plan, s, a); }
    else if Early(a) { KeepsCountEarly(plan, s, a); }
    else if Outside(a) { KeepsCountOutside(plan, s, a); }
    else { KeepsCountLate(plan, s, a); }
  }

  /** Every step keeps the invariant. */
  lemma StepKeepsInv(plan: Plan, s: State, a: Action)
    requires Inv(plan, s) && Enabled(s, a)
    ensures Inv(plan, Do(plan, s, a))
  {
    hide Do, Enabled, Shaped, LockInv, WorkInv, CountInv, AccountInv, TidyInv, SyncedInv;
    KeepsShape(plan, s, a);
    KeepsLock(plan, s, a);
    KeepsWork(plan, s, a);
    KeepsCount(plan, s, a);
    KeepsAccount(plan, s, a);
    KeepsTidy(plan, s, a);
    KeepsSynced(plan, s, a);
  }

  /** So it holds in every reachable state, whatever the writers, Authelia, the kernel and the power do. */
  lemma {:induction false} RunKeepsInv(plan: Plan, s: State, acts: seq<Action>)
    requires Inv(plan, s) && Legal(plan, s, acts)
    ensures Inv(plan, After(plan, s, acts))
  {
    if acts != [] {
      var n := |acts| - 1;
      RunKeepsInv(plan, s, acts[..n]);
      StepKeepsInv(plan, After(plan, s, acts[..n]), acts[n]);
    }
  }
}
