/**
 The mutate machinery as it runs: one call, a system call at a time, against a scripted world.
 Between any two of its system calls other writers and Authelia may take any steps they are able
 to, and any system call may fail. A call cut short by a crash is a prefix of such a run.
 */
module Store {
  import opened Text
  import opened YamlTree
  import opened UserFile
  import opened Username
  import opened Protocol
  import opened ProtocolInv
  import opened Updates
  import opened Guarantees
  import EditFile

  /** A step that is not this writer's own and leaves the power on. */
  predicate ByOthers(a: Action, me: Wid) {
    !a.PowerLoss? && (Outside(a) || a.w != me)
  }

  lemma OthersKeepRecord(plan: Plan, s: State, a: Action, me: Wid)
    requires Enabled(s, a) && ByOthers(a, me) && me in s.writers
    ensures me in Do(plan, s, a).writers && Do(plan, s, a).writers[me] == s.writers[me]
  {
    if !Outside(a) && !a.Begin? { OwnStep(plan, s, a, me); }
  }

  /** The first n of these steps, as far as they are possible and not me's own. */
  function Played(plan: Plan, s: State, turn: seq<Action>, me: Wid, n: nat): State
    requires n <= |turn|
  {
    if n == 0 then s
    else
      var t := Played(plan, s, turn, me, n - 1);
      if ByOthers(turn[n - 1], me) && Enabled(t, turn[n - 1]) then Do(plan, t, turn[n - 1]) else t
  }

  /** Where a failing system call leaves the writer. */
  function FailedPc(pc: Pc): Pc {
    if pc.Start? then Done(IoError)
    else if pc.Created? || pc.Written? || pc.Synced? then Leaving(IoError, Some(pc.tmp))
    else Leaving(IoError, None)
  }

  lemma FailMoves(plan: Plan, s: State, w: Wid, junk: Bytes)
    requires Enabled(s, Fail(w, junk))
    ensures var t := Do(plan, s, Fail(w, junk));
            w in t.writers && t.writers[w] == s.writers[w].(pc := FailedPc(s.writers[w].pc))
  {
  }

  lemma CanGiveUp(plan: Plan, s: State, w: Wid, junk: Bytes)
    requires Inv(plan, s) && w in s.writers && CanFail(s.writers[w].pc)
    ensures Enabled(s, Fail(w, junk))
  {
    assert Work(plan, s.files, s.temps, s.writers[w]);
  }

  predicate IsFileWrite(a: Action) {
    a.Backup? || a.WriteTemp? || a.SyncTemp?
  }

  /** The pc after one of the system calls that write the backup or the temp file. */
  function WrittenPc(pc: Pc): Pc {
    match pc
    case Matched(original, out) => BackedUp(original, out)
    case Created(original, out, tmp) => Written(original, out, tmp)
    case Written(original, out, tmp) => Synced(original, out, tmp)
    case _ => pc
  }

  lemma WriteMoves(plan: Plan, s: State, a: Action)
    requires Enabled(s, a) && IsFileWrite(a)
    ensures var t := Do(plan, s, a);
            a.w in t.writers && t.writers[a.w] == s.writers[a.w].(pc := WrittenPc(s.writers[a.w].pc))
  {
  }

  /** The pc at which each of them is due. */
  predicate Due(a: Action, pc: Pc) {
    IsFileWrite(a) && (a.Backup? ==> pc.Matched?) && (a.WriteTemp? ==> pc.Created?) && (a.SyncTemp? ==> pc.Written?)
  }

  lemma DueIsEnabled(plan: Plan, s: State, a: Action)
    requires Inv(plan, s) && IsFileWrite(a) && a.w in s.writers && Due(a, s.writers[a.w].pc)
    ensures Enabled(s, a)
  {
    assert Work(plan, s.files, s.temps, s.writers[a.w]);
  }

  /** What a writer is committed to once it has read these bytes. */
  function Planned(c: Codec, op: Op, original: Bytes): Pc {
    match Apply(c, op, original)
    case Reject(error) => Leaving(Declined(error), None)
    case Replace(out) => Computed(original, out)
  }

  /** A writer whose attempt came to nothing because the file had changed. */
  function Retrying(wr: Writer): Writer {
    wr.(failed := wr.failed + 1, pc := if wr.failed + 1 >= ATTEMPTS then Leaving(Exhausted, None) else Reading)
  }

  lemma WriteKeeps(plan: Plan, s: State, a: Action)
    requires Inv(plan, s) && Enabled(s, a) && IsFileWrite(a)
    ensures var t := Do(plan, s, a);
            && Shaped(s) && Shaped(t) && Content(t) == Content(s) && t.log == s.log && t.versions == s.versions
            && (a.Backup? || t.bak == s.bak)
  {
    OthersKeepContent(plan, s, a);
  }

  /** t differs from s at most in a writer's record, the directory entry on disk and the temp files. */
  ghost predicate SameFile(s: State, t: State) {
    Shaped(s) && Shaped(t) && Content(t) == Content(s) && t.bak == s.bak && t.log == s.log && t.versions == s.versions
  }

  lemma OpenMoves(plan: Plan, s: State, me: Wid)
    requires Shaped(s) && me in s.writers && s.writers[me].pc.Reading?
    ensures Enabled(s, Open(me))
    ensures var t := Do(plan, s, Open(me));
            && me in t.writers && SameFile(s, t) && t.changes == s.changes
            && t.writers[me] == s.writers[me].(pc := Fetching(s.changes))
  {
  }

  lemma ReadMoves(c: Codec, s: State, me: Wid, seen: Bytes)
    requires Shaped(s) && me in s.writers && s.writers[me].pc.Fetching?
    requires s.changes == s.writers[me].pc.mark ==> seen == Content(s)
    ensures Enabled(s, Read(me, seen))
    ensures var t := Do(PlanOf(c), s, Read(me, seen));
            && me in t.writers && SameFile(s, t)
            && t.writers[me] == s.writers[me].(pc := Planned(c, s.writers[me].op, seen))
  {
  }

  lemma ReopenMoves(plan: Plan, s: State, me: Wid)
    requires Shaped(s) && me in s.writers && s.writers[me].pc.Computed?
    ensures Enabled(s, Reopen(me))
    ensures var t, pc := Do(plan, s, Reopen(me)), s.writers[me].pc;
            && me in t.writers && SameFile(s, t) && t.changes == s.changes
            && t.writers[me] == s.writers[me].(pc := Comparing(pc.original, pc.out, s.changes))
  {
  }

  lemma RecheckMoves(plan: Plan, s: State, me: Wid, seen: Bytes)
    requires Shaped(s) && me in s.writers && s.writers[me].pc.Comparing?
    requires s.changes == s.writers[me].pc.mark ==> seen == Content(s)
    ensures Enabled(s, Recheck(me, seen))
    ensures var t, wr := Do(plan, s, Recheck(me, seen)), s.writers[me];
            && me in t.writers && SameFile(s, t)
            && t.writers[me] == if seen == wr.pc.original then wr.(pc := Matched(wr.pc.original, wr.pc.out))
              else Retrying(wr)
  {
  }

  lemma RenameMoves(plan: Plan, s: State, me: Wid)
    requires Inv(plan, s) && me in s.writers && s.writers[me].pc.Synced?
    ensures Enabled(s, Rename(me))
    ensures var t, pc := Do(plan, s, Rename(me)), s.writers[me].pc;
            && Shaped(t) && Content(t) == pc.out && t.bak == s.bak && t.log == s.log + [PortalCommit(s.writers[me].op)]
            && me in t.writers
            && t.writers[me] == s.writers[me].(pc := Renamed(pc.original, pc.out, pc.tmp), replaced := Some(Content(s)))
  {
    assert Work(plan, s.files, s.temps, s.writers[me]);
  }

  lemma SyncDirMoves(plan: Plan, s: State, me: Wid, ok: bool)
    requires Shaped(s) && me in s.writers && s.writers[me].pc.Renamed?
    ensures Enabled(s, SyncDir(me, ok))
    ensures var t := Do(plan, s, SyncDir(me, ok));
            && me in t.writers && SameFile(s, t) && (ok ==> t.durable == |t.versions| - 1)
            && t.writers[me] == s.writers[me].(pc := Leaving(Success, Some(s.writers[me].pc.tmp)))
  {
  }

  lemma AcquireMoves(plan: Plan, s: State, me: Wid)
    requires Shaped(s) && s.lock == None && me in s.writers && s.writers[me].pc.Start?
    ensures Enabled(s, Acquire(me))
    ensures var t := Do(plan, s, Acquire(me));
            me in t.writers && SameFile(s, t) && t.writers[me] == s.writers[me].(pc := Locked, since := s.changes)
  {
  }

  lemma SweepMoves(plan: Plan, s: State, me: Wid, removed: set<Ino>)
    requires Shaped(s) && me in s.writers && s.writers[me].pc.Locked? && removed <= s.temps
    ensures Enabled(s, Sweep(me, removed))
    ensures var t := Do(plan, s, Sweep(me, removed));
            me in t.writers && SameFile(s, t)
              && t.writers[me] == s.writers[me].(pc := Reading, swept := removed == s.temps)
  {
  }

  lemma CreateMoves(plan: Plan, s: State, me: Wid, ino: Ino)
    requires Inv(plan, s) && me in s.writers && s.writers[me].pc.BackedUp? && ino !in s.files
    ensures Enabled(s, CreateTemp(me, ino))
    ensures var t, pc := Do(plan, s, CreateTemp(me, ino)), s.writers[me].pc;
            me in t.writers && SameFile(s, t)
              && t.writers[me] == s.writers[me].(pc := Created(pc.original, pc.out, ino))
  {
    OthersKeepContent(plan, s, CreateTemp(me, ino));
  }

  lemma RemoveMoves(plan: Plan, s: State, me: Wid, ok: bool)
    requires Shaped(s) && me in s.writers && s.writers[me].pc.Leaving? && s.writers[me].pc.left.Some?
    ensures Enabled(s, RemoveTemp(me, ok))
    ensures var t, wr := Do(plan, s, RemoveTemp(me, ok)), s.writers[me];
            && me in t.writers && SameFile(s, t) && t.durable == s.durable
            && t.writers[me] == wr.(pc := Leaving(wr.pc.result, None), swept := t.writers[me].swept)
            && (ok ==> t.writers[me].swept == wr.swept)
  {
  }

  lemma ReleaseMoves(plan: Plan, s: State, me: Wid)
    requires Inv(plan, s) && me in s.writers && s.writers[me].pc.Leaving? && s.writers[me].pc.left.None?
    ensures Enabled(s, Release(me))
    ensures var t, wr := Do(plan, s, Release(me)), s.writers[me];
            && me in t.writers && SameFile(s, t) && t.durable == s.durable
            && t.writers[me] == wr.(pc := Done(wr.pc.result))
            && (wr.swept ==> t.temps == {})
  {
    if s.writers[me].swept { NoTempLeftBehind(plan, s, me); }
  }

  lemma BackupInPlace(plan: Plan, s: State, me: Wid)
    requires Inv(plan, s) && me in s.writers && s.writers[me].pc.Created?
    ensures s.bak == Some(s.writers[me].pc.original)
  {
    assert Accounted(s.bak, s.writers[me]);
  }

  /** The file, which held the original, now has this content on disk; the original is in the backup. */
  ghost predicate Replaced(s: State, t: State, original: Bytes, out: Bytes, op: Op) {
    && Shaped(t) && Content(t) == out && t.durable == |t.versions| - 1
    && t.bak == Some(original) && t.log == s.log + [PortalCommit(op)]
  }

  /** What a call without interference makes of the file: its edit, or nothing at all. */
  ghost predicate DoneTo(c: Codec, s: State, t: State, op: Op, result: Result) {
    Shaped(s) &&
    match Apply(c, op, Content(s))
    case Reject(error) => result == Declined(error) && SameFile(s, t)
    case Replace(out) => result == Success && Replaced(s, t, Content(s), out, op)
  }

  lemma DoneToBetween(c: Codec, s0: State, s: State, t: State, u: State, op: Op, result: Result)
    requires SameFile(s0, s) && DoneTo(c, s, t, op, result) && SameFile(t, u) && u.durable == t.durable
    ensures DoneTo(c, s0, u, op, result)
  {
  }

  class Store {
    const codec: Codec
    ghost const start: State
    var s: State
    var script: seq<seq<Action>>
    var faults: seq<Option<Bytes>>
    var torn: seq<Bytes>
    ghost var trace: seq<Action>

    /** torn is what reads return that the file changed under. */
    constructor (codec: Codec, start: State, script: seq<seq<Action>>, faults: seq<Option<Bytes>>, torn: seq<Bytes>)
      requires Initial(start)
      ensures Valid() && this.codec == codec && this.start == start && s == start && trace == []
      ensures this.script == script && this.faults == faults && this.torn == torn
    {
      this.codec, this.start, this.s, this.script, this.faults, this.torn, this.trace :=
        codec, start, start, script, faults, torn, [];
      new;
      InitialInv(PlanOf(codec), start);
    }

    /** What has happened so far is a run of the protocol. */
    ghost predicate Valid()
      reads this
    {
      && Initial(start)
      && Legal(PlanOf(codec), start, trace)
      && After(PlanOf(codec), start, trace) == s
      && Shaped(s) && Inv(PlanOf(codec), s)
    }

    /** Nobody else does anything from now on and no system call fails. */
    ghost predicate Quiet()
      reads this
    {
      script == [] && faults == []
    }

    method Step(a: Action)
      requires Valid() && Enabled(s, a)
      modifies `s, `trace
      ensures Valid() && s == Do(PlanOf(codec), old(s), a) && trace == old(trace) + [a]
    {
      LegalSnoc(PlanOf(codec), start, trace, a);
      StepKeepsInv(PlanOf(codec), s, a);
      s := Do(PlanOf(codec), s, a);
      trace := trace + [a];
    }

    /** The others' turn: whatever of the next piece of the script is possible. */
    method Interfere(me: Wid)
      requires Valid() && me in s.writers
      modifies `s, `trace, `script
      ensures Valid() && old(trace) <= trace
      ensures me in s.writers && s.writers[me] == old(s.writers[me])
      ensures old(script) == [] ==> s == old(s) && script == []
      ensures old(script) != [] ==> script == old(script)[1..]
      ensures old(script) != [] ==>
        s == Played(PlanOf(codec), old(s), old(script)[0], me, |old(script)[0]|)
    {
      hide Legal, After, Do, Inv, Enabled, ByOthers;
      if script == [] { return; }
      var turn := script[0];
      script := script[1..];
      for i := 0 to |turn|
        invariant Valid() && old(trace) <= trace && script == old(script)[1..]
        invariant s == Played(PlanOf(codec), old(s), turn, me, i)
        invariant me in s.writers && s.writers[me] == old(s.writers[me])
      {
        if ByOthers(turn[i], me) && Enabled(s, turn[i]) {
          OthersKeepRecord(PlanOf(codec), s, turn[i], me);
          Step(turn[i]);
        }
      }
    }

    /** Whether the next system call fails, and what it then leaves in a file it was writing. */
    method NextFault() returns (f: Option<Bytes>)
      modifies `faults
      ensures old(faults) == [] ==> f == None && faults == []
    {
      if faults == [] { return None; }
      f := faults[0];
      faults := faults[1..];
    }

    method GiveUp(me: Wid, junk: Bytes)
      requires Valid() && Enabled(s, Fail(me, junk))
      modifies `s, `trace
      ensures Valid() && old(trace) <= trace
      ensures me in s.writers && s.writers[me] == old(s.writers[me]).(pc := FailedPc(old(s.writers[me]).pc))
    {
      FailMoves(PlanOf(codec), s, me, junk);
      Step(Fail(me, junk));
    }

    /** The others' turn, and then whether our next system call fails. */
    method Fails(me: Wid) returns (failed: bool)
      requires Valid() && me in s.writers && CanFail(s.writers[me].pc)
      modifies this
      ensures Valid() && old(trace) <= trace && me in s.writers
      ensures s.writers[me] == if failed then old(s.writers[me]).(pc := FailedPc(old(s.writers[me]).pc))
        else old(s.writers[me])
      ensures old(faults) == [] ==> faults == [] && !failed
      ensures old(Quiet()) ==> Quiet() && !failed && s == old(s)
    {
      hide Legal, After, Do, Inv, Enabled;
      Interfere(me);
      var fault := NextFault();
      failed := fault.Some?;
      if failed {
        CanGiveUp(PlanOf(codec), s, me, fault.value);
        GiveUp(me, fault.value);
      }
    }

    // ----- the system calls of mutate -----

    /** A new call. */
    method Enter(me: Wid, op: Op)
      requires Valid() && me !in s.writers
      modifies this
      ensures Valid() && old(trace) <= trace && me in s.writers && s.writers[me] == Writer(op, Start, 0, 0, None, false)
      ensures s == old(s).(writers := s.writers) && script == old(script) && faults == old(faults)
    {
      Step(Begin(me, op));
    }

    /** Open the lock file and flock it; None if the others are done and the lock was never given back. */
    method Lock(me: Wid) returns (ok: Option<bool>)
      requires Valid() && me in s.writers && s.writers[me].pc.Start?
      modifies this
      ensures Valid() && old(trace) <= trace && me in s.writers
      ensures s.writers[me] == old(s.writers[me]).(pc := s.writers[me].pc, since := s.writers[me].since)
      ensures ok.None? ==> s.writers[me].pc.Start? && script == [] && s.lock.Some?
      ensures ok == Some(false) ==> s.writers[me].pc == Done(IoError)
      ensures ok == Some(true) ==> s.writers[me].pc.Locked?
      ensures old(faults) == [] ==> faults == [] && ok != Some(false)
      ensures old(Quiet()) && old(s).lock == None ==> ok == Some(true) && Quiet() && Same(old(s))
    {
      hide Legal, After, Do, Inv, Enabled;
      var failed := Fails(me);
      if failed { return Some(false); }
      while s.lock.Some? && script != []
        invariant Valid() && old(trace) <= trace
        invariant me in s.writers && s.writers[me] == old(s.writers[me])
        invariant old(faults) == [] ==> faults == []
        invariant old(Quiet()) ==> Quiet() && s == old(s)
        decreases |script|
      {
        Interfere(me);
      }
      if s.lock.Some? { return None; }
      AcquireMoves(PlanOf(codec), s, me);
      Step(Acquire(me));
      ok := Some(true);
    }

    /** The file holds what it held in s0, and so does its backup. */
    ghost predicate Same(s0: State)
      reads this
    {
      SameFile(s0, s)
    }

    /** The same but for the backup. */
    ghost predicate Kept(s0: State)
      reads this
    {
      Shaped(s0) && Shaped(s) && Content(s) == Content(s0) && s.log == s0.log && s.versions == s0.versions
    }

    /** Remove the temp files that are there, as far as that works. */
    method SweepStaleTemps(me: Wid)
      requires Valid() && me in s.writers && s.writers[me].pc.Locked?
      modifies this
      ensures Valid() && old(trace) <= trace && me in s.writers
      ensures s.writers[me] == old(s.writers[me]).(pc := Reading, swept := s.writers[me].swept)
      ensures old(faults) == [] ==> faults == [] && s.writers[me].swept
      ensures old(Quiet()) ==> Quiet() && Same(old(s)) && s.writers[me].swept
    {
      hide Legal, After, Do, Inv, Enabled;
      Interfere(me);
      var entries, removed: set<Ino> := s.temps, {};
      while entries != {}
        invariant entries <= s.temps && removed <= s.temps
        invariant Valid() && old(trace) <= trace && me in s.writers && s.writers[me] == old(s.writers[me])
        invariant old(faults) == [] ==> faults == [] && removed + entries == s.temps
        invariant old(Quiet()) ==> Quiet() && s == old(s) && removed + entries == s.temps
      {
        var e :| e in entries;
        entries := entries - {e};
        var fault := NextFault();
        if fault.None? { removed := removed + {e}; }
      }
      SweepMoves(PlanOf(codec), s, me, removed);
      Step(Sweep(me, removed));
    }

    /** The bytes that a read begun at mark returns. */
    method Fetch(mark: nat) returns (seen: Bytes)
      requires Valid()
      modifies `torn
      ensures Valid() && (s.changes == mark ==> seen == Content(s))
    {
      hide Legal, After, Inv;
      seen := Content(s);
      if s.changes != mark && torn != [] { seen, torn := torn[0], torn[1..]; }
    }

    /** Open the users file for the first read. */
    method OpenFile(me: Wid) returns (mark: Option<nat>)
      requires Valid() && me in s.writers && s.writers[me].pc.Reading?
      modifies this
      ensures Valid() && old(trace) <= trace && me in s.writers
      ensures mark.None? ==> s.writers[me] == old(s.writers[me]).(pc := Leaving(IoError, None))
      ensures mark.Some? ==> s.writers[me] == old(s.writers[me]).(pc := Fetching(mark.value))
      ensures old(faults) == [] ==> faults == [] && mark.Some?
      ensures old(Quiet()) ==> Quiet() && Same(old(s)) && mark == Some(s.changes)
    {
      hide Legal, After, Do, Inv, Enabled;
      var failed := Fails(me);
      if failed { return None; }
      OpenMoves(PlanOf(codec), s, me);
      mark := Some(s.changes);
      Step(Open(me));
    }

    /** The first read of an attempt; the writer is then committed to what it makes of these bytes. */
    method ReadFile(me: Wid) returns (original: Option<Bytes>)
      requires Valid() && me in s.writers && s.writers[me].pc.Reading?
      modifies this
      ensures Valid() && old(trace) <= trace && me in s.writers
      ensures original.None? ==> s.writers[me] == old(s.writers[me]).(pc := Leaving(IoError, None))
      ensures original.Some? ==>
        s.writers[me] == old(s.writers[me]).(pc := Planned(codec, old(s.writers[me]).op, original.value))
      ensures old(faults) == [] ==> faults == [] && original.Some?
      ensures old(Quiet()) ==> Quiet() && Same(old(s)) && original == Some(Content(s))
    {
      hide Legal, After, Do, Inv, Enabled;
      var mark := OpenFile(me);
      if mark.None? { return None; }
      var failed := Fails(me);
      if failed { return None; }
      var seen := Fetch(mark.value);
      ReadMoves(codec, s, me, seen);
      Step(Read(me, seen));
      original := Some(seen);
    }

    /** Open the users file for the second read. */
    method OpenAgain(me: Wid, original: Bytes, out: Bytes) returns (mark: Option<nat>)
      requires Valid() && me in s.writers && s.writers[me].pc == Computed(original, out)
      modifies this
      ensures Valid() && old(trace) <= trace && me in s.writers
      ensures mark.None? ==> s.writers[me] == old(s.writers[me]).(pc := Leaving(IoError, None))
      ensures mark.Some? ==> s.writers[me] == old(s.writers[me]).(pc := Comparing(original, out, mark.value))
      ensures old(faults) == [] ==> faults == [] && mark.Some?
      ensures old(Quiet()) ==> Quiet() && Same(old(s)) && mark == Some(s.changes)
    {
      hide Legal, After, Do, Inv, Enabled;
      var failed := Fails(me);
      if failed { return None; }
      ReopenMoves(PlanOf(codec), s, me);
      mark := Some(s.changes);
      Step(Reopen(me));
    }

    /** The second read, compared with the first. */
    method Unchanged(me: Wid, original: Bytes, out: Bytes) returns (same: Option<bool>)
      requires Valid() && me in s.writers && s.writers[me].pc == Computed(original, out)
      modifies this
      ensures Valid() && old(trace) <= trace && me in s.writers
      ensures same.None? ==> s.writers[me] == old(s.writers[me]).(pc := Leaving(IoError, None))
      ensures same == Some(true) ==> s.writers[me] == old(s.writers[me]).(pc := Matched(original, out))
      ensures same == Some(false) ==> s.writers[me] == Retrying(old(s.writers[me]))
      ensures old(faults) == [] ==> faults == [] && same.Some?
      ensures old(Quiet()) && Content(old(s)) == original ==> Quiet() && Same(old(s)) && same == Some(true)
    {
      hide Legal, After, Do, Inv, Enabled;
      var mark := OpenAgain(me, original, out);
      if mark.None? { return None; }
      var failed := Fails(me);
      if failed { return None; }
      var seen := Fetch(mark.value);
      same := Some(seen == original);
      RecheckMoves(PlanOf(codec), s, me, seen);
      Step(Recheck(me, seen));
    }

    /** Write the backup, write the temp file, or sync it. */
    method Attempt(me: Wid, a: Action) returns (ok: bool)
      requires Valid() && me in s.writers && IsFileWrite(a) && a.w == me && Due(a, s.writers[me].pc)
      modifies this
      ensures Valid() && old(trace) <= trace && me in s.writers
      ensures s.writers[me]
        == old(s.writers[me]).(pc := if ok then WrittenPc(old(s.writers[me]).pc) else FailedPc(old(s.writers[me]).pc))
      ensures old(faults) == [] ==> faults == [] && ok
      ensures old(Quiet()) ==> Quiet() && ok && Kept(old(s)) && (a.Backup? || s.bak == old(s).bak)
    {
      hide Legal, After, Do, Inv, Enabled;
      var failed := Fails(me);
      if failed { return false; }
      DueIsEnabled(PlanOf(codec), s, a);
      WriteMoves(PlanOf(codec), s, a);
      WriteKeeps(PlanOf(codec), s, a);
      Step(a);
      ok := true;
    }

    /** os.CreateTemp: try names until one is free. */
    method MakeTemp(me: Wid, original: Bytes, out: Bytes) returns (tmp: Option<Ino>)
      requires Valid() && me in s.writers && s.writers[me].pc == BackedUp(original, out)
      modifies this
      ensures Valid() && old(trace) <= trace && me in s.writers
      ensures tmp.None? ==> s.writers[me] == old(s.writers[me]).(pc := Leaving(IoError, None))
      ensures tmp.Some? ==> s.writers[me] == old(s.writers[me]).(pc := Created(original, out, tmp.value))
      ensures old(faults) == [] ==> faults == [] && tmp.Some?
      ensures old(Quiet()) ==> Quiet() && tmp.Some? && Same(old(s))
    {
      hide Legal, After, Do, Inv, Enabled;
      var failed := Fails(me);
      if failed { return None; }
      var name: nat := 0;
      ghost var taken := s.files.Keys;
      while name in s.files
        invariant forall i :: i in s.files && name <= i ==> i in taken
        decreases |taken|
      {
        taken := taken - {name};
        name := name + 1;
      }
      CreateMoves(PlanOf(codec), s, me, name);
      Step(CreateTemp(me, name));
      tmp := Some(name);
    }

    /** Rename the temp file into place. */
    method RenameIntoPlace(me: Wid, original: Bytes, out: Bytes, tmp: Ino) returns (ok: bool)
      requires Valid() && me in s.writers && s.writers[me].pc == Synced(original, out, tmp)
      modifies this
      ensures Valid() && old(trace) <= trace && me in s.writers
      ensures ok ==>
        s.writers[me] == old(s.writers[me]).(pc := Renamed(original, out, tmp), replaced := s.writers[me].replaced)
      ensures !ok ==> s.writers[me] == old(s.writers[me]).(pc := Leaving(IoError, Some(tmp)))
      ensures old(faults) == [] ==> faults == [] && ok
      ensures old(Quiet()) ==> Quiet() && ok && Installed(old(s), out, old(s.writers[me]).op)
    {
      hide Legal, After, Do, Inv, Enabled;
      var failed := Fails(me);
      if failed { return false; }
      RenameMoves(PlanOf(codec), s, me);
      Step(Rename(me));
      ok := true;
    }

    /** The file has this new content, put there by one commit of op; the backup is as in s0. */
    ghost predicate Installed(s0: State, out: Bytes, op: Op)
      reads this
    {
      Shaped(s) && Content(s) == out && s.bak == s0.bak && s.log == s0.log + [PortalCommit(op)]
    }

    /** Sync the directory, for what it is worth. */
    method SyncDirectory(me: Wid, tmp: Ino)
      requires Valid() && me in s.writers && s.writers[me].pc.Renamed? && s.writers[me].pc.tmp == tmp
      modifies this
      ensures Valid() && old(trace) <= trace && me in s.writers
      ensures s.writers[me] == old(s.writers[me]).(pc := Leaving(Success, Some(tmp)))
      ensures old(faults) == [] ==> faults == []
      ensures old(Quiet()) ==> Quiet() && Same(old(s)) && s.durable == |s.versions| - 1
    {
      hide Legal, After, Do, Inv, Enabled;
      Interfere(me);
      var fault := NextFault();
      SyncDirMoves(PlanOf(codec), s, me, fault.None?);
      Step(SyncDir(me, fault.None?));
    }

    /** The deferred os.Remove. */
    method Discard(me: Wid, result: Result, tmp: Ino)
      requires Valid() && me in s.writers && s.writers[me].pc == Leaving(result, Some(tmp))
      modifies this
      ensures Valid() && old(trace) <= trace && me in s.writers
      ensures s.writers[me] == old(s.writers[me]).(pc := Leaving(result, None), swept := s.writers[me].swept)
      ensures old(faults) == [] ==> faults == [] && s.writers[me].swept == old(s.writers[me]).swept
      ensures old(Quiet()) ==> Quiet() && Same(old(s)) && s.durable == old(s).durable
    {
      hide Legal, After, Do, Inv, Enabled;
      Interfere(me);
      var fault := NextFault();
      RemoveMoves(PlanOf(codec), s, me, fault.None?);
      Step(RemoveTemp(me, fault.None?));
    }

    /** The deferred unlock. */
    method Unlock(me: Wid, result: Result)
      requires Valid() && me in s.writers && s.writers[me].pc == Leaving(result, None)
      modifies this
      ensures Valid() && old(trace) <= trace && me in s.writers
      ensures s.writers[me] == old(s.writers[me]).(pc := Done(result))
      ensures old(faults) == [] ==> faults == []
      ensures old(Quiet()) ==> Quiet() && Same(old(s)) && s.durable == old(s).durable
      ensures old(s.writers[me]).swept ==> s.temps == {}
    {
      hide Legal, After, Do, Inv, Enabled;
      Interfere(me);
      ReleaseMoves(PlanOf(codec), s, me);
      Step(Release(me));
    }

    // ----- one attempt, and the retry loop -----

    /** Write, sync and close the temp file. */
    method FillTemp(me: Wid, original: Bytes, out: Bytes, tmp: Ino) returns (ok: bool)
      requires Valid() && me in s.writers && s.writers[me].pc == Created(original, out, tmp)
      modifies this
      ensures Valid() && old(trace) <= trace && me in s.writers
      ensures s.writers[me]
        == old(s.writers[me]).(pc := if ok then Synced(original, out, tmp) else Leaving(IoError, Some(tmp)))
      ensures old(faults) == [] ==> faults == [] && ok
      ensures old(Quiet()) ==> Quiet() && ok && Same(old(s))
    {
      hide Legal, After, Do, Inv, Enabled;
      ok := Attempt(me, WriteTemp(me));
      if !ok { return; }
      ok := Attempt(me, SyncTemp(me));
      if !ok { return; }
      var failed := Fails(me);
      ok := !failed;
    }

    /** Fill the temp file and rename it, up to the directory sync. */
    method FillAndRename(me: Wid, original: Bytes, out: Bytes, tmp: Ino) returns (result: Result)
      requires Valid() && me in s.writers && s.writers[me].pc == Created(original, out, tmp)
      modifies this
      ensures Valid() && old(trace) <= trace && me in s.writers
      ensures s.writers[me].op == old(s.writers[me]).op && s.writers[me].swept == old(s.writers[me]).swept
      ensures s.writers[me].pc == Leaving(result, Some(tmp))
      ensures old(faults) == [] ==> faults == [] && result == Success
      ensures old(Quiet()) ==>
        Quiet() && result == Success && Installed(old(s), out, s.writers[me].op) && s.durable == |s.versions| - 1
    {
      hide Legal, After, Do, Inv, Enabled;
      var ok := FillTemp(me, original, out, tmp);
      if !ok { return IoError; }
      ok := RenameIntoPlace(me, original, out, tmp);
      if !ok { return IoError; }
      SyncDirectory(me, tmp);
      result := Success;
    }

    /** From the temp file on; it is removed again whatever happens. */
    method WriteAndRename(me: Wid, original: Bytes, out: Bytes, tmp: Ino) returns (result: Result)
      requires Valid() && me in s.writers && s.writers[me].pc == Created(original, out, tmp)
      modifies this
      ensures Valid() && old(trace) <= trace && me in s.writers
      ensures s.writers[me].op == old(s.writers[me]).op && s.writers[me].pc == Leaving(result, None)
      ensures old(faults) == [] ==>
        faults == [] && result == Success && s.writers[me].swept == old(s.writers[me]).swept
      ensures old(Quiet()) ==>
        Quiet() && result == Success && Installed(old(s), out, s.writers[me].op) && s.durable == |s.versions| - 1
    {
      hide Legal, After, Do, Inv, Enabled;
      result := FillAndRename(me, original, out, tmp);
      Discard(me, result, tmp);
    }

    /** From the matching second read on. */
    method Install(me: Wid, original: Bytes, out: Bytes) returns (result: Result)
      requires Valid() && me in s.writers && s.writers[me].pc == Matched(original, out)
      modifies this
      ensures Valid() && old(trace) <= trace && me in s.writers
      ensures s.writers[me].op == old(s.writers[me]).op && s.writers[me].pc == Leaving(result, None)
      ensures old(faults) == [] ==>
        faults == [] && result == Success && s.writers[me].swept == old(s.writers[me]).swept
      ensures old(Quiet()) ==> Quiet() && result == Success && Replaced(old(s), s, original, out, s.writers[me].op)
    {
      hide Legal, After, Do, Inv, Enabled;
      var ok := Attempt(me, Backup(me));
      if !ok { return IoError; }
      var tmp := MakeTemp(me, original, out);
      if tmp.None? { return IoError; }
      BackupInPlace(PlanOf(codec), s, me);
      result := WriteAndRename(me, original, out, tmp.value);
    }

    /** Compare, and go on only if nothing has changed. */
    method CompareAndInstall(me: Wid, original: Bytes, out: Bytes) returns (retry: bool, result: Result)
      requires Valid() && me in s.writers && s.writers[me].pc == Computed(original, out)
      modifies this
      ensures Valid() && old(trace) <= trace && me in s.writers && s.writers[me].op == old(s.writers[me]).op
      ensures retry ==> s.writers[me] == Retrying(old(s.writers[me]))
      ensures !retry ==> s.writers[me].pc == Leaving(result, None)
      ensures old(Quiet()) && Content(old(s)) == original ==>
        Quiet() && !retry && result == Success && Replaced(old(s), s, original, out, s.writers[me].op)
      ensures old(faults) == [] ==>
        faults == [] && s.writers[me].swept == old(s.writers[me]).swept && (!retry ==> result == Success)
    {
      hide Legal, After, Do, Inv, Enabled;
      var same := Unchanged(me, original, out);
      if same.None? { return false, IoError; }
      if !same.value { return true, Exhausted; }
      retry := false;
      result := Install(me, original, out);
    }

    method MutateOnce(me: Wid, op: Op) returns (retry: bool, result: Result)
      requires Valid() && me in s.writers && s.writers[me].pc.Reading? && s.writers[me].op == op
      modifies this
      ensures Valid() && old(trace) <= trace && me in s.writers && s.writers[me].op == op
      ensures retry ==> s.writers[me] == Retrying(old(s.writers[me]))
      ensures !retry ==> s.writers[me].pc == Leaving(result, None)
      ensures old(faults) == [] ==>
        faults == [] && s.writers[me].swept == old(s.writers[me]).swept && (!retry ==> result != IoError)
      ensures old(Quiet()) ==> Quiet() && !retry && DoneTo(codec, old(s), s, op, result)
    {
      hide Legal, After, Do, Inv, Enabled, Apply;
      var original := ReadFile(me);
      if original.None? { return false, IoError; }
      var plan := EditFile.Plan(codec, op, original.value);
      if plan.Reject? { return false, Declined(plan.error); }
      retry, result := CompareAndInstall(me, original.value, plan.out);
    }

    /** The writer is where the retry loop has it after this many attempts. */
    ghost predicate Tried(me: Wid, op: Op, attempts: nat, retry: bool, result: Result)
      reads this
    {
      && me in s.writers && s.writers[me].op == op
      && if retry then s.writers[me].failed == attempts
                       && s.writers[me].pc == (if attempts >= ATTEMPTS then Leaving(Exhausted, None) else Reading)
         else s.writers[me].pc == Leaving(result, None)
    }

    /** The attempts: at most four. */
    method Retry(me: Wid, op: Op) returns (result: Result)
      requires Valid() && me in s.writers && s.writers[me].pc.Reading? && s.writers[me].op == op
        && s.writers[me].failed == 0
      modifies this
      ensures Valid() && old(trace) <= trace && me in s.writers && s.writers[me].op == op
      ensures s.writers[me].pc == Leaving(result, None)
      ensures old(faults) == [] ==>
        faults == [] && s.writers[me].swept == old(s.writers[me]).swept && result != IoError
      ensures old(Quiet()) ==> Quiet() && DoneTo(codec, old(s), s, op, result)
    {
      hide Legal, After, Do, Inv, Enabled;
      var attempt, retry := 0, true;
      result := Exhausted;
      while retry && attempt < ATTEMPTS
        invariant Valid() && old(trace) <= trace && attempt <= ATTEMPTS
        invariant Tried(me, op, attempt, retry, result)
        invariant retry && attempt == 0 ==> s == old(s) && script == old(script) && faults == old(faults)
        invariant retry && attempt > 0 ==> !old(Quiet())
        invariant old(faults) == [] ==>
          faults == [] && s.writers[me].swept == old(s.writers[me]).swept && (!retry ==> result != IoError)
        invariant !retry && old(Quiet()) ==> Quiet() && DoneTo(codec, old(s), s, op, result)
        decreases ATTEMPTS - attempt
      {
        retry, result := MutateOnce(me, op);
        attempt := attempt + 1;
      }
      if retry { result := Exhausted; }
    }

    /** Take the lock and sweep: Some(true) if the attempts can begin. */
    method Prepare(me: Wid, op: Op) returns (ok: Option<bool>)
      requires Valid() && me !in s.writers
      modifies this
      ensures Valid() && old(trace) <= trace && me in s.writers && s.writers[me].op == op
      ensures ok.None? ==> s.writers[me].pc.Start? && script == [] && s.lock.Some?
      ensures ok == Some(false) ==> s.writers[me].pc == Done(IoError)
      ensures ok == Some(true) ==> s.writers[me].pc.Reading? && s.writers[me].failed == 0
      ensures old(faults) == [] ==> faults == [] && ok != Some(false) && (ok == Some(true) ==> s.writers[me].swept)
      ensures old(Quiet()) && old(s).lock == None ==> ok == Some(true) && Quiet() && Same(old(s))
    {
      hide Legal, After, Do, Inv, Enabled;
      Enter(me, op);
      ok := Lock(me);
      if ok == Some(true) { SweepStaleTemps(me); }
    }

    /**
     One whole call. It waits for the lock, and returns nothing only if the others are done and the lock
     was never given back. Whatever interferes, what happened is a run of the protocol at the end of
     which this call is done with that result, having tried at most four times and renamed once if it
     reports success and otherwise never. It fails only if a system call of its own does, declines only
     what an edit of bytes it read is refused for, and gives up only after four changes by Authelia. If
     nothing interferes, the file is replaced by the edit of its content or left alone.
     */
    method Mutate(me: Wid, op: Op) returns (r: Option<Result>)
      requires Valid() && me !in s.writers
      modifies this
      ensures Valid() && old(trace) <= trace && me in s.writers && s.writers[me].op == op
      ensures r.None? ==> s.writers[me].pc.Start? && script == [] && s.lock.Some?
      ensures r.Some? ==> s.writers[me].pc == Done(r.value)
      ensures r.Some? ==>
        CountReads(trace, me) <= 4 && CountRenames(trace, me) == if r.value.Success? then 1 else 0
      ensures old(faults) == [] ==> r != Some(IoError) && (r.Some? ==> s.temps == {})
      ensures r.Some? && r.value.Declined? ==>
        exists seen :: Read(me, seen) in trace && Apply(codec, op, seen) == Reject(r.value.error)
      ensures r == Some(Exhausted) ==> s.changes >= s.writers[me].since + 4
      ensures old(Quiet()) && old(s).lock == None ==> r.Some? && DoneTo(codec, old(s), s, op, r.value)
    {
      hide Legal, After, Do, Inv, Enabled;
      var locked := Prepare(me, op);
      if locked.None? { return None; }
      if locked.value {
        ghost var prepared := s;
        var result := Retry(me, op);
        ghost var tried := s;
        Unlock(me, result);
        if old(Quiet()) && old(s).lock == None { DoneToBetween(codec, old(s), prepared, tried, s, op, result); }
        r := Some(result);
      } else {
        r := Some(IoError);
      }
      AllOrNothing(PlanOf(codec), start, trace, me);
      OutcomeHasItsCause(PlanOf(codec), start, trace, me);
    }

    // ----- the store's operations -----

    /** Add refuses a malformed username before it looks at the file. */
    method Add(me: Wid, u: User, hash: string) returns (valid: bool, r: Option<Result>)
      requires Valid() && me !in s.writers
      modifies this
      ensures Valid() && old(trace) <= trace
      ensures valid <==> ValidUsername(u.username)
      ensures !valid ==> s == old(s) && trace == old(trace)
      ensures valid && r.Some? ==>
        me in s.writers && s.writers[me].op == UserFile.Add(u, hash) && s.writers[me].pc == Done(r.value)
      ensures valid && r.None? ==> script == [] && s.lock.Some?
      ensures old(faults) == [] ==> r != Some(IoError)
      ensures valid && old(Quiet()) && old(s).lock == None ==>
        r.Some? && DoneTo(codec, old(s), s, UserFile.Add(u, hash), r.value)
    {
      valid, r := ValidUsername(u.username), None;
      if valid { r := Mutate(me, UserFile.Add(u, hash)); }
    }

    /** All accounts in file order, read without the lock; None if the file cannot be read as a users file. */
    method List() returns (r: Option<seq<User>>)
      requires Valid()
      modifies `faults
      ensures r.Some? ==> r == EditFile.ListedIn(codec, Content(s))
      ensures old(faults) == [] ==> r == EditFile.ListedIn(codec, Content(s))
    {
      var fault := NextFault();
      if fault.Some? { return None; }
      r := EditFile.ListUsers(codec, Content(s));
    }

    /** The first account with this username. */
    method Get(username: string) returns (r: Option<User>)
      requires Valid()
      modifies `faults
      ensures r.Some? ==>
        exists us, i :: EditFile.ListedIn(codec, Content(s)) == Some(us) && 0 <= i < |us| && us[i] == r.value
          && FirstNamed(us, username, i)
      ensures old(faults) == [] && r.None? && EditFile.ListedIn(codec, Content(s)).Some? ==>
        forall u :: u in EditFile.ListedIn(codec, Content(s)).value ==> u.username != username
    {
      hide Legal, After, Do, Inv;
      var us := List();
      if us.None? { return None; }
      for i := 0 to |us.value|
        invariant forall j :: 0 <= j < i ==> us.value[j].username != username
      {
        if us.value[i].username == username {
          assert FirstNamed(us.value, username, i);
          return Some(us.value[i]);
        }
      }
      r := None;
    }
  }

  predicate FirstNamed(us: seq<User>, username: string, i: nat)
    requires i < |us|
  {
    us[i].username == username && forall j :: 0 <= j < i ==> us[j].username != username
  }
}
