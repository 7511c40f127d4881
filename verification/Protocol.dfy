/**
 The users-file protocol as a state machine. Any number of portal writers, each one system call
 at a time, share a directory with a foreign writer (Authelia) that rewrites the file in place
 without taking the lock. Processes may die and the power may fail between any two steps.
 */
module Protocol {
  import opened YamlTree
  import opened UserFile

  type Ino = nat
  type Wid = nat

  /** What an attempt makes of the bytes it read. */
  type Plan = (Op, Bytes) -> Outcome

  const ATTEMPTS: nat := 4

  /** The attempt as the portal computes it. */
  function PlanOf(c: Codec): Plan {
    (op: Op, b: Bytes) => Apply(c, op, b)
  }

  /** Whether the data are on disk: Unsynced data were written by the portal, Dirty data in place by Authelia. */
  datatype Status = Stable | Unsynced | Dirty

  datatype File = File(data: Bytes, status: Status)

  datatype Result = Success | Declined(error: Error) | IoError | Exhausted

  /** Where a call of mutate is; the next system call is the one named in the comment. */
  datatype Pc =
    | Start                                              // open the lock file and flock
    | Locked                                             // sweepStaleTemps
    | Reading                                            // ReadFile, which opens the file
    | Fetching(mark: nat)                                // and returns bytes; mark is changes at the opening
    | Computed(original: Bytes, out: Bytes)              // ReadFile again: open,
    | Comparing(original: Bytes, out: Bytes, mark: nat)  // return bytes, and compare
    | Matched(original: Bytes, out: Bytes)               // WriteFile .bak
    | BackedUp(original: Bytes, out: Bytes)              // CreateTemp
    | Created(original: Bytes, out: Bytes, tmp: Ino)     // Write
    | Written(original: Bytes, out: Bytes, tmp: Ino)     // Sync
    | Synced(original: Bytes, out: Bytes, tmp: Ino)      // Close, Rename
    | Renamed(original: Bytes, out: Bytes, tmp: Ino)     // sync the directory
    | Leaving(result: Result, left: Option<Ino>)         // deferred Remove, then unlock
    | Done(result: Result)
    | Dead

  /** failed counts the attempts given up; replaced is what the file held just before our rename. */
  datatype Writer = Writer(op: Op, pc: Pc, failed: nat, since: nat, replaced: Option<Bytes>, swept: bool)

  datatype Foreign = Idle | Writing(ino: Ino, target: Bytes)

  datatype Commit = PortalCommit(op: Op) | ForeignCommit(content: Bytes)

  /**
   versions lists the inodes that the users file has been, the last one being the current directory
   entry; versions[durable] is the entry on disk. log and changes record what has happened.
   */
  datatype State = State(
    files: map<Ino, File>,
    versions: seq<Ino>,
    durable: nat,
    bak: Option<Bytes>,
    temps: set<Ino>,
    lock: Option<Wid>,
    writers: map<Wid, Writer>,
    foreign: Foreign,
    changes: nat,
    log: seq<Commit>)

  datatype Action =
    | Begin(w: Wid, op: Op)
    | Acquire(w: Wid)
    | Sweep(w: Wid, removed: set<Ino>)
    | Open(w: Wid)
    | Read(w: Wid, seen: Bytes)
    | Reopen(w: Wid)
    | Recheck(w: Wid, seen: Bytes)
    | Backup(w: Wid)
    | CreateTemp(w: Wid, ino: Ino)
    | WriteTemp(w: Wid)
    | SyncTemp(w: Wid)
    | Rename(w: Wid)
    | SyncDir(w: Wid, ok: bool)
    | RemoveTemp(w: Wid, ok: bool)
    | Release(w: Wid)
    | Fail(w: Wid, junk: Bytes)
    | Die(w: Wid)
    | ForeignOpen(target: Bytes, torn: Bytes)
    | ForeignTear(torn: Bytes)
    | ForeignClose
    | Flush(ino: Ino)
    | FlushDir(to: nat)
    | PowerLoss(kept: set<Ino>, garbage: map<Ino, Bytes>, lostBak: Option<Bytes>)

  // ----- states -----

  /** The structure that every step relies on. */
  predicate Shaped(s: State) {
    && |s.versions| > 0 && s.durable < |s.versions|
    && (forall v :: v in s.versions ==> v in s.files)
    && (forall t :: t in s.temps ==> t in s.files && t !in s.versions)
    && (s.foreign.Writing? ==> s.foreign.ino in s.versions)
  }

  function Main(s: State): Ino
    requires Shaped(s)
  {
    s.versions[|s.versions| - 1]
  }

  function Content(s: State): Bytes
    requires Shaped(s)
  {
    s.files[Main(s)].data
  }

  predicate Critical(pc: Pc) {
    !pc.Start? && !pc.Done? && !pc.Dead?
  }

  /** Between the matching second read and the rename. */
  predicate InWindow(pc: Pc) {
    pc.Matched? || pc.BackedUp? || pc.Created? || pc.Written? || pc.Synced?
  }

  /** The temp file a running writer has open. */
  predicate OwnsTemp(pc: Pc, t: Ino) {
    (pc.Created? || pc.Written? || pc.Synced?) && pc.tmp == t
  }

  function Move(s: State, w: Wid, pc: Pc): State
    requires w in s.writers
  {
    s.(writers := s.writers[w := s.writers[w].(pc := pc)])
  }

  predicate CanFail(pc: Pc) {
    pc.Start? || pc.Reading? || pc.Fetching? || pc.Computed? || pc.Comparing? || InWindow(pc)
  }

  /** A read takes time: if the file changed since it was opened, it returns anything. */
  predicate Enabled(s: State, a: Action) {
    Shaped(s) &&
    match a
    case Begin(w, op) => w !in s.writers
    case Acquire(w) => w in s.writers && s.writers[w].pc.Start? && s.lock == None
    case Sweep(w, removed) => w in s.writers && s.writers[w].pc.Locked? && removed <= s.temps
    case Open(w) => w in s.writers && s.writers[w].pc.Reading?
    case Read(w, seen) =>
      w in s.writers && s.writers[w].pc.Fetching? && (s.changes == s.writers[w].pc.mark ==> seen == Content(s))
    case Reopen(w) => w in s.writers && s.writers[w].pc.Computed?
    case Recheck(w, seen) =>
      w in s.writers && s.writers[w].pc.Comparing? && (s.changes == s.writers[w].pc.mark ==> seen == Content(s))
    case Backup(w) => w in s.writers && s.writers[w].pc.Matched?
    case CreateTemp(w, ino) => w in s.writers && s.writers[w].pc.BackedUp? && ino !in s.files
    case WriteTemp(w) => w in s.writers && s.writers[w].pc.Created? && s.writers[w].pc.tmp in s.files
    case SyncTemp(w) => w in s.writers && s.writers[w].pc.Written? && s.writers[w].pc.tmp in s.files
    case Rename(w) => w in s.writers && s.writers[w].pc.Synced? && s.writers[w].pc.tmp in s.temps
    case SyncDir(w, ok) => w in s.writers && s.writers[w].pc.Renamed?
    case RemoveTemp(w, ok) => w in s.writers && s.writers[w].pc.Leaving? && s.writers[w].pc.left.Some?
    case Release(w) => w in s.writers && s.writers[w].pc.Leaving? && s.writers[w].pc.left.None?
    case Fail(w, junk) =>
      w in s.writers && CanFail(s.writers[w].pc) && (s.writers[w].pc.Created? ==> s.writers[w].pc.tmp in s.files)
    case Die(w) => w in s.writers && !s.writers[w].pc.Done? && !s.writers[w].pc.Dead?
    case ForeignOpen(target, torn) => s.foreign.Idle?
    case ForeignTear(torn) => s.foreign.Writing?
    case ForeignClose => s.foreign.Writing?
    case Flush(ino) => ino in s.files
    case FlushDir(to) => s.durable <= to < |s.versions|
    case PowerLoss(kept, garbage, lostBak) => forall t :: t in kept ==>
      t in s.files && t !in s.versions[..s.durable + 1]
  }

  /** Authelia's bytes land in the inode it has open, whatever the directory says by then. */
  function Scribble(s: State, ino: Ino, data: Bytes): State
    requires Shaped(s) && ino in s.files
  {
    s.(files := s.files[ino := File(data, Dirty)],
       changes := if ino == Main(s) && data != s.files[ino].data then s.changes + 1 else s.changes)
  }

  function DoFail(s: State, w: Wid, junk: Bytes): State
    requires Enabled(s, Fail(w, junk))
  {
    var pc := s.writers[w].pc;
    if pc.Start? then Move(s, w, Done(IoError))
    else if pc.Matched? then Move(s, w, Leaving(IoError, None)).(bak := Some(junk))
    else if pc.Created?
      then Move(s, w, Leaving(IoError, Some(pc.tmp))).(files := s.files[pc.tmp := File(junk, Unsynced)])
    else if pc.Written? || pc.Synced? then Move(s, w, Leaving(IoError, Some(pc.tmp)))
    else Move(s, w, Leaving(IoError, None))
  }

  function DoRecheck(s: State, w: Wid, seen: Bytes): State
    requires Enabled(s, Recheck(w, seen))
  {
    var wr := s.writers[w];
    if seen == wr.pc.original then Move(s, w, Matched(wr.pc.original, wr.pc.out))
    else
      var pc := if wr.failed + 1 >= ATTEMPTS then Leaving(Exhausted, None) else Reading;
      s.(writers := s.writers[w := wr.(pc := pc, failed := wr.failed + 1)])
  }

  function DoRename(s: State, w: Wid): State
    requires Enabled(s, Rename(w))
  {
    var wr := s.writers[w];
    s.(versions := s.versions + [wr.pc.tmp],
       temps := s.temps - {wr.pc.tmp},
       log := s.log + [PortalCommit(wr.op)],
       writers := s.writers[w :=
         wr.(pc := Renamed(wr.pc.original, wr.pc.out, wr.pc.tmp), replaced := Some(Content(s)))])
  }

  function DoRemove(s: State, w: Wid, ok: bool): State
    requires Enabled(s, RemoveTemp(w, ok))
  {
    var wr := s.writers[w];
    var t := wr.pc.left.value;
    var gone := ok || t !in s.temps;
    s.(temps := if ok then s.temps - {t} else s.temps,
       writers := s.writers[w := wr.(pc := Leaving(wr.pc.result, None), swept := wr.swept && gone)])
  }

  /** After a power loss, data that were on disk are intact, and other data are anything. */
  function Recovered(f: File, junk: Bytes): File {
    if f.status.Stable? then f else File(junk, Stable)
  }

  function DoPowerLoss(s: State, kept: set<Ino>, garbage: map<Ino, Bytes>, lostBak: Option<Bytes>): State
    requires Shaped(s)
  {
    s.(files := map i | i in s.files :: Recovered(s.files[i], if i in garbage then garbage[i] else []),
       versions := s.versions[..s.durable + 1],
       bak := lostBak,
       temps := kept,
       lock := None,
       writers := map w | w in s.writers :: if s.writers[w].pc.Done? then s.writers[w] else s.writers[w].(pc := Dead),
       foreign := Idle)
  }

  function Do(plan: Plan, s: State, a: Action): State
    requires Enabled(s, a)
  {
    match a
    case Begin(w, op) => s.(writers := s.writers[w := Writer(op, Start, 0, 0, None, false)])
    case Acquire(w) => s.(lock := Some(w), writers := s.writers[w := s.writers[w].(pc := Locked, since := s.changes)])
    case Sweep(w, removed) =>
      s.(temps := s.temps - removed, writers :=
        s.writers[w := s.writers[w].(pc := Reading, swept := removed == s.temps)])
    case Open(w) => Move(s, w, Fetching(s.changes))
    case Read(w, seen) =>
      (match plan(s.writers[w].op, seen)
       case Reject(error) => Move(s, w, Leaving(Declined(error), None))
       case Replace(out) => Move(s, w, Computed(seen, out)))
    case Reopen(w) => Move(s, w, Comparing(s.writers[w].pc.original, s.writers[w].pc.out, s.changes))
    case Recheck(w, seen) => DoRecheck(s, w, seen)
    case Backup(w) =>
      Move(s, w, BackedUp(s.writers[w].pc.original, s.writers[w].pc.out)).(bak := Some(s.writers[w].pc.original))
    case CreateTemp(w, ino) =>
      Move(s, w, Created(s.writers[w].pc.original, s.writers[w].pc.out, ino))
        .(files := s.files[ino := File([], Unsynced)], temps := s.temps + {ino})
    case WriteTemp(w) =>
      var pc := s.writers[w].pc;
      Move(s, w, Written(pc.original, pc.out, pc.tmp)).(files := s.files[pc.tmp := File(pc.out, Unsynced)])
    case SyncTemp(w) =>
      var pc := s.writers[w].pc;
      Move(s, w, Synced(pc.original, pc.out, pc.tmp)).(files := s.files[pc.tmp := s.files[pc.tmp].(status := Stable)])
    case Rename(w) => DoRename(s, w)
    case SyncDir(w, ok) =>
      Move(s, w, Leaving(Success, Some(s.writers[w].pc.tmp))).(durable := if ok then |s.versions| - 1 else s.durable)
    case RemoveTemp(w, ok) => DoRemove(s, w, ok)
    case Release(w) => Move(s, w, Done(s.writers[w].pc.result)).(lock := None)
    case Fail(w, junk) => DoFail(s, w, junk)
    case Die(w) => Move(s, w, Dead).(lock := if s.lock == Some(w) then None else s.lock)
    case ForeignOpen(target, torn) => Scribble(s, Main(s), torn).(foreign := Writing(Main(s), target))
    case ForeignTear(torn) => Scribble(s, s.foreign.ino, torn)
    case ForeignClose =>
      Scribble(s, s.foreign.ino, s.foreign.target).(foreign := Idle, log := s.log + [ForeignCommit(s.foreign.target)])
    case Flush(ino) => s.(files := s.files[ino := s.files[ino].(status := Stable)])
    case FlushDir(to) => s.(durable := to)
    case PowerLoss(kept, garbage, lostBak) => DoPowerLoss(s, kept, garbage, lostBak)
  }

  // ----- runs -----

  predicate Legal(plan: Plan, s: State, acts: seq<Action>)
    decreases acts, 0
  {
    acts == [] ||
    var n := |acts| - 1;
    Legal(plan, s, acts[..n]) && Enabled(After(plan, s, acts[..n]), acts[n])
  }

  /** The state that a run leads to. */
  function After(plan: Plan, s: State, acts: seq<Action>): State
    requires Legal(plan, s, acts)
    decreases acts, 1
  {
    if acts == [] then s
    else
      var n := |acts| - 1;
      Do(plan, After(plan, s, acts[..n]), acts[n])
  }

  /** A directory at rest: one users file on disk, perhaps leftover temp files, nobody at work. */
  predicate Initial(s: State) {
    && Shaped(s)
    && |s.versions| == 1
    && s.files[s.versions[0]].status.Stable?
    && s.lock == None && s.writers == map[] && s.foreign.Idle? && s.changes == 0 && s.log == []
  }
}
