/**
 The accounts over runs of every kind: with resets inside the window, torn reads and writes, deaths
 and power losses. Updates may then be lost, but no two accounts are ever made to collide.
 */
module AnyRun {
  import opened YamlTree
  import opened UserFile
  import opened Exactness
  import opened Accounts
  import opened Protocol
  import opened ProtocolInv
  import opened Updates
  import opened Guarantees
  import opened WholeRun

  ghost predicate Descendants(us: seq<User>, vs: seq<User>) {
    exists origin :: Descends(us, vs, origin)
  }

  /** If these bytes list accounts at all, then descendants of us. */
  ghost predicate Inherits(c: Codec, us: seq<User>, b: Bytes) {
    forall vs :: HasAccounts(c, b, vs) ==> Descendants(us, vs)
  }

  /** What one may turn into the other by changing passwords, or by stopping halfway. */
  ghost predicate KeepsAccounts(c: Codec, from: Bytes, to: Bytes) {
    forall ws :: HasAccounts(c, to, ws) ==> exists vs :: HasAccounts(c, from, vs) && Descendants(vs, ws)
  }

  /** Made by changing passwords in some version of the file. */
  ghost predicate FromAVersion(c: Codec, s: State, b: Bytes)
    requires Shaped(s)
  {
    exists v :: v in s.versions && KeepsAccounts(c, s.files[v].data, b)
  }

  /**
   Foreign writes change passwords only: what Authelia means to write comes from a version of the file,
   not necessarily the current one, and what it has written so far comes from that or from a version.
   What a power loss leaves of a version that was not on disk does so too, and what two torn reads
   agree on.
   */
  ghost predicate Gentle(c: Codec, s: State, a: Action)
    requires Enabled(s, a)
  {
    match a
    case ForeignOpen(target, torn) =>
      FromAVersion(c, s, target) && (FromAVersion(c, s, torn) || KeepsAccounts(c, target, torn))
    case ForeignTear(torn) => FromAVersion(c, s, torn) || KeepsAccounts(c, s.foreign.target, torn)
    case Recheck(w, seen) => Untorn(s, a) || FromAVersion(c, s, seen)
    case PowerLoss(kept, garbage, lostBak) =>
      forall v :: v in s.versions[..s.durable + 1] && !s.files[v].status.Stable? ==>
        FromAVersion(c, s, if v in garbage then garbage[v] else [])
    case _ => true
  }

  ghost predicate GentleRun(c: Codec, s: State, acts: seq<Action>)
    requires Legal(PlanOf(c), s, acts)
  {
    acts == [] ||
    var n := |acts| - 1;
    GentleRun(c, s, acts[..n]) && Gentle(c, After(PlanOf(c), s, acts[..n]), acts[n])
  }

  // ----- accounts of bytes -----

  lemma AccountsUnique(c: Codec, b: Bytes, us: seq<User>, vs: seq<User>)
    requires HasAccounts(c, b, us) && HasAccounts(c, b, vs)
    ensures us == vs
  {
    AccountsAreListed(c, b, us);
    AccountsAreListed(c, b, vs);
  }

  lemma DescendantsCompose(us: seq<User>, vs: seq<User>, ws: seq<User>)
    requires Descendants(us, vs) && Descendants(vs, ws)
    ensures Descendants(us, ws)
  {
    var a :| Descends(us, vs, a);
    var b :| Descends(vs, ws, b);
    var r := DescendsComposes(us, vs, ws, a, b);
  }

  lemma InheritsThrough(c: Codec, us: seq<User>, from: Bytes, to: Bytes)
    requires Inherits(c, us, from) && KeepsAccounts(c, from, to)
    ensures Inherits(c, us, to)
  {
    hide HasAccounts, Descendants;
    forall ws | HasAccounts(c, to, ws)
      ensures Descendants(us, ws)
    {
      var vs :| HasAccounts(c, from, vs) && Descendants(vs, ws);
      DescendantsCompose(us, vs, ws);
    }
  }

  /** What can be edited lists accounts. */
  lemma EditableHasAccounts(c: Codec, op: Op, b: Bytes) returns (us: seq<User>)
    requires Closed(c) && Apply(c, op, b).Replace?
    ensures HasAccounts(c, b, us)
  {
    var root := ParseBytes(c, b).value;
    assert c.scan(b).0 == [root] && root in c.scan(b).0;
    ParsedIsKnown(c, b, root);
    us := ListOf(Users(root));
    hide Closed, ListOf;
    assert Lists(c, b, root, us);
  }

  lemma CommitInherits(c: Codec, us: seq<User>, op: Op, b: Bytes)
    requires Faithful(c) && Inherits(c, us, b) && Apply(c, op, b).Replace?
    ensures Inherits(c, us, Apply(c, op, b).out)
  {
    var vs := EditableHasAccounts(c, op, b);
    var ws, step := CommitLists(c, op, b, vs);
    hide Apply, HasAccounts;
    var out := Apply(c, op, b).out;
    assert Descendants(vs, ws);
    DescendantsCompose(us, vs, ws);
    forall xs | HasAccounts(c, out, xs)
      ensures Descendants(us, xs)
    {
      AccountsUnique(c, out, ws, xs);
    }
  }

  // ----- accounts of states -----

  ghost predicate VersionsInherit(c: Codec, us: seq<User>, s: State)
    requires Shaped(s)
  {
    forall v :: v in s.versions ==> Inherits(c, us, s.files[v].data)
  }

  ghost predicate WindowsInherit(c: Codec, us: seq<User>, writers: map<Wid, Writer>) {
    forall w :: w in writers && InWindow(writers[w].pc) ==> Inherits(c, us, writers[w].pc.out)
  }

  /** Every version, what a writer is about to install, and what Authelia is writing descend from us. */
  ghost predicate AllInherit(c: Codec, us: seq<User>, s: State) {
    && Shaped(s) && VersionsInherit(c, us, s) && WindowsInherit(c, us, s.writers)
    && (s.foreign.Writing? ==> Inherits(c, us, s.foreign.target))
  }

  lemma FromAVersionInherits(c: Codec, us: seq<User>, s: State, b: Bytes)
    requires Shaped(s) && VersionsInherit(c, us, s) && FromAVersion(c, s, b)
    ensures Inherits(c, us, b)
  {
    var v :| v in s.versions && KeepsAccounts(c, s.files[v].data, b);
    InheritsThrough(c, us, s.files[v].data, b);
  }

  /** A matching second read brings the file's own descent into the window. */
  lemma QuietWindows(c: Codec, us: seq<User>, s: State, a: Action)
    requires Faithful(c)
    requires Inv(PlanOf(c), s) && AllInherit(c, us, s) && Enabled(s, a) && Gentle(c, s, a) && !Touches(a)
    ensures WindowsInherit(c, us, Do(PlanOf(c), s, a).writers)
  {
    var t := Do(PlanOf(c), s, a);
    forall w | w in t.writers && InWindow(t.writers[w].pc)
      ensures Inherits(c, us, t.writers[w].pc.out)
    {
      WindowEntered(PlanOf(c), s, a, w);
      hide Do, Inherits, Apply;
      if !InWindow(s.writers[w].pc) {
        assert Work(PlanOf(c), s.files, s.temps, s.writers[w]);
        assert Main(s) in s.versions;
        if !Untorn(s, a) { FromAVersionInherits(c, us, s, a.seen); }
        CommitInherits(c, us, s.writers[w].op, s.writers[w].pc.original);
      }
    }
  }

  lemma QuietInherits(c: Codec, us: seq<User>, s: State, a: Action)
    requires Faithful(c)
    requires Inv(PlanOf(c), s) && AllInherit(c, us, s) && Enabled(s, a) && Gentle(c, s, a) && !Touches(a)
    ensures AllInherit(c, us, Do(PlanOf(c), s, a))
  {
    QuietWindows(c, us, s, a);
    OthersKeepContent(PlanOf(c), s, a);
    VersionsStay(PlanOf(c), s, a);
    hide Do, Inherits, WindowsInherit, Enabled;
  }

  lemma RenameInherits(c: Codec, us: seq<User>, s: State, w: Wid)
    requires Inv(PlanOf(c), s) && AllInherit(c, us, s) && Enabled(s, Rename(w))
    ensures AllInherit(c, us, Do(PlanOf(c), s, Rename(w)))
  {
    KeepsShape(PlanOf(c), s, Rename(w));
    assert Work(PlanOf(c), s.files, s.temps, s.writers[w]);
    hide Inherits;
  }

  /** A scribble over one inode with bytes that descend from us. */
  lemma ScribbleInherits(c: Codec, us: seq<User>, s: State, ino: Ino, data: Bytes)
    requires AllInherit(c, us, s) && ino in s.files && Inherits(c, us, data)
    ensures AllInherit(c, us, Scribble(s, ino, data))
  {
    hide Inherits;
  }

  lemma ForeignInherits(c: Codec, us: seq<User>, s: State, a: Action)
    requires AllInherit(c, us, s) && Enabled(s, a) && Gentle(c, s, a)
      && (a.ForeignOpen? || a.ForeignTear? || a.ForeignClose?)
    ensures AllInherit(c, us, Do(PlanOf(c), s, a))
  {
    hide Inherits, FromAVersion, KeepsAccounts;
    if a.ForeignOpen? {
      FromAVersionInherits(c, us, s, a.target);
      if FromAVersion(c, s, a.torn) { FromAVersionInherits(c, us, s, a.torn); }
      else { InheritsThrough(c, us, a.target, a.torn); }
      ScribbleInherits(c, us, s, Main(s), a.torn);
    } else if a.ForeignTear? {
      if FromAVersion(c, s, a.torn) { FromAVersionInherits(c, us, s, a.torn); }
      else { InheritsThrough(c, us, s.foreign.target, a.torn); }
      ScribbleInherits(c, us, s, s.foreign.ino, a.torn);
    } else {
      ScribbleInherits(c, us, s, s.foreign.ino, s.foreign.target);
    }
  }

  lemma SurvivorInherits(c: Codec, us: seq<User>, s: State, a: Action, v: Ino)
    requires AllInherit(c, us, s) && Enabled(s, a) && a.PowerLoss? && Gentle(c, s, a)
      && v in s.versions[..s.durable + 1]
    ensures v in Do(PlanOf(c), s, a).files && Inherits(c, us, Do(PlanOf(c), s, a).files[v].data)
  {
    hide Inherits, FromAVersion;
    assert v in s.versions;
    if !s.files[v].status.Stable? { FromAVersionInherits(c, us, s, if v in a.garbage then a.garbage[v] else []); }
  }

  lemma PowerLossInherits(c: Codec, us: seq<User>, s: State, a: Action)
    requires Inv(PlanOf(c), s) && AllInherit(c, us, s) && Enabled(s, a) && Gentle(c, s, a) && a.PowerLoss?
    ensures AllInherit(c, us, Do(PlanOf(c), s, a))
  {
    KeepsShape(PlanOf(c), s, a);
    hide Inherits, Gentle, Inv, AllInherit;
    forall v | v in Do(PlanOf(c), s, a).versions
      ensures Inherits(c, us, Do(PlanOf(c), s, a).files[v].data)
    {
      SurvivorInherits(c, us, s, a, v);
    }
    PowerLossStops(c, us, s, a);
  }

  lemma PowerLossStops(c: Codec, us: seq<User>, s: State, a: Action)
    requires Enabled(s, a) && a.PowerLoss? && Shaped(Do(PlanOf(c), s, a)) && VersionsInherit(c, us, Do(PlanOf(c), s, a))
    ensures AllInherit(c, us, Do(PlanOf(c), s, a))
  {
    hide Inherits, VersionsInherit, Shaped;
  }

  lemma StepInherits(c: Codec, us: seq<User>, s: State, a: Action)
    requires Faithful(c)
    requires Inv(PlanOf(c), s) && AllInherit(c, us, s) && Enabled(s, a) && Gentle(c, s, a)
    ensures AllInherit(c, us, Do(PlanOf(c), s, a))
  {
    hide Do, AllInherit, Inv, Gentle, Faithful;
    if a.Rename? { RenameInherits(c, us, s, a.w); }
    else if a.PowerLoss? { PowerLossInherits(c, us, s, a); }
    else if Touches(a) { ForeignInherits(c, us, s, a); }
    else { QuietInherits(c, us, s, a); }
  }

  lemma {:induction false} RunInherits(c: Codec, s: State, acts: seq<Action>, us: seq<User>)
    requires Faithful(c) && Initial(s) && HasAccounts(c, Content(s), us)
    requires Legal(PlanOf(c), s, acts) && GentleRun(c, s, acts)
    ensures AllInherit(c, us, After(PlanOf(c), s, acts))
  {
    if acts == [] {
      InitialInherits(c, s, us);
    } else {
      var n := |acts| - 1;
      InitialInv(PlanOf(c), s);
      RunKeepsInv(PlanOf(c), s, acts[..n]);
      RunInherits(c, s, acts[..n], us);
      StepInherits(c, us, After(PlanOf(c), s, acts[..n]), acts[n]);
    }
  }

  lemma InitialInherits(c: Codec, s: State, us: seq<User>)
    requires Initial(s) && HasAccounts(c, Content(s), us)
    ensures AllInherit(c, us, s)
  {
    assert Descendants(us, us) by { SameIdsDescend(us, us); }
    hide HasAccounts, Descendants;
    forall v, vs | v in s.versions && HasAccounts(c, s.files[v].data, vs)
      ensures Descendants(us, vs)
    {
      assert v == Main(s);
      AccountsUnique(c, s.files[v].data, us, vs);
    }
  }

  /**
   From any file, whoever writes when and whatever crashes: as long as foreign writes change only
   passwords, no two accounts that any version of the users file lists, the current one and the one on
   disk included, collide unless they go back to accounts of the initial file that collided already.
   */
  lemma NoCollisionEver(c: Codec, s: State, acts: seq<Action>, us: seq<User>, v: Ino, vs: seq<User>)
    requires Faithful(c) && Initial(s) && HasAccounts(c, Content(s), us)
    requires Legal(PlanOf(c), s, acts) && GentleRun(c, s, acts)
    requires v in After(PlanOf(c), s, acts).versions && v in After(PlanOf(c), s, acts).files
    requires HasAccounts(c, After(PlanOf(c), s, acts).files[v].data, vs)
    ensures NothingNewCollides(us, vs)
  {
    RunInherits(c, s, acts, us);
    var origin :| Descends(us, vs, origin);
    DescendantsCollideNoMore(us, vs, origin);
  }
}
