/**
 The accounts over whole runs of the protocol: with a faithful YAML library, and Authelia changing
 nothing but passwords, the users file always lists the accounts it started with, edited by the
 committed operations in commit order, and no two accounts are ever made to collide.
 */
module WholeRun {
  import opened YamlTree
  import opened UserFile
  import opened Exactness
  import opened Accounts
  import opened Protocol
  import opened ProtocolInv
  import opened Updates
  import opened Soundness
  import opened Store
  import EditFile

  /** The bytes are a users file that lists these accounts. */
  ghost predicate HasAccounts(c: Codec, b: Bytes, us: seq<User>) {
    exists root :: Lists(c, b, root, us)
  }

  /** Every write of Authelia's leaves the accounts alone: what it changes is not part of what is listed. */
  ghost predicate PasswordsOnly(c: Codec, start: Bytes, log: seq<Commit>) {
    log == [] ||
    var n := |log| - 1;
    var before := Fold(PlanOf(c), start, log[..n]);
    && PasswordsOnly(c, start, log[..n])
    && (log[n].ForeignCommit? ==> forall us :: HasAccounts(c, before, us) ==> HasAccounts(c, log[n].content, us))
  }

  /** Every commit of the portal's did replace the file. */
  predicate Effective(plan: Plan, start: Bytes, log: seq<Commit>) {
    log == [] ||
    var n := |log| - 1;
    && Effective(plan, start, log[..n])
    && (log[n].PortalCommit? ==> plan(log[n].op, Fold(plan, start, log[..n])).Replace?)
  }

  /** The accounts after these commits. */
  function AccountsAfter(us: seq<User>, log: seq<Commit>): seq<User> {
    if log == [] then us
    else
      var n := |log| - 1;
      var before := AccountsAfter(us, log[..n]);
      if log[n].PortalCommit? then EditList(log[n].op, before) else before
  }

  lemma EffectiveSnoc(plan: Plan, start: Bytes, log: seq<Commit>, k: Commit)
    requires Effective(plan, start, log)
    requires k.PortalCommit? ==> plan(k.op, Fold(plan, start, log)).Replace?
    ensures Effective(plan, start, log + [k])
  {
    assert (log + [k])[..|log|] == log;
  }

  /** How one step extends the log. */
  lemma LogStep(plan: Plan, s: State, a: Action) returns (more: seq<Commit>)
    requires Enabled(s, a)
    ensures Do(plan, s, a).log == s.log + more
    ensures |more| <= 1
      && (more != [] && more[0].PortalCommit? ==> a.Rename? && more == [PortalCommit(s.writers[a.w].op)])
  {
    more := if a.Rename? then [PortalCommit(s.writers[a.w].op)]
            else if a.ForeignClose? then [ForeignCommit(s.foreign.target)] else [];
  }

  lemma {:induction false} CommitsAreEffective(plan: Plan, s: State, acts: seq<Action>)
    requires Initial(s) && Legal(plan, s, acts) && CalmRun(plan, s, acts)
    ensures Effective(plan, Content(s), After(plan, s, acts).log)
  {
    if acts != [] {
      var n := |acts| - 1;
      var r, a := After(plan, s, acts[..n]), acts[n];
      CommitsAreEffective(plan, s, acts[..n]);
      NoLostUpdate(plan, s, acts[..n]);
      var more := LogStep(plan, r, a);
      if more == [] {
        assert r.log + more == r.log;
      } else {
        if a.Rename? { RenameIsEffective(plan, Content(s), r, a.w); }
        assert more == [more[0]];
        EffectiveSnoc(plan, Content(s), r.log, more[0]);
      }
    }
  }

  lemma RenameIsEffective(plan: Plan, start: Bytes, s: State, w: Wid)
    requires Inv(plan, s) && Current(plan, start, s) && Calm(s) && Enabled(s, Rename(w))
    ensures plan(s.writers[w].op, Fold(plan, start, s.log)).Replace?
  {
    RenameInstallsEdit(plan, start, s, w);
    assert InWindow(s.writers[w].pc);
  }

  lemma CollisionFreeNames(us: seq<User>, username: string)
    requires CollisionFree(us)
    ensures OneNamed(us, username)
  {
    forall i, j | 0 <= i < j < |us| && us[i].username == username
      ensures us[j].username != username
    {
      assert !Collide(us[i], us[j]);
    }
  }

  /** What a commit leaves of the accounts: the edited ones, or, for a repeated username, perhaps the same. */
  predicate MayLeave(op: Op, us: seq<User>, vs: seq<User>) {
    vs == EditList(op, us) || (op.SetGroups? && !OneNamed(us, Target(op)) && vs == us)
  }

  /** One commit of the portal's. */
  lemma CommitLists(c: Codec, op: Op, b: Bytes, us: seq<User>) returns (vs: seq<User>, origin: seq<int>)
    requires Faithful(c) && HasAccounts(c, b, us) && Apply(c, op, b).Replace?
    ensures HasAccounts(c, Apply(c, op, b).out, vs) && Descends(us, vs, origin)
    ensures MayLeave(op, us, vs) && (CollisionFree(us) ==> vs == EditList(op, us))
  {
    hide Apply, EditList, OneNamed;
    var root :| Lists(c, b, root, us);
    var after;
    after, vs := CommittedList(c, op, b, root, us);
    if CollisionFree(us) { CollisionFreeNames(us, Target(op)); }
    if vs == EditList(op, us) {
      origin := EditDescends(op, us);
    } else {
      origin := Identity(|us|);
      SameIdsDescend(us, us);
    }
  }

  /** What the handlers rely on: whether the store accepts an operation on these accounts. */
  predicate Accepts(op: Op, us: seq<User>) {
    if op.Add? then !Clash(us, op.user) else IndexOf(us, Target(op)) < |us|
  }

  /** The ordinary case: the username is not repeated, and an entry whose groups are set is a mapping. */
  ghost predicate Ordinary(op: Op, root: Tree, us: seq<User>)
    requires IsUsersFile(root)
  {
    op.Add? || (OneNamed(us, Target(op)) && (op.SetGroups? ==> FirstIsMapping(Users(root), Target(op))))
  }

  lemma UniqueIsOneNamed(kids: seq<Tree>, username: string)
    requires Has(kids, username) && Unique(kids, username)
    ensures OneNamed(ListOf(kids), username)
  {
    var us := ListOf(kids);
    forall i, j | 0 <= i < j < |us| && us[i].username == username
      ensures us[j].username != username
    {
      ListedAt(kids, i);
      ListedAt(kids, j);
      assert i == FirstIndex(kids, username) ==> kids[2 * j].value != username;
    }
  }

  lemma CommitsOrRefuses(c: Codec, op: Op, b: Bytes, root: Tree, us: seq<User>)
    requires Faithful(c) && Lists(c, b, root, us)
    ensures !Accepts(op, us) ==> Apply(c, op, b) == Reject(if op.Add? then Duplicate else NotFound)
    ensures Accepts(op, us) && Ordinary(op, root, us) ==> Apply(c, op, b).Replace?
    ensures Accepts(op, us) && !Ordinary(op, root, us) ==>
      if op.SetGroups? && AlreadyListed(Users(root), op.username, op.groups) then Apply(c, op, b).Replace?
      else Apply(c, op, b) == Reject(Refused)
  {
    var kids := Users(root);
    IndexOfIsFirst(kids, Target(op));
    if !op.Add? && Has(kids, Target(op)) {
      if OneNamed(us, Target(op)) { OneNamedIsUnique(kids, Target(op)); }
      if Unique(kids, Target(op)) { UniqueIsOneNamed(kids, Target(op)); }
    }
    hide Apply, FirstIsMapping, OneNamed, Unique, AlreadyListed;
    match op
    case Add(u, hash) => AddIsExact(c, u, hash, b, root);
    case SetGroups(username, groups) => SetGroupsIsExact(c, username, groups, b, root);
    case Delete(username) => DeleteIsExact(c, username, b, root);
  }

  /**
   The file behaves as the list that the handlers see: an operation that the list does not accept fails
   with the error they expect; in the ordinary case every other one commits and leaves the edited
   accounts; a repeated username or a null entry is refused, unless its groups are listed already.
   */
  lemma FileIsTheList(c: Codec, op: Op, b: Bytes, root: Tree, us: seq<User>)
    requires Faithful(c) && Lists(c, b, root, us)
    ensures !Accepts(op, us) ==> Apply(c, op, b) == Reject(if op.Add? then Duplicate else NotFound)
    ensures Accepts(op, us) && Ordinary(op, root, us) ==>
      Apply(c, op, b).Replace? && HasAccounts(c, Apply(c, op, b).out, EditList(op, us))
    ensures Accepts(op, us) && !Ordinary(op, root, us) ==>
      if op.SetGroups? && AlreadyListed(Users(root), op.username, op.groups)
      then Apply(c, op, b).Replace? && exists vs :: MayLeave(op, us, vs) && HasAccounts(c, Apply(c, op, b).out, vs)
      else Apply(c, op, b) == Reject(Refused)
  {
    CommitsOrRefuses(c, op, b, root, us);
    hide Apply, EditList, Accepts, AlreadyListed, MayLeave;
    if Apply(c, op, b).Replace? {
      var vs, origin := CommitLists(c, op, b, us);
      OrdinaryLeavesEdited(op, root, us, vs);
    }
  }

  lemma OrdinaryLeavesEdited(op: Op, root: Tree, us: seq<User>, vs: seq<User>)
    requires IsUsersFile(root) && MayLeave(op, us, vs)
    ensures Ordinary(op, root, us) ==> vs == EditList(op, us)
  {
  }

  /** vs are the accounts after these commits, one by one. */
  ghost predicate Follows(us: seq<User>, log: seq<Commit>, vs: seq<User>) {
    if log == [] then vs == us
    else
      var n := |log| - 1;
      exists ws :: Follows(us, log[..n], ws) && if log[n].PortalCommit? then MayLeave(log[n].op, ws, vs) else vs == ws
  }

  /** The file's accounts after these commits, and where each of them comes from. */
  lemma {:induction false} LogLists(c: Codec, start: Bytes, log: seq<Commit>, us: seq<User>)
    returns (vs: seq<User>, origin: seq<int>)
    requires Faithful(c) && HasAccounts(c, start, us)
    requires PasswordsOnly(c, start, log) && Effective(PlanOf(c), start, log)
    ensures HasAccounts(c, Fold(PlanOf(c), start, log), vs) && Descends(us, vs, origin)
    ensures Follows(us, log, vs) && (CollisionFree(us) ==> vs == AccountsAfter(us, log))
  {
    hide MayLeave, Apply;
    if log == [] {
      vs, origin := us, Identity(|us|);
      SameIdsDescend(us, us);
    } else {
      var n := |log| - 1;
      var b := Fold(PlanOf(c), start, log[..n]);
      vs, origin := LogLists(c, start, log[..n], us);
      if log[n].PortalCommit? {
        var ws, step := CommitLists(c, log[n].op, b, vs);
        if CollisionFree(us) { CollisionFreeKept(us, vs, origin); }
        origin := DescendsComposes(us, vs, ws, origin, step);
        vs := ws;
      }
    }
  }

  /**
   Whenever Authelia is not writing, the users file lists the initial accounts as the committed
   operations leave them one by one; if no two of those collided, exactly these accounts edited in
   commit order.
   */
  lemma AccountsOverRuns(c: Codec, s: State, acts: seq<Action>, us: seq<User>) returns (vs: seq<User>, origin: seq<int>)
    requires Faithful(c) && Initial(s) && HasAccounts(c, Content(s), us)
    requires Legal(PlanOf(c), s, acts) && CalmRun(PlanOf(c), s, acts)
    requires PasswordsOnly(c, Content(s), After(PlanOf(c), s, acts).log)
    ensures var t := After(PlanOf(c), s, acts);
            && Shaped(t)
            && (t.foreign.Idle? ==> HasAccounts(c, Content(t), vs))
            && Descends(us, vs, origin) && Follows(us, t.log, vs)
            && (CollisionFree(us) ==> vs == AccountsAfter(us, t.log))
  {
    NoLostUpdate(PlanOf(c), s, acts);
    CommitsAreEffective(PlanOf(c), s, acts);
    vs, origin := LogLists(c, Content(s), After(PlanOf(c), s, acts).log, us);
  }

  lemma AccountsAreListed(c: Codec, b: Bytes, us: seq<User>)
    requires HasAccounts(c, b, us)
    ensures EditFile.ListedIn(c, b) == Some(us)
  {
    var root :| Lists(c, b, root, us);
    assert ParseBytes(c, b) == Some(root);
  }

  /** A reader without the lock, whenever Authelia is not writing, sees the accounts after a whole number of commits. */
  lemma ReadersSeeTheCommits(c: Codec, s: State, acts: seq<Action>, us: seq<User>) returns (vs: seq<User>)
    requires Faithful(c) && Initial(s) && HasAccounts(c, Content(s), us)
    requires Legal(PlanOf(c), s, acts) && CalmRun(PlanOf(c), s, acts) && After(PlanOf(c), s, acts).foreign.Idle?
    requires PasswordsOnly(c, Content(s), After(PlanOf(c), s, acts).log)
    ensures var t := After(PlanOf(c), s, acts);
            && Shaped(t) && EditFile.ListedIn(c, Content(t)) == Some(vs)
            && Follows(us, t.log, vs) && (CollisionFree(us) ==> vs == AccountsAfter(us, t.log))
  {
    var origin;
    vs, origin := AccountsOverRuns(c, s, acts, us);
    AccountsAreListed(c, Content(After(PlanOf(c), s, acts)), vs);
  }

  /**
   For any codec, in any reachable state, calm or not: what a rename puts in place parses, has the
   intended usernames relative to what the writer had read, carries the requested change, and leaves
   every other entry canonically equal to what was read.
   */
  lemma RenamedContentIsSound(c: Codec, s: State, w: Wid)
    requires Inv(PlanOf(c), s) && Enabled(s, Rename(w))
    ensures var t, op := Do(PlanOf(c), s, Rename(w)), s.writers[w].op;
            && Shaped(t)
            && var before, after := SnapshotOf(c, s.writers[w].pc.original), SnapshotOf(c, Content(t));
               && before.Some? && after.Some?
               && KeysAsAsked(op, before.value, after.value)
               && ChangeAsAsked(op, after.value)
               && forall k :: k in before.value && k != Target(op) ==>
                    && k in after.value && c.marshal(before.value[k]).Some?
                    && c.marshal(before.value[k]) == c.marshal(after.value[k])
  {
    KeepsShape(PlanOf(c), s, Rename(w));
    RenameMoves(PlanOf(c), s, w);
    assert Work(PlanOf(c), s.files, s.temps, s.writers[w]);
    ReplacementIsSound(c, s.writers[w].op, s.writers[w].pc.original);
  }

  ghost predicate PairAt(us: seq<User>, i: int, j: int, a: User, b: User) {
    0 <= i < |us| && 0 <= j < |us| && i != j && SameId(a, us[i]) && SameId(b, us[j]) && Collide(us[i], us[j])
  }

  /** Two different accounts with these usernames and emails, which collide. */
  ghost predicate CollidingPair(us: seq<User>, a: User, b: User) {
    exists i, j :: PairAt(us, i, j, a, b)
  }

  /** Nothing collides among vs that did not collide among us. */
  ghost predicate NothingNewCollides(us: seq<User>, vs: seq<User>) {
    && (CollisionFree(us) ==> CollisionFree(vs))
    && (forall i, j :: 0 <= i < j < |vs| && Collide(vs[i], vs[j]) ==> CollidingPair(us, vs[i], vs[j]))
  }

  lemma DescendantsCollideNoMore(us: seq<User>, vs: seq<User>, origin: seq<int>)
    requires Descends(us, vs, origin)
    ensures NothingNewCollides(us, vs)
  {
    if CollisionFree(us) { CollisionFreeKept(us, vs, origin); }
    forall i, j | 0 <= i < j < |vs| && Collide(vs[i], vs[j])
      ensures CollidingPair(us, vs[i], vs[j])
    {
      NoNewCollision(us, vs, origin, i, j);
      assert PairAt(us, origin[i], origin[j], vs[i], vs[j]);
    }
  }

  /** In a calm run the file moreover is readable whenever Authelia is not writing. */
  lemma NoCollisionInCalmRuns(c: Codec, s: State, acts: seq<Action>, us: seq<User>) returns (vs: seq<User>)
    requires Faithful(c) && Initial(s) && HasAccounts(c, Content(s), us)
    requires Legal(PlanOf(c), s, acts) && CalmRun(PlanOf(c), s, acts) && After(PlanOf(c), s, acts).foreign.Idle?
    requires PasswordsOnly(c, Content(s), After(PlanOf(c), s, acts).log)
    ensures Shaped(After(PlanOf(c), s, acts)) && EditFile.ListedIn(c, Content(After(PlanOf(c), s, acts))) == Some(vs)
    ensures NothingNewCollides(us, vs)
  {
    var origin;
    vs, origin := AccountsOverRuns(c, s, acts, us);
    AccountsAreListed(c, Content(After(PlanOf(c), s, acts)), vs);
    DescendantsCollideNoMore(us, vs, origin);
  }
}
