/**
 The handlers over the bytes of the users file: every run of them is a run over the list of accounts,
 so the agreement between the store and the apps holds of the file itself.
 */
module EndToEnd {
  import opened Text
  import opened YamlTree
  import opened UserFile
  import opened Accounts
  import opened Exactness
  import opened Planka
  import opened Lifecycle
  import opened WholeRun
  import EditFile

  /** The users file and the apps. */
  datatype Estate = Estate(file: Bytes, apps: seq<App>)

  /** A request, how its calls go, and the password hash that an invitation would store. */
  datatype Call = Call(request: Request, env: Env, hash: string)

  function Listed(c: Codec, b: Bytes): seq<User> {
    match EditFile.ListedIn(c, b)
    case None => []
    case Some(us) => us
  }

  function InviteFile(c: Codec, rules: seq<seq<Rule>>, e: Estate, u: User, hash: string, env: Env): Estate
    requires |rules| == |e.apps|
  {
    var r := Apply(c, Add(u, hash), e.file);
    if !env.write || r.Reject? then e else Estate(r.out, InvitedAll(rules, e.apps, u, env))
  }

  /** The read-back lists the file as it is after the edit. */
  function SetGroupsFile(c: Codec, rules: seq<seq<Rule>>, e: Estate, username: string, groups: seq<string>,
      env: Env): Estate
    requires |rules| == |e.apps|
  {
    var r := Apply(c, UserFile.SetGroups(username, groups), e.file);
    if !env.write || r.Reject? then e
    else
      var users := Listed(c, r.out);
      var i := IndexOf(users, username);
      if i == |users| then Estate(r.out, e.apps)
      else Estate(r.out, if env.read then SyncedAll(rules, e.apps, users[i], env) else SkippedAll(e.apps, users[i]))
  }

  function DeleteFile(c: Codec, e: Estate, username: string, env: Env): Estate {
    var users := Listed(c, e.file);
    var i, r := IndexOf(users, username), Apply(c, UserFile.Delete(username), e.file);
    if !env.read || i == |users| || !env.write || r.Reject? then e
    else Estate(r.out, DeprovisionedAll(e.apps, users[i], env))
  }

  function HandleFile(c: Codec, rules: seq<seq<Rule>>, e: Estate, k: Call): (f: Estate)
    requires |rules| == |e.apps|
    ensures |f.apps| == |e.apps|
  {
    match k.request
    case Invite(u) => InviteFile(c, rules, e, u, k.hash, k.env)
    case SetGroups(username, groups) => SetGroupsFile(c, rules, e, username, groups, k.env)
    case Delete(username) => DeleteFile(c, e, username, k.env)
  }

  function HandleAllFile(c: Codec, rules: seq<seq<Rule>>, e: Estate, ks: seq<Call>): (f: Estate)
    requires |rules| == |e.apps|
    ensures |f.apps| == |e.apps|
  {
    if ks == [] then e
    else
      var n := |ks| - 1;
      HandleFile(c, rules, HandleAllFile(c, rules, e, ks[..n]), ks[n])
  }

  /** The estate's file lists the portal's users, and the apps are the same. */
  ghost predicate Shows(c: Codec, e: Estate, p: Portal) {
    HasAccounts(c, e.file, p.users) && e.apps == p.apps
  }

  function OpOf(k: Call): Op {
    match k.request
    case Invite(u) => Add(u, k.hash)
    case SetGroups(username, groups) => UserFile.SetGroups(username, groups)
    case Delete(username) => UserFile.Delete(username)
  }

  /** The list sees a refused edit as a failed write. */
  function Seen(c: Codec, e: Estate, k: Call): Env {
    k.env.(write := k.env.write && Apply(c, OpOf(k), e.file).Replace?)
  }

  /** A commit means that the list accepts the operation, and leaves it edited. */
  lemma CommitEdits(c: Codec, op: Op, b: Bytes, us: seq<User>)
    requires Faithful(c) && HasAccounts(c, b, us) && CollisionFree(us) && Apply(c, op, b).Replace?
    ensures Accepts(op, us) && HasAccounts(c, Apply(c, op, b).out, EditList(op, us))
    ensures Listed(c, b) == us && Listed(c, Apply(c, op, b).out) == EditList(op, us)
  {
    var root :| Lists(c, b, root, us);
    FileIsTheList(c, op, b, root, us);
    hide Apply, EditList, Accepts, CollisionFree;
    var vs, origin := CommitLists(c, op, b, us);
    AccountsAreListed(c, b, us);
    AccountsAreListed(c, Apply(c, op, b).out, vs);
  }

  lemma InviteSimulates(c: Codec, rules: seq<seq<Rule>>, e: Estate, p: Portal, k: Call)
    requires Faithful(c) && |rules| == |e.apps| && Shows(c, e, p) && CollisionFree(p.users) && k.request.Invite?
    ensures Shows(c, HandleFile(c, rules, e, k), Handle(rules, p, k.request, Seen(c, e, k)))
  {
    hide Apply, HasAccounts, Faithful, CollisionFree, IndexOf, InvitedAll, SyncedAll, SkippedAll, DeprovisionedAll,
      EditFile.ListedIn;
    var op := OpOf(k);
    AccountsAreListed(c, e.file, p.users);
    if Apply(c, op, e.file).Replace? {
      CommitEdits(c, op, e.file, p.users);
    }
  }

  lemma SetGroupsSimulates(c: Codec, rules: seq<seq<Rule>>, e: Estate, p: Portal, k: Call)
    requires Faithful(c) && |rules| == |e.apps| && Shows(c, e, p) && CollisionFree(p.users) && k.request.SetGroups?
    ensures Shows(c, HandleFile(c, rules, e, k), Handle(rules, p, k.request, Seen(c, e, k)))
  {
    hide Apply, HasAccounts, Faithful, CollisionFree, IndexOf, InvitedAll, SyncedAll, SkippedAll, DeprovisionedAll,
      EditFile.ListedIn;
    var op := OpOf(k);
    AccountsAreListed(c, e.file, p.users);
    if Apply(c, op, e.file).Replace? {
      CommitEdits(c, op, e.file, p.users);
      ReadBackFindsEdited(p.users, k.request.username, k.request.groups);
    }
  }

  lemma DeleteSimulates(c: Codec, rules: seq<seq<Rule>>, e: Estate, p: Portal, k: Call)
    requires Faithful(c) && |rules| == |e.apps| && Shows(c, e, p) && CollisionFree(p.users) && k.request.Delete?
    ensures Shows(c, HandleFile(c, rules, e, k), Handle(rules, p, k.request, Seen(c, e, k)))
  {
    hide Apply, HasAccounts, Faithful, CollisionFree, EditList, IndexOf, InvitedAll, SyncedAll, SkippedAll,
      DeprovisionedAll, EditFile.ListedIn;
    var op := OpOf(k);
    AccountsAreListed(c, e.file, p.users);
    if Apply(c, op, e.file).Replace? {
      CommitEdits(c, op, e.file, p.users);
    }
  }

  /** One handler call on the file is one handler call on the list. */
  lemma HandleSimulates(c: Codec, rules: seq<seq<Rule>>, e: Estate, p: Portal, k: Call)
    requires Faithful(c) && |rules| == |e.apps| && Shows(c, e, p) && CollisionFree(p.users)
    ensures Shows(c, HandleFile(c, rules, e, k), Handle(rules, p, k.request, Seen(c, e, k)))
  {
    hide HandleFile, Handle, Shows, CollisionFree;
    match k.request
    case Invite(_) => InviteSimulates(c, rules, e, p, k);
    case SetGroups(_, _) => SetGroupsSimulates(c, rules, e, p, k);
    case Delete(_) => DeleteSimulates(c, rules, e, p, k);
  }

  /** How each call of a run looks to the list. */
  function AllSeen(c: Codec, rules: seq<seq<Rule>>, e: Estate, ks: seq<Call>): seq<(Request, Env)>
    requires |rules| == |e.apps|
  {
    if ks == [] then []
    else
      var n := |ks| - 1;
      AllSeen(c, rules, e, ks[..n]) + [(ks[n].request, Seen(c, HandleAllFile(c, rules, e, ks[..n]), ks[n]))]
  }

  lemma HandleAllSnoc(rules: seq<seq<Rule>>, p: Portal, rs: seq<(Request, Env)>, r: (Request, Env))
    requires |rules| == |p.apps|
    ensures HandleAll(rules, p, rs + [r]) == Handle(rules, HandleAll(rules, p, rs), r.0, r.1)
  {
    assert (rs + [r])[..|rs|] == rs;
  }

  /** Every run of handlers over the file is a run over the list, in which refused edits are failed writes. */
  lemma {:induction false} FileRunIsListRun(c: Codec, rules: seq<seq<Rule>>, e: Estate, p: Portal, ks: seq<Call>)
    requires Faithful(c) && Shows(c, e, p) && Agreement(rules, p)
    ensures Shows(c, HandleAllFile(c, rules, e, ks), HandleAll(rules, p, AllSeen(c, rules, e, ks)))
  {
    if ks != [] {
      var n := |ks| - 1;
      var rs, f := AllSeen(c, rules, e, ks[..n]), HandleAllFile(c, rules, e, ks[..n]);
      FileRunIsListRun(c, rules, e, p, ks[..n]);
      AgreementHolds(rules, p, rs);
      var q := HandleAll(rules, p, rs);
      HandleSimulates(c, rules, f, q, ks[n]);
      HandleAllSnoc(rules, p, rs, (ks[n].request, Seen(c, f, ks[n])));
    }
  }

  /**
   Agreement end to end: after any sequence of handler calls on a file that lists accounts without
   collisions, with refused edits, failing writes and failing apps, the file lists accounts with which
   every app agrees about every email that is not dirty.
   */
  lemma FileAgreement(c: Codec, rules: seq<seq<Rule>>, e: Estate, us: seq<User>, ks: seq<Call>)
    requires Faithful(c) && HasAccounts(c, e.file, us) && Agreement(rules, Portal(us, e.apps))
    ensures var f := HandleAllFile(c, rules, e, ks);
            HasAccounts(c, f.file, Listed(c, f.file)) && Agreement(rules, Portal(Listed(c, f.file), f.apps))
  {
    var p, f := Portal(us, e.apps), HandleAllFile(c, rules, e, ks);
    FileRunIsListRun(c, rules, e, p, ks);
    var q := HandleAll(rules, p, AllSeen(c, rules, e, ks));
    AgreementHolds(rules, p, AllSeen(c, rules, e, ks));
    AccountsAreListed(c, f.file, q.users);
    assert q == Portal(Listed(c, f.file), f.apps);
  }
}
