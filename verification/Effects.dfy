/**
 What each request achieves, in terms of the accounts and the rows themselves: who is listed afterwards,
 which rows of which app are new or changed, and what the response warns of.
 */
module Effects {
  import opened Text
  import opened UserFile
  import opened Accounts
  import opened Planka
  import opened Lifecycle
  import opened Invite
  import opened Batch

  /** The first account with this username is the i-th. */
  ghost predicate FirstListed(us: seq<User>, username: string, i: nat) {
    i < |us| && us[i].username == username && forall j :: 0 <= j < i ==> us[j].username != username
  }

  ghost predicate Unlisted(us: seq<User>, username: string) {
    forall j :: 0 <= j < |us| ==> us[j].username != username
  }

  /** The account in the store that an invitation makes. */
  ghost predicate IsInvited(v: User, u: User) {
    && CaseVariant(u.email, v.email) && (forall c :: c in v.email ==> !('A' <= c <= 'Z'))
    && v == User(u.username, u.displayName, v.email, u.groups, false)
  }

  /** The active account in an app that an invitation makes, with this role. */
  ghost predicate HasAccount(row: Row, u: User, role: string) {
    IsNewAccount(row, Invitee(u.username, u.displayName, u.email, u.groups), role)
  }

  // ----- an invitation -----

  /** The store: one more account at the end exactly if the write works and no listed one clashes. */
  lemma InvitationInStore(rules: seq<seq<Rule>>, p: Portal, u: User, env: Env)
    requires |rules| == |p.apps|
    ensures var q := Handle(rules, p, Request.Invite(u), env);
            if env.write && !Taken(p.users, u)
            then |q.users| == |p.users| + 1 && q.users[..|p.users|] == p.users && IsInvited(q.users[|p.users|], u)
            else q == p && Warnings(rules, p, Request.Invite(u), env) == {}
  {
    ClashIsTaken(p.users, u);
    StoredMeaning(u);
    var q := DoInvite(rules, p, u, env);
    if env.write && !Clash(p.users, u) { assert q.users == p.users + [Stored(u)]; }
  }

  /**
   Each app, after an invitation that the store took: one new active account with the granted role exactly
   if the app is in scope, the look-up worked and found nobody, and the insert arrived; no other row is
   touched; and the response warns of the app exactly if it is in scope and this is not known to have
   happened.
   */
  lemma InvitationInApp(rules: seq<seq<Rule>>, p: Portal, u: User, env: Env, a: nat)
    requires |rules| == |p.apps| && a < |p.apps| && env.write && !Taken(p.users, u)
    ensures var q, w := Handle(rules, p, Request.Invite(u), env), Warnings(rules, p, Request.Invite(u), env);
            var rows, after, role := p.apps[a].rows, q.apps[a].rows, RoleOf(rules[a], u.groups);
            var free := env.look(a).Up? && !HasEmail(rows, ToLower(u.email));
            && (if role != "" && free && !env.put(a).Down?
                then |after| == |rows| + 1 && after[..|rows|] == rows && HasAccount(after[|rows|], u, role)
                else after == rows)
            && (a in w <==> role != "" && !(free && env.put(a).Up?))
  {
    ClashIsTaken(p.users, u);
    ProvisionedExactly(rules[a], p.apps[a].rows, InviteeOf(u), env.look(a), env.put(a));
    var q := DoInvite(rules, p, u, env);
    assert |q.users| == |p.users| + 1;
  }

  /** So an app in scope that the response does not warn of has a new active account for the user. */
  lemma UnwarnedIsProvisioned(rules: seq<seq<Rule>>, p: Portal, u: User, env: Env, a: nat)
    requires |rules| == |p.apps| && a < |p.apps| && env.write && !Taken(p.users, u)
    requires RoleOf(rules[a], u.groups) != "" && a !in Warnings(rules, p, Request.Invite(u), env)
    ensures var after := Handle(rules, p, Request.Invite(u), env).apps[a].rows;
            |after| > |p.apps[a].rows|
              && HasAccount(after[|p.apps[a].rows|], u, RoleOf(rules[a], u.groups))
  {
    InvitationInApp(rules, p, u, env, a);
  }

  // ----- an access edit and a removal -----

  lemma IndexOfListed(us: seq<User>, username: string, i: nat)
    requires FirstListed(us, username, i)
    ensures IndexOf(us, username) == i
  {
    var k := IndexOf(us, username);
    assert us[i].username == username && (k < |us| ==> us[k].username == username);
  }

  /** A request about a name that is not listed changes nothing and warns of nothing. */
  lemma UnlistedChangesNothing(rules: seq<seq<Rule>>, p: Portal, r: Request, env: Env)
    requires |rules| == |p.apps| && !r.Invite? && Unlisted(p.users, r.username)
    ensures Handle(rules, p, r, env) == p && Warnings(rules, p, r, env) == {}
  {
    assert IndexOf(p.users, r.username) == |p.users|;
  }

  /** The store after an access edit: just the groups of that account have changed, if the write works. */
  lemma AccessEditInStore(rules: seq<seq<Rule>>, p: Portal, username: string, groups: seq<string>, env: Env, i: nat)
    requires |rules| == |p.apps| && FirstListed(p.users, username, i)
    ensures var q := Handle(rules, p, Request.SetGroups(username, groups), env);
            if env.write then q.users == p.users[i := p.users[i].(groups := groups)] else q == p
  {
    IndexOfListed(p.users, username, i);
  }

  /**
   Each app after a saved access edit: if the store could be read back and the query arrives, the rows of
   the user's email have the role that the new groups grant and are active, or are deactivated; the
   response warns of the app exactly if the query failed. If it could not be read back, nothing at all.
   */
  lemma AccessEditInApp(rules: seq<seq<Rule>>, p: Portal, username: string, groups: seq<string>, env: Env, i: nat,
      a: nat)
    requires |rules| == |p.apps| && a < |p.apps| && env.write && FirstListed(p.users, username, i)
    ensures var r := Request.SetGroups(username, groups);
            var rows, after := p.apps[a].rows, Handle(rules, p, r, env).apps[a].rows;
            && (if env.read && !env.put(a).Down?
                then IsUpdate(rows, after, ToLower(p.users[i].email), RoleOf(rules[a], groups))
                else after == rows)
            && (a in Warnings(rules, p, r, env) <==> env.read && !env.put(a).Up?)
  {
    IndexOfListed(p.users, username, i);
    UpdatedExactly(p.apps[a].rows, ToLower(p.users[i].email), RoleOf(rules[a], groups), env.put(a));
  }

  /**
   The store after a removal: that account is out, if the look-up and the write work, and in a store
   without collisions nobody of that name is left.
   */
  lemma RemovalInStore(rules: seq<seq<Rule>>, p: Portal, username: string, env: Env, i: nat)
    requires |rules| == |p.apps| && FirstListed(p.users, username, i)
    ensures var q := Handle(rules, p, Request.Delete(username), env);
            if env.read && env.write
            then q.users == p.users[..i] + p.users[i + 1..]
                   && (CollisionFree(p.users) ==> forall v :: v in q.users ==> !CaseVariant(v.username, username))
            else q == p
  {
    IndexOfListed(p.users, username, i);
    if CollisionFree(p.users) {
      forall v | v in p.users[..i] + p.users[i + 1..]
        ensures !CaseVariant(v.username, username)
      {
        var j :| 0 <= j < |p.users| && j != i && p.users[j] == v;
        assert !Collide(p.users[j], p.users[i]);
        EqualFoldMeaning(v.username, username);
      }
    }
  }

  /** Each app after a removal: if the query arrives, the rows of the user's email are deactivated. */
  lemma RemovalInApp(rules: seq<seq<Rule>>, p: Portal, username: string, env: Env, i: nat, a: nat)
    requires |rules| == |p.apps| && a < |p.apps| && env.read && env.write && FirstListed(p.users, username, i)
    ensures var r := Request.Delete(username);
            var rows, after := p.apps[a].rows, Handle(rules, p, r, env).apps[a].rows;
            && (if env.put(a).Down? then after == rows else IsUpdate(rows, after, ToLower(p.users[i].email), ""))
            && (a in Warnings(rules, p, r, env) <==> !env.put(a).Up?)
  {
    IndexOfListed(p.users, username, i);
    UpdatedExactly(p.apps[a].rows, ToLower(p.users[i].email), "", env.put(a));
  }

  // ----- a batch -----

  function RowsAt(cfg: Settings, rules: seq<seq<Rule>>, p: Portal, es: seq<InviteEntry>, groups: seq<string>,
      envs: nat -> Env, n: nat, a: nat): seq<Row>
    requires |rules| == |p.apps| && n <= |es| && a < |p.apps|
  {
    InviteEach(cfg, rules, p, es, groups, envs, n).apps[a].rows
  }

  /** One entry adds at most one row, that of the account it adds. */
  lemma OneEntryRows(cfg: Settings, rules: seq<seq<Rule>>, p: Portal, e: InviteEntry, groups: seq<string>, env: Env,
      a: nat)
    requires |rules| == |p.apps| && a < |p.apps|
    ensures var rows, after := p.apps[a].rows, InviteOne(cfg, rules, p, e, groups, env).apps[a].rows;
            || after == rows
            || (Added(cfg, p.users, e, groups, env) != [] && |after| == |rows| + 1 && after[..|rows|] == rows
                && after[|rows|].email == Added(cfg, p.users, e, groups, env)[0].email)
  {
    var b := BuiltUser(cfg, e.email, e.displayName, groups);
    hide BuiltUser, Clash;
    if b.Ready? && env.write && !Clash(p.users, b.user) {
      assert Added(cfg, p.users, e, groups, env) == [Stored(b.user)];
      ProvisionedExactly(rules[a], p.apps[a].rows, InviteeOf(b.user), env.look(a), env.put(a));
    }
  }

  ghost predicate EmailOf(us: seq<User>, email: string) {
    exists v :: v in us && v.email == email
  }

  /** The rows there were stay as they are, and every new one belongs to an account created by the batch. */
  lemma {:induction false} NewRowsAreOfCreated(cfg: Settings, rules: seq<seq<Rule>>, p: Portal, es: seq<InviteEntry>,
      groups: seq<string>, envs: nat -> Env, n: nat, a: nat)
    requires |rules| == |p.apps| && n <= |es| && a < |p.apps|
    ensures var rows, after := p.apps[a].rows, RowsAt(cfg, rules, p, es, groups, envs, n, a);
            && |rows| <= |after| && after[..|rows|] == rows
            && forall i :: |rows| <= i < |after| ==>
                 EmailOf(CreatedUsers(cfg, rules, p, es, groups, envs, n), after[i].email)
  {
    hide BuiltUser, StatusOf, InviteOne, Added;
    if n > 0 {
      NewRowsAreOfCreated(cfg, rules, p, es, groups, envs, n - 1, a);
      var q := InviteEach(cfg, rules, p, es, groups, envs, n - 1);
      OneEntryRows(cfg, rules, q, es[n - 1], groups, envs(n - 1), a);
      var made, more :=
        CreatedUsers(cfg, rules, p, es, groups, envs, n - 1), Added(cfg, q.users, es[n - 1], groups, envs(n - 1));
      var mid, after :=
        RowsAt(cfg, rules, p, es, groups, envs, n - 1, a), RowsAt(cfg, rules, p, es, groups, envs, n, a);
      assert CreatedUsers(cfg, rules, p, es, groups, envs, n) == made + more;
      forall i | |p.apps[a].rows| <= i < |after|
        ensures EmailOf(made + more, after[i].email)
      {
        if i < |mid| {
          assert after[i] == mid[i];
          var v :| v in made && v.email == mid[i].email;
          assert v in made + more;
        } else {
          assert more[0] in made + more;
        }
      }
    }
  }

  /** Later entries leave the rows of earlier ones alone. */
  lemma {:induction false} RowsStay(cfg: Settings, rules: seq<seq<Rule>>, p: Portal, es: seq<InviteEntry>,
      groups: seq<string>, envs: nat -> Env, k: nat, n: nat, a: nat)
    requires |rules| == |p.apps| && k <= n <= |es| && a < |p.apps|
    ensures RowsAt(cfg, rules, p, es, groups, envs, k, a) <= RowsAt(cfg, rules, p, es, groups, envs, n, a)
  {
    hide BuiltUser, InviteOne, Added;
    if k < n {
      RowsStay(cfg, rules, p, es, groups, envs, k, n - 1, a);
      var q := InviteEach(cfg, rules, p, es, groups, envs, n - 1);
      OneEntryRows(cfg, rules, q, es[n - 1], groups, envs(n - 1), a);
    }
  }

  lemma ClashlessDiffers(us: seq<User>, u: User, v: User)
    requires !Clash(us, u) && v in us
    ensures v.email != ToLower(u.email)
  {
    LowerIdempotent(u.email);
    var i :| 0 <= i < |us| && us[i] == v;
    assert !Clashes(us[i], u);
  }

  /** An app that did not know a created account's email before the batch does not know it when its turn comes. */
  lemma NotYetKnown(cfg: Settings, rules: seq<seq<Rule>>, p: Portal, es: seq<InviteEntry>, groups: seq<string>,
      envs: nat -> Env, k: nat, u: User, a: nat)
    requires |rules| == |p.apps| && k < |es| && a < |p.apps|
    requires !Clash(InviteEach(cfg, rules, p, es, groups, envs, k).users, u)
    requires !HasEmail(p.apps[a].rows, ToLower(u.email))
    ensures !HasEmail(RowsAt(cfg, rules, p, es, groups, envs, k, a), ToLower(u.email))
  {
    hide BuiltUser, StatusOf, InviteOne, Added, CreatedUsers;
    var rows, x := RowsAt(cfg, rules, p, es, groups, envs, k, a), ToLower(u.email);
    NewRowsAreOfCreated(cfg, rules, p, es, groups, envs, k, a);
    StoreGrows(cfg, rules, p, es, groups, envs, k);
    var made := CreatedUsers(cfg, rules, p, es, groups, envs, k);
    ClashSplits(p.users, made, u);
    forall v | v in made
      ensures v.email != x
    {
      ClashlessDiffers(made, u, v);
    }
    assert forall i :: 0 <= i < |p.apps[a].rows| ==> rows[i] == p.apps[a].rows[i];
  }

  /**
   After a batch, every entry reported as created for which the app is in scope, whose email the app did
   not know before the batch, and whose two queries worked, has a new active account there with the
   granted role, whatever became of the other entries; and its result did not warn of the app.
   */
  lemma CreatedIsProvisioned(cfg: Settings, rules: seq<seq<Rule>>, p: Portal, es: seq<InviteEntry>,
      groups: seq<string>, envs: nat -> Env, k: nat, a: nat)
    requires |rules| == |p.apps| && k < |es| && a < |p.apps|
    requires StatusAt(cfg, rules, p, es, groups, envs, k).Created? && envs(k).look(a).Up? && envs(k).put(a).Up?
    requires var u := BuiltUser(cfg, es[k].email, es[k].displayName, groups).user;
             RoleOf(rules[a], u.groups) != "" && !HasEmail(p.apps[a].rows, ToLower(u.email))
    ensures var u := BuiltUser(cfg, es[k].email, es[k].displayName, groups).user;
            exists row :: row in RowsAt(cfg, rules, p, es, groups, envs, |es|, a)
              && HasAccount(row, u, RoleOf(rules[a], u.groups))
    ensures a !in WarningsAt(cfg, rules, p, es, groups, envs, k)
  {
    var u := BuiltUser(cfg, es[k].email, es[k].displayName, groups).user;
    var q := InviteEach(cfg, rules, p, es, groups, envs, k);
    NotYetKnown(cfg, rules, p, es, groups, envs, k, u, a);
    ClashIsTaken(q.users, u);
    InvitationInApp(rules, q, u, envs(k), a);
    RowsStay(cfg, rules, p, es, groups, envs, k + 1, |es|, a);
    var rows := RowsAt(cfg, rules, p, es, groups, envs, k + 1, a);
    var row := rows[|q.apps[a].rows|];
    assert row in RowsAt(cfg, rules, p, es, groups, envs, |es|, a);
  }
}
