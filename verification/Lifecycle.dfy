/**
 Accounts in the SSO store and in the apps: what one handler call does to both, and the agreement
 between them that every sequence of handler calls keeps, however the calls to the apps fail.
 */
module Lifecycle {
  import opened Text
  import opened YamlTree
  import opened UserFile
  import opened Accounts
  import opened Planka

  /** One app: its table, and the emails for which some call failed and none has succeeded since. */
  datatype App = App(rows: seq<Row>, dirty: set<string>)

  datatype Portal = Portal(users: seq<User>, apps: seq<App>)

  /** How the calls of one handler go: the store write, the read after or before it, and each app's queries. */
  datatype Env = Env(write: bool, read: bool, look: nat -> Link, put: nat -> Link)

  datatype Request = Invite(user: User) | SetGroups(username: string, groups: seq<string>) | Delete(username: string)

  function InviteeOf(u: User): Invitee {
    Invitee(u.username, u.displayName, u.email, u.groups)
  }

  // ----- one app -----

  function Invited(rules: seq<Rule>, app: App, u: User, look: Link, put: Link): App {
    var (rows, reply) := Provisioned(rules, app.rows, InviteeOf(u), look, put);
    App(rows, if !reply.Fine? then app.dirty + {ToLower(u.email)}
              else if RoleOf(rules, u.groups) != "" then app.dirty - {ToLower(u.email)} else app.dirty)
  }

  /** Sync, or Deprovision, which is a sync without a role. */
  function Reconciled(app: App, email: string, role: string, link: Link): App {
    var (rows, reply) := Updated(app.rows, email, role, link);
    App(rows, if reply.Fine? then app.dirty - {email} else app.dirty + {email})
  }

  function InvitedAll(rules: seq<seq<Rule>>, apps: seq<App>, u: User, env: Env): seq<App>
    requires |rules| == |apps|
  {
    seq(|apps|, a requires 0 <= a < |apps| => Invited(rules[a], apps[a], u, env.look(a), env.put(a)))
  }

  function SyncedAll(rules: seq<seq<Rule>>, apps: seq<App>, u: User, env: Env): seq<App>
    requires |rules| == |apps|
  {
    seq(|apps|, a requires 0 <= a < |apps| =>
      Reconciled(apps[a], ToLower(u.email), RoleOf(rules[a], u.groups), env.put(a)))
  }

  function DeprovisionedAll(apps: seq<App>, u: User, env: Env): seq<App> {
    seq(|apps|, a requires 0 <= a < |apps| => Reconciled(apps[a], ToLower(u.email), "", env.put(a)))
  }

  /** No app was told, and nobody is warned. */
  function SkippedAll(apps: seq<App>, u: User): seq<App> {
    seq(|apps|, a requires 0 <= a < |apps| => apps[a].(dirty := apps[a].dirty + {ToLower(u.email)}))
  }

  // ----- the handlers -----

  function DoInvite(rules: seq<seq<Rule>>, p: Portal, u: User, env: Env): Portal
    requires |rules| == |p.apps|
  {
    if !env.write || Clash(p.users, u) then p
    else Portal(p.users + [Stored(u)], InvitedAll(rules, p.apps, u, env))
  }

  /** When the store cannot be read back, the apps are not synced, although the edit is saved. */
  function DoSetGroups(rules: seq<seq<Rule>>, p: Portal, username: string, groups: seq<string>, env: Env): Portal
    requires |rules| == |p.apps|
  {
    var i := IndexOf(p.users, username);
    if !env.write || i == |p.users| then p
    else
      var users := EditList(UserFile.SetGroups(username, groups), p.users);
      Portal(users, if env.read then SyncedAll(rules, p.apps, users[i], env) else SkippedAll(p.apps, users[i]))
  }

  function DoDelete(p: Portal, username: string, env: Env): Portal {
    var i := IndexOf(p.users, username);
    if !env.read || !env.write || i == |p.users| then p
    else Portal(EditList(UserFile.Delete(username), p.users), DeprovisionedAll(p.apps, p.users[i], env))
  }

  function Handle(rules: seq<seq<Rule>>, p: Portal, r: Request, env: Env): (q: Portal)
    requires |rules| == |p.apps|
    ensures |q.apps| == |p.apps|
  {
    match r
    case Invite(u) => DoInvite(rules, p, u, env)
    case SetGroups(username, groups) => DoSetGroups(rules, p, username, groups, env)
    case Delete(username) => DoDelete(p, username, env)
  }

  function HandleAll(rules: seq<seq<Rule>>, p: Portal, rs: seq<(Request, Env)>): (q: Portal)
    requires |rules| == |p.apps|
    ensures |q.apps| == |p.apps|
  {
    if rs == [] then p
    else
      var n := |rs| - 1;
      Handle(rules, HandleAll(rules, p, rs[..n]), rs[n].0, rs[n].1)
  }

  // ----- agreement -----

  function IndexOfEmail(us: seq<User>, email: string): (i: nat)
    ensures i <= |us|
    ensures i < |us| ==> ToLower(us[i].email) == email
    ensures forall j :: 0 <= j < i ==> ToLower(us[j].email) != email
  {
    if us == [] || ToLower(us[0].email) == email then 0 else 1 + IndexOfEmail(us[1..], email)
  }

  /** The role an app should have for this email; empty if there is no such user or the app is out of scope. */
  function Wanted(rules: seq<Rule>, us: seq<User>, email: string): string {
    var i := IndexOfEmail(us, email);
    if i < |us| then RoleOf(rules, us[i].groups) else ""
  }

  /** Every row of this email is active exactly if a role is wanted, and then has that role. */
  predicate Agrees(rows: seq<Row>, email: string, role: string) {
    forall i :: 0 <= i < |rows| && rows[i].email == email ==>
      (!rows[i].deactivated <==> role != "") && (role != "" ==> rows[i].role == role)
  }

  ghost predicate AppAgrees(rules: seq<Rule>, us: seq<User>, app: App) {
    UniqueEmails(app.rows) && forall e :: e !in app.dirty ==> Agrees(app.rows, e, Wanted(rules, us, e))
  }

  ghost predicate Agreement(rules: seq<seq<Rule>>, p: Portal) {
    && |rules| == |p.apps| && CollisionFree(p.users)
    && forall a :: 0 <= a < |p.apps| ==> AppAgrees(rules[a], p.users, p.apps[a])
  }

  // ----- what each edit of the list does to what is wanted -----

  lemma EmailIndexIs(us: seq<User>, email: string, i: nat)
    requires CollisionFree(us) && i < |us| && ToLower(us[i].email) == email
    ensures IndexOfEmail(us, email) == i
  {
    var j := IndexOfEmail(us, email);
    if j != i {
      assert Collide(us[i], us[j]);
    }
  }

  lemma WantedAfterAdd(rules: seq<Rule>, us: seq<User>, u: User, e: string)
    requires !Clash(us, u)
    ensures var x := ToLower(u.email);
            && Wanted(rules, us, x) == ""
            && Wanted(rules, us + [Stored(u)], e) == if e == x then RoleOf(rules, u.groups) else Wanted(rules, us, e)
  {
    LowerIdempotent(u.email);
    var x, vs := ToLower(u.email), us + [Stored(u)];
    forall j | 0 <= j < |us|
      ensures ToLower(us[j].email) != x
    {
      assert !Clashes(us[j], u);
    }
    var i, k := IndexOfEmail(us, e), IndexOfEmail(vs, e);
    assert i < |us| ==> vs[i] == us[i];
    if e == x { assert ToLower(vs[|us|].email) == x; }
  }

  /** Reading back after an access edit finds the edited account. */
  lemma ReadBackFindsEdited(us: seq<User>, username: string, groups: seq<string>)
    ensures IndexOf(EditList(UserFile.SetGroups(username, groups), us), username) == IndexOf(us, username)
  {
    var vs := EditList(UserFile.SetGroups(username, groups), us);
    assert |vs| == |us| && forall j :: 0 <= j < |us| ==> vs[j].username == us[j].username;
  }

  lemma WantedAfterGroups(rules: seq<Rule>, us: seq<User>, i: nat, groups: seq<string>, e: string)
    requires CollisionFree(us) && i < |us|
    ensures var vs := us[i := us[i].(groups := groups)];
            Wanted(rules, vs, e) == if e == ToLower(us[i].email) then RoleOf(rules, groups) else Wanted(rules, us, e)
  {
    var vs := us[i := us[i].(groups := groups)];
    var k, l := IndexOfEmail(us, e), IndexOfEmail(vs, e);
    assert forall j :: 0 <= j < |us| ==> vs[j].email == us[j].email;
    assert k == l;
    if e == ToLower(us[i].email) { EmailIndexIs(us, e, i); }
  }

  lemma WantedAfterDelete(rules: seq<Rule>, us: seq<User>, i: nat, e: string)
    requires CollisionFree(us) && i < |us|
    ensures Wanted(rules, us[..i] + us[i + 1..], e) == if e == ToLower(us[i].email) then "" else Wanted(rules, us, e)
  {
    var vs := us[..i] + us[i + 1..];
    var k, l := IndexOfEmail(us, e), IndexOfEmail(vs, e);
    assert forall j :: 0 <= j < |vs| ==> vs[j] == us[if j < i then j else j + 1];
    if e == ToLower(us[i].email) {
      forall j | 0 <= j < |us| && ToLower(us[j].email) == e
        ensures j == i
      {
        EmailIndexIs(us, e, j);
        EmailIndexIs(us, e, i);
      }
    } else if k < |us| {
      assert vs[if k < i then k else k - 1] == us[k];
    }
  }

  // ----- what each app call does to agreement -----

  /** A successful Sync or Deprovision makes the app agree about this email, whatever it held before. */
  lemma ReconciledAgrees(rules: seq<Rule>, us: seq<User>, vs: seq<User>, app: App, email: string, role: string,
      link: Link)
    requires AppAgrees(rules, us, app)
    requires forall e :: Wanted(rules, vs, e) == if e == email then role else Wanted(rules, us, e)
    ensures AppAgrees(rules, vs, Reconciled(app, email, role, link))
    ensures link.Up? ==> email !in Reconciled(app, email, role, link).dirty
  {
    hide Wanted;
    var q := Reconciled(app, email, role, link);
    forall e | e !in q.dirty
      ensures Agrees(q.rows, e, Wanted(rules, vs, e))
    {
      if e != email { assert Agrees(app.rows, e, Wanted(rules, us, e)); }
    }
  }

  /** A failed or skipped call, or one out of scope, leaves the other emails as they were. */
  lemma InvitedAgrees(rules: seq<Rule>, us: seq<User>, u: User, app: App, look: Link, put: Link)
    requires AppAgrees(rules, us, app) && !Clash(us, u)
    ensures AppAgrees(rules, us + [Stored(u)], Invited(rules, app, u, look, put))
  {
    var x, vs := ToLower(u.email), us + [Stored(u)];
    var q, role := Invited(rules, app, u, look, put), RoleOf(rules, u.groups);
    forall e | e !in q.dirty
      ensures Agrees(q.rows, e, Wanted(rules, vs, e))
    {
      WantedAfterAdd(rules, us, u, e);
      if e != x || role == "" { assert Agrees(app.rows, e, Wanted(rules, us, e)); }
    }
  }

  lemma SkippedAgrees(rules: seq<Rule>, us: seq<User>, vs: seq<User>, app: App, email: string)
    requires AppAgrees(rules, us, app)
    requires forall e :: e != email ==> Wanted(rules, vs, e) == Wanted(rules, us, e)
    ensures AppAgrees(rules, vs, app.(dirty := app.dirty + {email}))
  {
  }

  // ----- the handlers keep agreement -----

  lemma EditKeepsCollisionFree(op: Op, us: seq<User>)
    requires CollisionFree(us) && (op.Add? ==> !Clash(us, op.user))
    ensures CollisionFree(EditList(op, us))
  {
    var origin := EditDescends(op, us);
    CollisionFreeKept(us, EditList(op, us), origin);
  }

  lemma InviteAgrees(rules: seq<seq<Rule>>, p: Portal, u: User, env: Env)
    requires Agreement(rules, p)
    ensures Agreement(rules, DoInvite(rules, p, u, env))
  {
    hide Wanted, AppAgrees, CollisionFree;
    var q := DoInvite(rules, p, u, env);
    if q != p {
      EditKeepsCollisionFree(Add(u, ""), p.users);
      forall a | 0 <= a < |q.apps|
        ensures AppAgrees(rules[a], q.users, q.apps[a])
      {
        InvitedAgrees(rules[a], p.users, u, p.apps[a], env.look(a), env.put(a));
      }
    }
  }

  lemma SetGroupsAgrees(rules: seq<seq<Rule>>, p: Portal, username: string, groups: seq<string>, env: Env)
    requires Agreement(rules, p)
    ensures Agreement(rules, DoSetGroups(rules, p, username, groups, env))
  {
    hide Wanted, AppAgrees, CollisionFree;
    var q, i := DoSetGroups(rules, p, username, groups, env), IndexOf(p.users, username);
    if env.write && i < |p.users| {
      EditKeepsCollisionFree(UserFile.SetGroups(username, groups), p.users);
      var x := ToLower(p.users[i].email);
      forall a | 0 <= a < |q.apps|
        ensures AppAgrees(rules[a], q.users, q.apps[a])
      {
        forall e
          ensures Wanted(rules[a], q.users, e) == if e == x then RoleOf(rules[a], groups)
            else Wanted(rules[a], p.users, e)
        {
          WantedAfterGroups(rules[a], p.users, i, groups, e);
        }
        if env.read {
          ReconciledAgrees(rules[a], p.users, q.users, p.apps[a], x, RoleOf(rules[a], groups), env.put(a));
        } else {
          SkippedAgrees(rules[a], p.users, q.users, p.apps[a], x);
        }
      }
    }
  }

  lemma DeleteAgrees(rules: seq<seq<Rule>>, p: Portal, username: string, env: Env)
    requires Agreement(rules, p)
    ensures Agreement(rules, DoDelete(p, username, env))
  {
    hide Wanted, AppAgrees, CollisionFree;
    var q, i := DoDelete(p, username, env), IndexOf(p.users, username);
    if env.read && env.write && i < |p.users| {
      EditKeepsCollisionFree(UserFile.Delete(username), p.users);
      var x := ToLower(p.users[i].email);
      forall a | 0 <= a < |q.apps|
        ensures AppAgrees(rules[a], q.users, q.apps[a])
      {
        forall e
          ensures Wanted(rules[a], q.users, e) == if e == x then "" else Wanted(rules[a], p.users, e)
        {
          WantedAfterDelete(rules[a], p.users, i, e);
        }
        ReconciledAgrees(rules[a], p.users, q.users, p.apps[a], x, "", env.put(a));
      }
    }
  }

  /**
   After any sequence of handler calls whose store and app calls fail arbitrarily, every app agrees
   with the store about every email that is not dirty.
   */
  lemma {:induction false} AgreementHolds(rules: seq<seq<Rule>>, p: Portal, rs: seq<(Request, Env)>)
    requires Agreement(rules, p)
    ensures Agreement(rules, HandleAll(rules, p, rs))
  {
    if rs != [] {
      var n := |rs| - 1;
      AgreementHolds(rules, p, rs[..n]);
      HandleAgrees(rules, HandleAll(rules, p, rs[..n]), rs[n].0, rs[n].1);
    }
  }

  /** At the beginning no app knows anybody. */
  lemma EmptyAppsAgree(rules: seq<seq<Rule>>, us: seq<User>)
    requires CollisionFree(us)
    ensures Agreement(rules, Portal(us, seq(|rules|, a => App([], {}))))
  {
  }

  /** What agreement says of a row and a user: active means entitled, and entitled means active, with that role. */
  lemma AgreementMeaning(rules: seq<seq<Rule>>, p: Portal, a: nat, i: nat)
    requires Agreement(rules, p) && a < |p.apps| && i < |p.apps[a].rows|
    requires p.apps[a].rows[i].email !in p.apps[a].dirty
    ensures var row := p.apps[a].rows[i];
            && (!row.deactivated ==>
                  exists j :: 0 <= j < |p.users| && ToLower(p.users[j].email) == row.email
                    && RoleOf(rules[a], p.users[j].groups) == row.role != "")
            && (forall j :: 0 <= j < |p.users| && ToLower(p.users[j].email) == row.email ==>
                  RoleOf(rules[a], p.users[j].groups) != "" ==>
                    !row.deactivated && row.role == RoleOf(rules[a], p.users[j].groups))
  {
    var row := p.apps[a].rows[i];
    var role := Wanted(rules[a], p.users, row.email);
    assert Agrees(p.apps[a].rows, row.email, role);
    if !row.deactivated {
      var j := IndexOfEmail(p.users, row.email);
      assert RoleOf(rules[a], p.users[j].groups) == row.role;
    }
    forall j | 0 <= j < |p.users| && ToLower(p.users[j].email) == row.email
      ensures role == RoleOf(rules[a], p.users[j].groups)
    {
      EmailIndexIs(p.users, row.email, j);
    }
  }

  /** Inviting somebody whose row is already there leaves the row as it is and reports that it exists. */
  lemma ReinviteChangesNothing(rules: seq<Rule>, app: App, u: User, put: Link)
    requires RoleOf(rules, u.groups) != "" && HasEmail(app.rows, ToLower(u.email))
    ensures Provisioned(rules, app.rows, InviteeOf(u), Up, put) == (app.rows, Exists)
    ensures Invited(rules, app, u, Up, put).rows == app.rows
      && ToLower(u.email) in Invited(rules, app, u, Up, put).dirty
  {
  }

  // ----- dirt -----

  /** Which of the first n apps Provision fails for. */
  function ProvisionWarnings(rules: seq<seq<Rule>>, apps: seq<App>, u: User, env: Env, n: nat): set<nat>
    requires n <= |apps| && |rules| == |apps|
  {
    set a: nat | a < n && !Provisioned(rules[a], apps[a].rows, InviteeOf(u), env.look(a), env.put(a)).1.Fine?
  }

  /** Which of the first n apps Sync or Deprovision fails for. */
  function LinkWarnings(env: Env, n: nat): set<nat> {
    set a: nat | a < n && !env.put(a).Up?
  }

  /** The indices of the apps whose call did not go well: the warnings shown. */
  function Warnings(rules: seq<seq<Rule>>, p: Portal, r: Request, env: Env): set<nat>
    requires |rules| == |p.apps|
  {
    match r
    case Invite(u) =>
      if Handle(rules, p, r, env).users == p.users then {} else ProvisionWarnings(rules, p.apps, u, env, |p.apps|)
    case SetGroups(username, groups) =>
      if !env.write || !env.read || IndexOf(p.users, username) == |p.users| then {} else LinkWarnings(env, |p.apps|)
    case Delete(username) =>
      if !env.write || !env.read || IndexOf(p.users, username) == |p.users| then {} else LinkWarnings(env, |p.apps|)
  }

  /** A saved access edit after which the store could not be read back. */
  predicate SilentlySkipped(p: Portal, r: Request, env: Env) {
    r.SetGroups? && env.write && !env.read && IndexOf(p.users, r.username) < |p.users|
  }

  /** Nothing gets dirty without a warning about that app, except that a silently skipped sync warns of nothing. */
  lemma DirtIsWarnedOf(rules: seq<seq<Rule>>, p: Portal, r: Request, env: Env, a: nat, e: string)
    requires |rules| == |p.apps| && a < |p.apps|
    requires e !in p.apps[a].dirty && e in Handle(rules, p, r, env).apps[a].dirty
    ensures a in Warnings(rules, p, r, env) <==> !SilentlySkipped(p, r, env)
    ensures SilentlySkipped(p, r, env) ==> Warnings(rules, p, r, env) == {}
  {
    match r
    case Invite(u) =>
      assert Handle(rules, p, r, env).users == p.users + [Stored(u)];
      assert |Handle(rules, p, r, env).users| != |p.users|;
    case SetGroups(username, groups) =>
    case Delete(username) =>
  }

  lemma HandleAgrees(rules: seq<seq<Rule>>, p: Portal, r: Request, env: Env)
    requires Agreement(rules, p)
    ensures Agreement(rules, Handle(rules, p, r, env))
  {
    match r
    case Invite(u) => InviteAgrees(rules, p, u, env);
    case SetGroups(username, groups) => SetGroupsAgrees(rules, p, username, groups, env);
    case Delete(username) => DeleteAgrees(rules, p, username, env);
  }

  /**
   If a request leaves an app's rows disagreeing with the store about an email that was in order, then
   the response warns of that app, or the read-back failed.
   */
  lemma DisagreementIsWarnedOf(rules: seq<seq<Rule>>, p: Portal, r: Request, env: Env, a: nat, e: string)
    requires Agreement(rules, p) && a < |p.apps| && e !in p.apps[a].dirty
    requires var q := Handle(rules, p, r, env); !Agrees(q.apps[a].rows, e, Wanted(rules[a], q.users, e))
    ensures a in Warnings(rules, p, r, env) <==> !SilentlySkipped(p, r, env)
  {
    HandleAgrees(rules, p, r, env);
    var q := Handle(rules, p, r, env);
    assert AppAgrees(rules[a], q.users, q.apps[a]);
    DirtIsWarnedOf(rules, p, r, env, a, e);
  }

  /**
   A failed read-back leaves an app out of step exactly if the app has a row for the user and the edit
   changes the role there; and then nobody is told.
   */
  lemma SkippedExactlyIf(rules: seq<seq<Rule>>, p: Portal, username: string, groups: seq<string>, env: Env, a: nat)
    requires Agreement(rules, p) && a < |p.apps| && SilentlySkipped(p, Request.SetGroups(username, groups), env)
    requires ToLower(p.users[IndexOf(p.users, username)].email) !in p.apps[a].dirty
    ensures var q, u := DoSetGroups(rules, p, username, groups, env), p.users[IndexOf(p.users, username)];
            var x := ToLower(u.email);
            Agrees(q.apps[a].rows, x, Wanted(rules[a], q.users, x)) <==>
              !HasEmail(p.apps[a].rows, x) || RoleOf(rules[a], groups) == RoleOf(rules[a], u.groups)
    ensures Warnings(rules, p, Request.SetGroups(username, groups), env) == {}
  {
    var i, q := IndexOf(p.users, username), DoSetGroups(rules, p, username, groups, env);
    var x, rows := ToLower(p.users[i].email), p.apps[a].rows;
    WantedAfterGroups(rules[a], p.users, i, groups, x);
    EmailIndexIs(p.users, x, i);
    assert Agrees(rows, x, RoleOf(rules[a], p.users[i].groups)) by { assert AppAgrees(rules[a], p.users, p.apps[a]); }
    assert q.apps[a].rows == rows;
  }

  /** So an access that was taken away can stay, with no warning. */
  lemma RevokedAccessStays(user: User, env: Env) returns (rules: seq<seq<Rule>>, p: Portal, q: Portal)
    requires env.write && !env.read && "planka-users" in user.groups
    ensures Agreement(rules, p) && p.users == [user] && |p.apps| == 1 && p.apps[0].dirty == {}
    ensures q == DoSetGroups(rules, p, user.username, [], env)
    ensures Wanted(rules[0], q.users, ToLower(user.email)) == ""
    ensures exists i ::
      && 0 <= i < |q.apps[0].rows| && q.apps[0].rows[i].email == ToLower(user.email)
      && !q.apps[0].rows[i].deactivated
    ensures Warnings(rules, p, Request.SetGroups(user.username, []), env) == {}
  {
    var rule := [Rule("planka-users", "boardUser")];
    var row := NewRow(InviteeOf(user), "boardUser");
    rules, p := [rule], Portal([user], [App([row], {})]);
    q := DoSetGroups(rules, p, user.username, [], env);
    var x := ToLower(user.email);
    assert FirstMatch(rule, user.groups) == 0 && FirstMatch(rule, []) == 1;
    forall e
      ensures Agrees([row], e, Wanted(rule, [user], e))
    {
      if e == x { EmailIndexIs([user], x, 0); }
    }
    WantedAfterGroups(rule, [user], 0, [], x);
    assert q.users == [user][0 := user.(groups := [])];
    assert q.apps[0].rows == [row] && q.apps[0].rows[0].email == x;
  }

  /** Under agreement a user outside an app's scope is left untouched by Deprovision, as documented. */
  lemma OutOfScopeUntouched(rules: seq<seq<Rule>>, p: Portal, i: nat, a: nat, link: Link)
    requires Agreement(rules, p) && i < |p.users| && a < |p.apps|
    requires RoleOf(rules[a], p.users[i].groups) == "" && ToLower(p.users[i].email) !in p.apps[a].dirty
    ensures Updated(p.apps[a].rows, ToLower(p.users[i].email), "", link).0 == p.apps[a].rows
  {
    var x := ToLower(p.users[i].email);
    EmailIndexIs(p.users, x, i);
    assert AppAgrees(rules[a], p.users, p.apps[a]);
    UntouchedExactlyIf(rules[a], p.apps[a].rows, InviteeOf(p.users[i]), link);
  }
}
