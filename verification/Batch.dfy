/**
 A batch of invitations is a greedy fold over its entries.
 */
module Batch {
  import opened Text
  import opened UserFile
  import opened Accounts
  import opened Planka
  import opened Lifecycle
  import opened Invite

  datatype Status = Created | Skipped | Failed

  /** What becomes of one entry, given the accounts at that point. */
  function StatusOf(cfg: Settings, us: seq<User>, e: InviteEntry, groups: seq<string>, env: Env): Status {
    match BuiltUser(cfg, e.email, e.displayName, groups)
    case Ready(u) => if !env.write then Status.Failed else if Clash(us, u) then Skipped else Created
    case _ => Status.Failed
  }

  function InviteOne(cfg: Settings, rules: seq<seq<Rule>>, p: Portal, e: InviteEntry, groups: seq<string>, env: Env)
    : (q: Portal)
    requires |rules| == |p.apps|
    ensures |q.apps| == |p.apps|
  {
    match BuiltUser(cfg, e.email, e.displayName, groups)
    case Ready(u) => DoInvite(rules, p, u, env)
    case _ => p
  }

  /** The portal after the first n entries; envs says how each entry's calls go. */
  function InviteEach(cfg: Settings, rules: seq<seq<Rule>>, p: Portal, es: seq<InviteEntry>, groups: seq<string>,
      envs: nat -> Env, n: nat)
    : (q: Portal)
    requires |rules| == |p.apps| && n <= |es|
    ensures |q.apps| == |p.apps|
  {
    if n == 0 then p
    else InviteOne(cfg, rules, InviteEach(cfg, rules, p, es, groups, envs, n - 1), es[n - 1], groups, envs(n - 1))
  }

  function StatusAt(cfg: Settings, rules: seq<seq<Rule>>, p: Portal, es: seq<InviteEntry>, groups: seq<string>,
      envs: nat -> Env, k: nat): Status
    requires |rules| == |p.apps| && k < |es|
  {
    StatusOf(cfg, InviteEach(cfg, rules, p, es, groups, envs, k).users, es[k], groups, envs(k))
  }

  /** The apps that the result of an entry warns of. */
  function WarningsOf(cfg: Settings, rules: seq<seq<Rule>>, p: Portal, e: InviteEntry, groups: seq<string>, env: Env)
    : set<nat>
    requires |rules| == |p.apps|
  {
    match BuiltUser(cfg, e.email, e.displayName, groups)
    case Ready(u) => Warnings(rules, p, Request.Invite(u), env)
    case _ => {}
  }

  function WarningsAt(cfg: Settings, rules: seq<seq<Rule>>, p: Portal, es: seq<InviteEntry>, groups: seq<string>,
      envs: nat -> Env, k: nat): set<nat>
    requires |rules| == |p.apps| && k < |es|
  {
    WarningsOf(cfg, rules, InviteEach(cfg, rules, p, es, groups, envs, k), es[k], groups, envs(k))
  }

  /** The account an entry adds, if it adds one. */
  function Added(cfg: Settings, us: seq<User>, e: InviteEntry, groups: seq<string>, env: Env): seq<User> {
    if StatusOf(cfg, us, e, groups, env).Created? then [Stored(BuiltUser(cfg, e.email, e.displayName, groups).user)]
    else []
  }

  /** The accounts created for the first n entries. */
  function CreatedUsers(cfg: Settings, rules: seq<seq<Rule>>, p: Portal, es: seq<InviteEntry>, groups: seq<string>,
      envs: nat -> Env, n: nat)
    : seq<User>
    requires |rules| == |p.apps| && n <= |es|
  {
    if n == 0 then []
    else
      CreatedUsers(cfg, rules, p, es, groups, envs, n - 1)
      + Added(cfg, InviteEach(cfg, rules, p, es, groups, envs, n - 1).users, es[n - 1], groups, envs(n - 1))
  }

  function CountCreated(statuses: seq<Status>): nat {
    if statuses == [] then 0
    else CountCreated(statuses[..|statuses| - 1]) + if statuses[|statuses| - 1].Created? then 1 else 0
  }

  function Statuses(cfg: Settings, rules: seq<seq<Rule>>, p: Portal, es: seq<InviteEntry>, groups: seq<string>,
      envs: nat -> Env, n: nat)
    : (r: seq<Status>)
    requires |rules| == |p.apps| && n <= |es|
    ensures |r| == n && forall k :: 0 <= k < n ==> r[k] == StatusAt(cfg, rules, p, es, groups, envs, k)
  {
    if n == 0 then []
    else Statuses(cfg, rules, p, es, groups, envs, n - 1) + [StatusAt(cfg, rules, p, es, groups, envs, n - 1)]
  }

  lemma OneStepUsers(cfg: Settings, rules: seq<seq<Rule>>, p: Portal, e: InviteEntry, groups: seq<string>, env: Env)
    requires |rules| == |p.apps|
    ensures InviteOne(cfg, rules, p, e, groups, env).users == p.users + Added(cfg, p.users, e, groups, env)
  {
  }

  /** The store ends up as it was plus the created accounts in order; it grows by exactly their number. */
  lemma {:induction false} StoreGrows(cfg: Settings, rules: seq<seq<Rule>>, p: Portal, es: seq<InviteEntry>,
      groups: seq<string>, envs: nat -> Env, n: nat)
    requires |rules| == |p.apps| && n <= |es|
    ensures InviteEach(cfg, rules, p, es, groups, envs, n).users
      == p.users + CreatedUsers(cfg, rules, p, es, groups, envs, n)
  {
    hide BuiltUser, StatusOf, InviteOne;
    if n > 0 {
      StoreGrows(cfg, rules, p, es, groups, envs, n - 1);
      var q := InviteEach(cfg, rules, p, es, groups, envs, n - 1);
      var made, more :=
        CreatedUsers(cfg, rules, p, es, groups, envs, n - 1), Added(cfg, q.users, es[n - 1], groups, envs(n - 1));
      OneStepUsers(cfg, rules, q, es[n - 1], groups, envs(n - 1));
      assert (p.users + made) + more == p.users + (made + more);
    }
  }

  lemma CountSnoc(s: seq<Status>, x: Status)
    ensures CountCreated(s + [x]) == CountCreated(s) + if x.Created? then 1 else 0
  {
    assert (s + [x])[..|s|] == s;
  }

  lemma AddedLength(cfg: Settings, us: seq<User>, e: InviteEntry, groups: seq<string>, env: Env)
    ensures |Added(cfg, us, e, groups, env)| == if StatusOf(cfg, us, e, groups, env).Created? then 1 else 0
  {
  }

  lemma {:induction false} CreatedAreCounted(cfg: Settings, rules: seq<seq<Rule>>, p: Portal, es: seq<InviteEntry>,
      groups: seq<string>, envs: nat -> Env, n: nat)
    requires |rules| == |p.apps| && n <= |es|
    ensures |CreatedUsers(cfg, rules, p, es, groups, envs, n)|
      == CountCreated(Statuses(cfg, rules, p, es, groups, envs, n))
  {
    hide BuiltUser, StatusOf, InviteEach, Added;
    if n > 0 {
      CreatedAreCounted(cfg, rules, p, es, groups, envs, n - 1);
      AddedLength(cfg, InviteEach(cfg, rules, p, es, groups, envs, n - 1).users, es[n - 1], groups, envs(n - 1));
      CountSnoc(Statuses(cfg, rules, p, es, groups, envs, n - 1), StatusAt(cfg, rules, p, es, groups, envs, n - 1));
    }
  }

  /** The store ends up as it was plus the created accounts in order; it grows by exactly their number. */
  lemma StoreGrowsByCreated(cfg: Settings, rules: seq<seq<Rule>>, p: Portal, es: seq<InviteEntry>,
      groups: seq<string>, envs: nat -> Env)
    requires |rules| == |p.apps|
    ensures var q := InviteEach(cfg, rules, p, es, groups, envs, |es|);
            && q.users == p.users + CreatedUsers(cfg, rules, p, es, groups, envs, |es|)
            && |q.users| == |p.users| + CountCreated(Statuses(cfg, rules, p, es, groups, envs, |es|))
  {
    StoreGrows(cfg, rules, p, es, groups, envs, |es|);
    CreatedAreCounted(cfg, rules, p, es, groups, envs, |es|);
  }

  lemma ClashSplits(us: seq<User>, vs: seq<User>, u: User)
    ensures Clash(us + vs, u) <==> Clash(us, u) || Clash(vs, u)
  {
    if Clash(us, u) {
      var i :| 0 <= i < |us| && Clashes(us[i], u);
      assert Clashes((us + vs)[i], u);
    }
    if Clash(vs, u) {
      var i :| 0 <= i < |vs| && Clashes(vs[i], u);
      assert Clashes((us + vs)[|us| + i], u);
    }
  }

  /**
   When the store works, an entry is created exactly if it is valid and clashes neither with an account
   there was before the batch nor with one created earlier in it, skipped exactly if it is valid and
   clashes, and failed otherwise; when the store does not work it is failed.
   */
  lemma CreatedExactlyIf(cfg: Settings, rules: seq<seq<Rule>>, p: Portal, es: seq<InviteEntry>, groups: seq<string>,
      envs: nat -> Env, k: nat)
    requires |rules| == |p.apps| && k < |es|
    ensures var b := BuiltUser(cfg, es[k].email, es[k].displayName, groups);
            StatusAt(cfg, rules, p, es, groups, envs, k) ==
              if !b.Ready? || !envs(k).write then Status.Failed
              else if Clash(p.users, b.user) || Clash(CreatedUsers(cfg, rules, p, es, groups, envs, k), b.user)
              then Skipped
              else Created
  {
    StoreGrows(cfg, rules, p, es, groups, envs, k);
    var b := BuiltUser(cfg, es[k].email, es[k].displayName, groups);
    if b.Ready? { ClashSplits(p.users, CreatedUsers(cfg, rules, p, es, groups, envs, k), b.user); }
  }

  /** An entry takes no clash away, and a valid one clashes with the store from then on. */
  lemma ClashesFromThenOn(cfg: Settings, rules: seq<seq<Rule>>, p: Portal, e: InviteEntry, groups: seq<string>,
      env: Env, u: User)
    requires |rules| == |p.apps|
    ensures Clash(p.users, u) ==> Clash(InviteOne(cfg, rules, p, e, groups, env).users, u)
    ensures env.write && BuiltUser(cfg, e.email, e.displayName, groups) == Ready(u) ==>
              Clash(InviteOne(cfg, rules, p, e, groups, env).users, u)
  {
    var b, after := BuiltUser(cfg, e.email, e.displayName, groups), InviteOne(cfg, rules, p, e, groups, env).users;
    if after != p.users {
      ClashSplits(p.users, [Stored(b.user)], u);
      if b.user == u { assert Clashes(after[|p.users|], u); }
    }
  }

  /** Every valid entry clashes with the store once it has been processed. */
  lemma {:induction false} ProcessedClashes(cfg: Settings, rules: seq<seq<Rule>>, p: Portal, es: seq<InviteEntry>,
      groups: seq<string>, envs: nat -> Env, n: nat, k: nat)
    requires |rules| == |p.apps| && k < n <= |es| && envs(k).write
    requires BuiltUser(cfg, es[k].email, es[k].displayName, groups).Ready?
    ensures Clash(InviteEach(cfg, rules, p, es, groups, envs, n).users,
      BuiltUser(cfg, es[k].email, es[k].displayName, groups).user)
  {
    var u := BuiltUser(cfg, es[k].email, es[k].displayName, groups).user;
    if k < n - 1 { ProcessedClashes(cfg, rules, p, es, groups, envs, n - 1, k); }
    ClashesFromThenOn(cfg, rules, InviteEach(cfg, rules, p, es, groups, envs, n - 1), es[n - 1], groups,
      envs(n - 1), u);
  }

  /** Every valid entry clashes with these accounts. */
  ghost predicate AllTaken(cfg: Settings, us: seq<User>, es: seq<InviteEntry>, groups: seq<string>) {
    forall e :: e in es && BuiltUser(cfg, e.email, e.displayName, groups).Ready? ==>
      Clash(us, BuiltUser(cfg, e.email, e.displayName, groups).user)
  }

  lemma {:induction false} TakenCreatesNobody(cfg: Settings, rules: seq<seq<Rule>>, p: Portal, es: seq<InviteEntry>,
      groups: seq<string>, envs: nat -> Env, n: nat)
    requires |rules| == |p.apps| && n <= |es| && AllTaken(cfg, p.users, es, groups)
    ensures InviteEach(cfg, rules, p, es, groups, envs, n) == p
    ensures forall k :: 0 <= k < n ==> !StatusAt(cfg, rules, p, es, groups, envs, k).Created?
  {
    hide BuiltUser;
    if n > 0 {
      TakenCreatesNobody(cfg, rules, p, es, groups, envs, n - 1);
      assert es[n - 1] in es;
    }
  }

  /** Submitting the same batch again creates nobody, whatever fails this time. */
  lemma ResubmittingCreatesNobody(cfg: Settings, rules: seq<seq<Rule>>, p: Portal, es: seq<InviteEntry>,
      groups: seq<string>, envs: nat -> Env, again: nat -> Env)
    requires |rules| == |p.apps| && forall k :: 0 <= k < |es| ==> envs(k).write
    ensures var q := InviteEach(cfg, rules, p, es, groups, envs, |es|);
            && InviteEach(cfg, rules, q, es, groups, again, |es|) == q
            && forall k :: 0 <= k < |es| ==> !StatusAt(cfg, rules, q, es, groups, again, k).Created?
  {
    var q := InviteEach(cfg, rules, p, es, groups, envs, |es|);
    forall e | e in es && BuiltUser(cfg, e.email, e.displayName, groups).Ready?
      ensures Clash(q.users, BuiltUser(cfg, e.email, e.displayName, groups).user)
    {
      var k :| 0 <= k < |es| && es[k] == e;
      ProcessedClashes(cfg, rules, p, es, groups, envs, |es|, k);
    }
    TakenCreatesNobody(cfg, rules, q, es, groups, again, |es|);
  }

  /** The agreement between the store and the apps survives a batch. */
  lemma {:induction false} BatchAgrees(cfg: Settings, rules: seq<seq<Rule>>, p: Portal, es: seq<InviteEntry>,
      groups: seq<string>, envs: nat -> Env, n: nat)
    requires Agreement(rules, p) && n <= |es|
    ensures Agreement(rules, InviteEach(cfg, rules, p, es, groups, envs, n))
  {
    if n > 0 {
      BatchAgrees(cfg, rules, p, es, groups, envs, n - 1);
      var b := BuiltUser(cfg, es[n - 1].email, es[n - 1].displayName, groups);
      if b.Ready? { InviteAgrees(rules, InviteEach(cfg, rules, p, es, groups, envs, n - 1), b.user, envs(n - 1)); }
    }
  }
}
