/**
 The three handlers that change accounts, as they run over the store and a list of provisioners.
 Their contracts are the functions of Lifecycle and Batch.
 */
module Server {
  import opened Text
  import opened UserFile
  import opened Accounts
  import opened Planka
  import opened Lifecycle
  import opened Invite
  import opened Batch

  /** One row of the batch summary; the warnings name apps by index. */
  datatype InviteResult = InviteResult(email: string, status: Status, warnings: set<nat>)

  datatype InviteReply = NoGroups | NoEntries | Summary(results: seq<InviteResult>, created: nat)

  datatype Page = Failure | Missing | Saved(warnings: set<nat>)

  function StatusesOf(results: seq<InviteResult>): (r: seq<Status>)
    ensures |r| == |results| && forall k :: 0 <= k < |r| ==> r[k] == results[k].status
  {
    seq(|results|, k requires 0 <= k < |results| => results[k].status)
  }

  lemma CreatedSnoc(results: seq<InviteResult>, r: InviteResult)
    ensures CountCreated(StatusesOf(results + [r]))
      == CountCreated(StatusesOf(results)) + if r.status.Created? then 1 else 0
  {
    CountSnoc(StatusesOf(results), r.status);
    assert StatusesOf(results + [r]) == StatusesOf(results) + [r.status];
  }

  lemma InviteSteps(cfg: Settings, rules: seq<seq<Rule>>, p: Portal, es: seq<InviteEntry>, groups: seq<string>,
      envs: nat -> Env, n: nat)
    requires |rules| == |p.apps| && n < |es|
    ensures InviteEach(cfg, rules, p, es, groups, envs, 0) == p
    ensures var q := InviteEach(cfg, rules, p, es, groups, envs, n);
            && InviteEach(cfg, rules, p, es, groups, envs, n + 1) == InviteOne(cfg, rules, q, es[n], groups, envs(n))
            && StatusAt(cfg, rules, p, es, groups, envs, n) == StatusOf(cfg, q.users, es[n], groups, envs(n))
            && WarningsAt(cfg, rules, p, es, groups, envs, n) == WarningsOf(cfg, rules, q, es[n], groups, envs(n))
  {
  }

  class Server {
    const cfg: Settings
    const configured: seq<string>
    const provs: seq<Provisioner>
    var users: seq<User>
    ghost var dirty: seq<set<string>>

    constructor (cfg: Settings, configured: seq<string>, provs: seq<Provisioner>, users: seq<User>)
      requires forall a, b :: 0 <= a < b < |provs| ==> provs[a] != provs[b]
      ensures Valid() && this.provs == provs && this.users == users
      ensures forall a :: 0 <= a < |provs| ==> dirty[a] == {}
    {
      this.cfg, this.configured, this.provs, this.users := cfg, configured, provs, users;
      this.dirty := seq(|provs|, a => {});
    }

    ghost predicate Valid()
      reads this
    {
      |dirty| == |provs| && forall a, b :: 0 <= a < b < |provs| ==> provs[a] != provs[b]
    }

    ghost function Rules(): (r: seq<seq<Rule>>)
      ensures |r| == |provs|
    {
      seq(|provs|, a requires 0 <= a < |provs| => provs[a].rules)
    }

    /** The tables of the provisioners, and the dirt. */
    ghost function Apps(): (r: seq<App>)
      reads this, provs
      requires Valid()
      ensures |r| == |provs| && forall a :: 0 <= a < |provs| ==> r[a] == App(provs[a].rows, dirty[a])
    {
      seq(|provs|, a requires 0 <= a < |provs| reads this, provs =>
        App(provs[a].rows, if a < |dirty| then dirty[a] else {}))
    }

    ghost function View(): Portal
      reads this, provs
      requires Valid()
    {
      Portal(users, Apps())
    }

    // ----- the loops over the provisioners -----

    method ProvisionAll(u: User, env: Env) returns (warnings: set<nat>)
      requires Valid()
      modifies `dirty, provs
      ensures Valid() && Apps() == InvitedAll(Rules(), old(Apps()), u, env)
      ensures warnings == ProvisionWarnings(Rules(), old(Apps()), u, env, |provs|)
    {
      ghost var before, after := Apps(), InvitedAll(Rules(), Apps(), u, env);
      warnings := {};
      for n := 0 to |provs|
        invariant Valid() && warnings == ProvisionWarnings(Rules(), before, u, env, n)
        invariant forall a :: 0 <= a < |provs| ==> App(provs[a].rows, dirty[a]) == if a < n then after[a] else before[a]
      {
        var reply := provs[n].Provision(InviteeOf(u), env.look(n), env.put(n));
        dirty := dirty[n := after[n].dirty];
        if !reply.Fine? { warnings := warnings + {n}; }
      }
    }

    method SyncAll(u: User, env: Env) returns (warnings: set<nat>)
      requires Valid()
      modifies `dirty, provs
      ensures Valid() && Apps() == SyncedAll(Rules(), old(Apps()), u, env)
      ensures warnings == LinkWarnings(env, |provs|)
    {
      ghost var before, after := Apps(), SyncedAll(Rules(), Apps(), u, env);
      warnings := {};
      for n := 0 to |provs|
        invariant Valid() && warnings == LinkWarnings(env, n)
        invariant forall a :: 0 <= a < |provs| ==> App(provs[a].rows, dirty[a]) == if a < n then after[a] else before[a]
      {
        var reply := provs[n].Sync(InviteeOf(u), env.put(n));
        dirty := dirty[n := after[n].dirty];
        if !reply.Fine? { warnings := warnings + {n}; }
      }
    }

    method DeprovisionAll(u: User, env: Env) returns (warnings: set<nat>)
      requires Valid()
      modifies `dirty, provs
      ensures Valid() && Apps() == DeprovisionedAll(old(Apps()), u, env)
      ensures warnings == LinkWarnings(env, |provs|)
    {
      ghost var before, after := Apps(), DeprovisionedAll(Apps(), u, env);
      warnings := {};
      for n := 0 to |provs|
        invariant Valid() && warnings == LinkWarnings(env, n)
        invariant forall a :: 0 <= a < |provs| ==> App(provs[a].rows, dirty[a]) == if a < n then after[a] else before[a]
      {
        var reply := provs[n].Deprovision(InviteeOf(u), env.put(n));
        dirty := dirty[n := after[n].dirty];
        if !reply.Fine? { warnings := warnings + {n}; }
      }
    }

    // ----- the handlers -----

    /** One entry: build the user, write the store, then provision. */
    method InviteOneEntry(e: InviteEntry, groups: seq<string>, env: Env) returns (r: InviteResult)
      requires Valid()
      modifies this, provs
      ensures Valid() && View() == InviteOne(cfg, Rules(), old(View()), e, groups, env)
      ensures r.email == e.email && r.status == StatusOf(cfg, old(View()).users, e, groups, env)
      ensures |users| == |old(users)| + if r.status.Created? then 1 else 0
      ensures r.warnings == WarningsOf(cfg, Rules(), old(View()), e, groups, env)
    {
      var built := BuildInviteUser(cfg, e.email, e.displayName, groups);
      if !built.Ready? || !env.write { return InviteResult(e.email, Status.Failed, {}); }
      var clash := Clash(users, built.user);
      if clash { return InviteResult(e.email, Skipped, {}); }
      ghost var before := View();
      users := users + [Stored(built.user)];
      assert |users| != |before.users|;
      var warnings := ProvisionAll(built.user, env);
      r := InviteResult(e.email, Created, warnings);
    }

    /** The loop over the entries; a failing entry never undoes an earlier one. */
    method InviteAll(entries: seq<InviteEntry>, groups: seq<string>, envs: nat -> Env)
      returns (results: seq<InviteResult>, created: nat)
      requires Valid()
      modifies this, provs
      ensures Valid() && View() == InviteEach(cfg, Rules(), old(View()), entries, groups, envs, |entries|)
      ensures Tells(old(View()), entries, groups, envs, results, |entries|)
      ensures created == CountCreated(StatusesOf(results)) == |users| - |old(users)|
    {
      hide BuiltUser, StatusOf, InviteOne, StatusAt, WarningsOf, WarningsAt, Apps, Rules;
      results, created := [], 0;
      ghost var before := View();
      for n := 0 to |entries|
        invariant Valid() && View() == InviteEach(cfg, Rules(), before, entries, groups, envs, n)
        invariant Tells(before, entries, groups, envs, results, n)
        invariant created == CountCreated(StatusesOf(results)) == |users| - |before.users|
      {
        InviteSteps(cfg, Rules(), before, entries, groups, envs, n);
        var result := InviteOneEntry(entries[n], groups, envs(n));
        CreatedSnoc(results, result);
        if result.status.Created? { created := created + 1; }
        results := results + [result];
      }
    }

    /** The first n results say what became of the first n entries, and which apps each is warned of. */
    ghost predicate Tells(p: Portal, es: seq<InviteEntry>, groups: seq<string>, envs: nat -> Env,
        results: seq<InviteResult>, n: nat)
      requires |p.apps| == |provs| && n <= |es|
    {
      |results| == n && forall k :: 0 <= k < n ==>
        && results[k].email == es[k].email && results[k].status == StatusAt(cfg, Rules(), p, es, groups, envs, k)
        && results[k].warnings == WarningsAt(cfg, Rules(), p, es, groups, envs, k)
    }

    /** The batch: nothing happens without a group and an entry; one result for each entry otherwise. */
    method HandleInvite(raw: string, posted: seq<string>, envs: nat -> Env) returns (r: InviteReply)
      requires Valid()
      modifies this, provs
      ensures Valid()
      ensures r.NoGroups? <==> forall g :: g in posted ==> g !in configured
      ensures r.Summary? <==> Parsed(Split(raw, '\n')) != [] && !r.NoGroups?
      ensures !r.Summary? ==> View() == old(View())
      ensures r.Summary? ==> exists groups :: BatchDone(old(View()), Parsed(Split(raw, '\n')), groups, posted, envs, r)
    {
      hide Parsed, Split, Ordered, Tells, CountCreated, StatusesOf, InviteEach, Apps, Rules;
      var groups := SelectedGroups(configured, posted);
      var entries := ParseInviteLines(raw);
      GroupsChosen(groups, posted);
      if |groups| == 0 { return NoGroups; }
      if |entries| == 0 { return NoEntries; }
      var results, created := InviteAll(entries, groups, envs);
      r := Summary(results, created);
      assert BatchDone(old(View()), entries, groups, posted, envs, r);
    }

    lemma GroupsChosen(groups: seq<string>, posted: seq<string>)
      requires forall g :: multiset(groups)[g] == if g in configured then multiset(posted)[g] else 0
      ensures groups == [] <==> forall g :: g in posted ==> g !in configured
    {
      forall g | g in posted && g in configured
        ensures groups != []
      {
        assert g in multiset(posted) && g in multiset(groups);
      }
      if groups != [] { assert groups[0] in multiset(groups) && groups[0] in multiset(posted); }
    }

    /** The state and the summary after a batch with the configured ones of the posted groups, sorted. */
    ghost predicate BatchDone(before: Portal, es: seq<InviteEntry>, groups: seq<string>, posted: seq<string>,
        envs: nat -> Env, r: InviteReply)
      requires Valid() && |before.apps| == |provs|
      reads this, provs
    {
      && Ordered(groups) && (forall g :: multiset(groups)[g] == if g in configured then multiset(posted)[g] else 0)
      && View() == InviteEach(cfg, Rules(), before, es, groups, envs, |es|)
      && r.Summary? && Tells(before, es, groups, envs, r.results, |es|)
      && r.created == CountCreated(StatusesOf(r.results)) == |users| - |before.users|
    }

    /** The access edit: store first, then the apps. If the store cannot be read back, neither sync nor warning. */
    method HandleSetGroups(username: string, groups: seq<string>, env: Env) returns (r: Page)
      requires Valid()
      modifies this, provs
      ensures Valid() && View() == DoSetGroups(Rules(), old(View()), username, groups, env)
      ensures r.Saved? <==> env.write && IndexOf(old(users), username) < |old(users)|
      ensures r.Saved? ==> r.warnings == Warnings(Rules(), old(View()), Request.SetGroups(username, groups), env)
    {
      if !env.write { return Failure; }
      var i := IndexOf(users, username);
      if i == |users| { return Failure; }
      ReadBackFindsEdited(users, username, groups);
      users := EditList(UserFile.SetGroups(username, groups), users);
      var j := IndexOf(users, username);
      if !env.read {
        ghost var was, email := dirty, ToLower(users[j].email);
        dirty := seq(|was|, a requires 0 <= a < |was| => was[a] + {email});
        return Saved({});
      }
      var warnings := SyncAll(users[j], env);
      r := Saved(warnings);
    }

    /** Offboarding: look the user up, sever the SSO entry, then deactivate in the apps. */
    method HandleDelete(username: string, env: Env) returns (r: Page)
      requires Valid()
      modifies this, provs
      ensures Valid() && View() == DoDelete(old(View()), username, env)
      ensures r.Saved? <==> env.read && env.write && IndexOf(old(users), username) < |old(users)|
      ensures r.Saved? ==> r.warnings == Warnings(Rules(), old(View()), Request.Delete(username), env)
    {
      if !env.read { return Missing; }
      var i := IndexOf(users, username);
      if i == |users| { return Missing; }
      var u := users[i];
      if !env.write { return Failure; }
      users := EditList(UserFile.Delete(username), users);
      var warnings := DeprovisionAll(u, env);
      r := Saved(warnings);
    }
  }
}
