/**
 Any number of Provision calls, each of them its look and its insert as separate steps, interleaved
 with Sync and Deprovision calls on the same table.
 */
module Races {
  import opened Text
  import opened YamlTree
  import opened Planka

  /** Where a Provision call is; put tells whether its insert added a row. */
  datatype Stage = Asked | Cleared | Ended(reply: Reply, put: bool)

  datatype Call = Call(user: Invitee, stage: Stage)

  datatype Table = Table(rows: seq<Row>, calls: map<nat, Call>)

  datatype Event =
    | Ask(c: nat, user: Invitee)
    | Look(c: nat, link: Link)
    | Put(c: nat, link: Link)
    | Sync(user: Invitee, link: Link)
    | Deprovision(user: Invitee, link: Link)

  predicate Possible(t: Table, e: Event) {
    match e
    case Ask(c, _) => c !in t.calls
    case Look(c, _) => c in t.calls && t.calls[c].stage.Asked?
    case Put(c, _) => c in t.calls && t.calls[c].stage.Cleared?
    case _ => true
  }

  function Email(k: Call): string {
    ToLower(k.user.email)
  }

  function Advance(t: Table, c: nat, stage: Stage): Table
    requires c in t.calls
  {
    t.(calls := t.calls[c := t.calls[c].(stage := stage)])
  }

  function DoPut(rules: seq<Rule>, t: Table, c: nat, link: Link): Table
    requires Possible(t, Put(c, link))
  {
    var row := NewRow(t.calls[c].user, RoleOf(rules, t.calls[c].user.groups));
    if link.Down? then Advance(t, c, Ended(DbError, false))
    else if HasEmail(t.rows, row.email) then Advance(t, c, Ended(if link.Up? then Exists else DbError, false))
    else Advance(t, c, Ended(if link.Up? then Fine else DbError, true)).(rows := Insert(t.rows, row))
  }

  function Do(rules: seq<Rule>, t: Table, e: Event): Table
    requires Possible(t, e)
  {
    match e
    case Ask(c, user) =>
      t.(calls := t.calls[c := Call(user, if RoleOf(rules, user.groups) == "" then Ended(Fine, false) else Asked)])
    case Look(c, link) =>
      Advance(t, c, if !link.Up? then Ended(DbError, false)
                    else if HasEmail(t.rows, Email(t.calls[c])) then Ended(Exists, false) else Cleared)
    case Put(c, link) => DoPut(rules, t, c, link)
    case Sync(user, link) => t.(rows := Updated(t.rows, ToLower(user.email), RoleOf(rules, user.groups), link).0)
    case Deprovision(user, link) => t.(rows := Updated(t.rows, ToLower(user.email), "", link).0)
  }

  predicate Legal(rules: seq<Rule>, t: Table, es: seq<Event>)
    decreases es, 0
  {
    es == [] ||
    var n := |es| - 1;
    Legal(rules, t, es[..n]) && Possible(After(rules, t, es[..n]), es[n])
  }

  function After(rules: seq<Rule>, t: Table, es: seq<Event>): Table
    requires Legal(rules, t, es)
    decreases es, 1
  {
    if es == [] then t
    else
      var n := |es| - 1;
      Do(rules, After(rules, t, es[..n]), es[n])
  }

  /** Run the rest of a call with nobody in between. */
  function Finish(rules: seq<Rule>, t: Table, c: nat, look: Link, put: Link): Table
    requires c in t.calls
    decreases if t.calls[c].stage.Asked? then 2 else if t.calls[c].stage.Cleared? then 1 else 0
  {
    match t.calls[c].stage
    case Asked => Finish(rules, Do(rules, t, Look(c, look)), c, look, put)
    case Cleared => Finish(rules, Do(rules, t, Put(c, put)), c, look, put)
    case Ended(_, _) => t
  }

  /** The whole of Provision is its steps with nobody in between. */
  lemma ProvisionIsItsSteps(rules: seq<Rule>, t: Table, c: nat, u: Invitee, look: Link, put: Link)
    requires c !in t.calls
    ensures var f := Finish(rules, Do(rules, t, Ask(c, u)), c, look, put);
            && c in f.calls && f.calls[c].stage.Ended?
            && (f.rows, f.calls[c].stage.reply) == Provisioned(rules, t.rows, u, look, put)
  {
    var asked := Do(rules, t, Ask(c, u));
    if asked.calls[c].stage.Asked? {
      var looked := Do(rules, asked, Look(c, look));
      if looked.calls[c].stage.Cleared? {
        var done := Do(rules, looked, Put(c, put));
        assert done.calls[c].stage.Ended?;
        assert Finish(rules, looked, c, look, put) == done;
      }
      assert Finish(rules, asked, c, look, put) == Finish(rules, looked, c, look, put);
    }
  }

  // ----- what no step takes away -----

  /** The same account, with a role that is unchanged or valid. */
  predicate SameAccount(a: Row, b: Row) {
    && b.email == a.email && b.name == a.name && b.username == a.username && b.password == a.password
    && b.ssoUser == a.ssoUser && b.prefs == a.prefs
    && (b.role == a.role || b.role in VALID_ROLES)
  }

  /** A row the portal wrote: no password, a valid role, a lowercase email, Planka's own preferences. */
  predicate PortalRow(r: Row) {
    r.password.None? && r.ssoUser && r.role in VALID_ROLES && ToLower(r.email) == r.email && r.prefs == NEW_ACCOUNT
  }

  /** No row is lost, none becomes another account, and every added row is the portal's. */
  predicate Keeps(rows: seq<Row>, more: seq<Row>) {
    && |rows| <= |more|
    && (forall i :: 0 <= i < |rows| ==> SameAccount(rows[i], more[i]))
    && (forall i :: |rows| <= i < |more| ==> PortalRow(more[i]))
  }

  lemma UpdateKeeps(rules: seq<Rule>, rows: seq<Row>, email: string, groups: seq<string>)
    requires ValidRules(rules)
    ensures Keeps(rows, Update(rows, email, RoleOf(rules, groups))) && Keeps(rows, Update(rows, email, ""))
  {
    RoleOfMeaning(rules, groups);
  }

  lemma StepKeeps(rules: seq<Rule>, t: Table, e: Event)
    requires ValidRules(rules) && Possible(t, e)
    requires forall c :: c in t.calls && t.calls[c].stage.Cleared? ==> RoleOf(rules, t.calls[c].user.groups) != ""
    ensures Keeps(t.rows, Do(rules, t, e).rows)
    ensures UniqueEmails(t.rows) ==> UniqueEmails(Do(rules, t, e).rows)
  {
    match e
    case Put(c, link) =>
      RoleOfMeaning(rules, t.calls[c].user.groups);
      LowerIdempotent(t.calls[c].user.email);
    case Sync(user, link) => UpdateKeeps(rules, t.rows, ToLower(user.email), user.groups);
    case Deprovision(user, link) => UpdateKeeps(rules, t.rows, ToLower(user.email), user.groups);
    case _ =>
  }

  lemma KeepsTransitive(a: seq<Row>, b: seq<Row>, c: seq<Row>)
    requires Keeps(a, b) && Keeps(b, c)
    ensures Keeps(a, c)
  {
    forall i | 0 <= i < |a|
      ensures SameAccount(a[i], c[i])
    {
      assert SameAccount(a[i], b[i]) && SameAccount(b[i], c[i]);
    }
    forall i | |a| <= i < |c|
      ensures PortalRow(c[i])
    {
      if i < |b| { assert PortalRow(b[i]) && SameAccount(b[i], c[i]); }
    }
  }

  /** Calls that are not over yet are in the app's scope. */
  ghost predicate InScope(rules: seq<Rule>, calls: map<nat, Call>) {
    forall c :: c in calls && !calls[c].stage.Ended? ==> RoleOf(rules, calls[c].user.groups) != ""
  }

  /** Any interleaving: rows are never removed or turned into other accounts, and emails stay unique. */
  lemma {:induction false} TableOnlyGrows(rules: seq<Rule>, t: Table, es: seq<Event>)
    requires ValidRules(rules) && t.calls == map[] && UniqueEmails(t.rows) && Legal(rules, t, es)
    ensures var u := After(rules, t, es);
            Keeps(t.rows, u.rows) && UniqueEmails(u.rows) && InScope(rules, u.calls)
  {
    if es != [] {
      var n := |es| - 1;
      var s := After(rules, t, es[..n]);
      TableOnlyGrows(rules, t, es[..n]);
      StepKeeps(rules, s, es[n]);
      StepInScope(rules, s, es[n]);
      KeepsTransitive(t.rows, s.rows, Do(rules, s, es[n]).rows);
    }
  }

  lemma StepInScope(rules: seq<Rule>, t: Table, e: Event)
    requires InScope(rules, t.calls) && Possible(t, e)
    ensures InScope(rules, Do(rules, t, e).calls)
  {
  }

  // ----- one fresh email -----

  predicate Won(t: Table, c: nat) {
    c in t.calls && t.calls[c].stage.Ended? && t.calls[c].stage.put
  }

  predicate RowOf(row: Row, u: Invitee) {
    row.email == ToLower(u.email) && row.name == u.displayName && row.username == u.username
  }

  /** One of the rows from n on is this user's. */
  ghost predicate HasRow(rows: seq<Row>, n: nat, u: Invitee) {
    exists i :: n <= i < |rows| && RowOf(rows[i], u)
  }

  /** Some winner's values are in this row. */
  ghost predicate HasWinner(t: Table, row: Row) {
    exists c :: Won(t, c) && RowOf(row, t.calls[c].user)
  }

  /** Every winner has its row, no two winners share an email, and every added row has a winner. */
  ghost predicate Settled(n: nat, t: Table) {
    && n <= |t.rows|
    && (forall c :: Won(t, c) ==> HasRow(t.rows, n, t.calls[c].user))
    && (forall c, d :: Won(t, c) && Won(t, d) && Email(t.calls[c]) == Email(t.calls[d]) ==> c == d)
    && (forall i :: n <= i < |t.rows| ==> HasWinner(t, t.rows[i]))
  }

  /** What each call was told is true: success is a row put by it, and "exists" is a row that is there. */
  ghost predicate Honest(rules: seq<Rule>, t: Table) {
    forall c :: c in t.calls && t.calls[c].stage.Ended? ==>
      var k := t.calls[c];
      && (k.stage.reply.Fine? ==> k.stage.put || RoleOf(rules, k.user.groups) == "")
      && (k.stage.reply.Exists? ==> !k.stage.put && HasEmail(t.rows, Email(k)))
      && (k.stage.put ==> HasEmail(t.rows, Email(k)))
  }

  lemma KeepsHasEmail(rows: seq<Row>, more: seq<Row>, email: string)
    requires Keeps(rows, more) && HasEmail(rows, email)
    ensures HasEmail(more, email)
  {
    var i :| 0 <= i < |rows| && rows[i].email == email;
    assert more[i].email == email;
  }

  /** Nobody wins or loses, and rows stay what they are. */
  lemma SettledStays(n: nat, t: Table, u: Table)
    requires Settled(n, t)
    requires |u.rows| == |t.rows| && forall i :: 0 <= i < |t.rows| ==> SameAccount(t.rows[i], u.rows[i])
    requires forall c :: Won(u, c) <==> Won(t, c)
    requires forall c :: Won(t, c) && Won(u, c) ==> u.calls[c].user == t.calls[c].user
    ensures Settled(n, u)
  {
    forall c | Won(u, c)
      ensures HasRow(u.rows, n, u.calls[c].user)
    {
      var i :| n <= i < |t.rows| && RowOf(t.rows[i], t.calls[c].user);
      assert SameAccount(t.rows[i], u.rows[i]);
    }
    forall i | n <= i < |u.rows|
      ensures HasWinner(u, u.rows[i])
    {
      assert HasWinner(t, t.rows[i]) && SameAccount(t.rows[i], u.rows[i]);
      var c :| Won(t, c) && RowOf(t.rows[i], t.calls[c].user);
      assert Won(u, c) && RowOf(u.rows[i], u.calls[c].user);
    }
  }

  /** One call wins with a row of an email that nobody had. */
  lemma SettledGrows(n: nat, t: Table, u: Table, c: nat, row: Row)
    requires Settled(n, t) && u.rows == t.rows + [row]
    requires c in t.calls && !Won(t, c) && RowOf(row, t.calls[c].user)
    requires Won(u, c) && u.calls == t.calls[c := u.calls[c]] && u.calls[c].user == t.calls[c].user
    requires forall d :: Won(t, d) ==> Email(t.calls[d]) != row.email
    ensures Settled(n, u)
  {
    assert forall d :: d != c ==> (Won(u, d) <==> Won(t, d));
    forall d | Won(u, d)
      ensures HasRow(u.rows, n, u.calls[d].user)
    {
      if d == c {
        assert RowOf(u.rows[|t.rows|], u.calls[c].user);
      } else {
        var i :| n <= i < |t.rows| && RowOf(t.rows[i], t.calls[d].user);
        assert u.rows[i] == t.rows[i];
      }
    }
    forall i | n <= i < |u.rows|
      ensures HasWinner(u, u.rows[i])
    {
      if i < |t.rows| {
        assert HasWinner(t, t.rows[i]);
        var d :| Won(t, d) && RowOf(t.rows[i], t.calls[d].user);
        assert Won(u, d) && u.rows[i] == t.rows[i];
      }
    }
  }

  lemma QuietSettles(rules: seq<Rule>, n: nat, t: Table, e: Event)
    requires ValidRules(rules) && InScope(rules, t.calls) && Settled(n, t) && Possible(t, e) && !e.Put?
    ensures Settled(n, Do(rules, t, e))
  {
    StepKeeps(rules, t, e);
    SettledStays(n, t, Do(rules, t, e));
  }

  lemma PutSettles(rules: seq<Rule>, n: nat, t: Table, c: nat, link: Link)
    requires Settled(n, t) && Honest(rules, t) && Possible(t, Put(c, link))
    ensures Settled(n, DoPut(rules, t, c, link))
  {
    var u := DoPut(rules, t, c, link);
    var row := NewRow(t.calls[c].user, RoleOf(rules, t.calls[c].user.groups));
    if link.Down? || HasEmail(t.rows, row.email) {
      SettledStays(n, t, u);
    } else {
      forall d | Won(t, d)
        ensures Email(t.calls[d]) != row.email
      {
        assert HasEmail(t.rows, Email(t.calls[d]));
      }
      SettledGrows(n, t, u, c, row);
    }
  }

  lemma StepHonest(rules: seq<Rule>, t: Table, e: Event)
    requires ValidRules(rules) && InScope(rules, t.calls) && Honest(rules, t) && Possible(t, e)
    ensures Honest(rules, Do(rules, t, e))
  {
    var u := Do(rules, t, e);
    StepKeeps(rules, t, e);
    forall c | c in t.calls && HasEmail(t.rows, Email(t.calls[c]))
      ensures HasEmail(u.rows, Email(t.calls[c]))
    {
      KeepsHasEmail(t.rows, u.rows, Email(t.calls[c]));
    }
    if e.Put? && u.rows != t.rows { assert u.rows[|t.rows|].email == Email(t.calls[e.c]); }
  }

  lemma {:induction false} RaceInv(rules: seq<Rule>, t: Table, es: seq<Event>)
    requires ValidRules(rules) && t.calls == map[] && UniqueEmails(t.rows) && Legal(rules, t, es)
    ensures Settled(|t.rows|, After(rules, t, es)) && Honest(rules, After(rules, t, es))
  {
    if es != [] {
      var n := |es| - 1;
      var s := After(rules, t, es[..n]);
      RaceInv(rules, t, es[..n]);
      TableOnlyGrows(rules, t, es[..n]);
      StepHonest(rules, s, es[n]);
      if es[n].Put? { PutSettles(rules, |t.rows|, s, es[n].c, es[n].link); }
      else { QuietSettles(rules, |t.rows|, s, es[n]); }
    }
  }

  lemma FreshRow(start: seq<Row>, t: Table, email: string) returns (i: nat, w: nat)
    requires Settled(|start|, t) && Keeps(start, t.rows) && UniqueEmails(t.rows)
    requires HasEmail(t.rows, email) && !HasEmail(start, email)
    ensures i >= |start| && SoleRow(t, email, i, w)
  {
    i :| 0 <= i < |t.rows| && t.rows[i].email == email;
    assert HasWinner(t, t.rows[i]);
    w :| Won(t, w) && RowOf(t.rows[i], t.calls[w].user);
  }

  /** No Sync or Deprovision concerns this email. */
  predicate Unsynced(es: seq<Event>, email: string) {
    forall e :: e in es && (e.Sync? || e.Deprovision?) ==> ToLower(e.user.email) != email
  }

  /** Some winner put exactly this row. */
  ghost predicate AsPut(rules: seq<Rule>, t: Table, row: Row) {
    exists c :: Won(t, c) && row == NewRow(t.calls[c].user, RoleOf(rules, t.calls[c].user.groups))
  }

  lemma AsPutStays(rules: seq<Rule>, t: Table, e: Event, row: Row)
    requires Possible(t, e) && AsPut(rules, t, row)
    ensures AsPut(rules, Do(rules, t, e), row)
  {
    hide RoleOf, HasEmail;
    var c :| Won(t, c) && row == NewRow(t.calls[c].user, RoleOf(rules, t.calls[c].user.groups));
    assert Won(Do(rules, t, e), c);
  }

  /** A step leaves a row alone, or puts it as its winner asks, unless it syncs the row's email. */
  lemma RowStep(rules: seq<Rule>, t: Table, e: Event, i: nat)
    requires Possible(t, e) && i < |Do(rules, t, e).rows|
    requires (e.Sync? || e.Deprovision?) ==> ToLower(e.user.email) != Do(rules, t, e).rows[i].email
    ensures if i < |t.rows| then Do(rules, t, e).rows[i] == t.rows[i]
      else AsPut(rules, Do(rules, t, e), Do(rules, t, e).rows[i])
  {
    hide RoleOf;
    if e.Put? && i == |t.rows| { assert Won(Do(rules, t, e), e.c); }
  }

  /** An added row that no Sync or Deprovision concerns is exactly as it was put. */
  lemma {:induction false} UnsyncedRowsAreAsPut(rules: seq<Rule>, t: Table, es: seq<Event>, i: nat)
    requires Legal(rules, t, es) && |t.rows| <= i < |After(rules, t, es).rows|
    requires Unsynced(es, After(rules, t, es).rows[i].email)
    ensures AsPut(rules, After(rules, t, es), After(rules, t, es).rows[i])
  {
    if es != [] {
      var n := |es| - 1;
      var s, e := After(rules, t, es[..n]), es[n];
      assert e in es && forall x :: x in es[..n] ==> x in es;
      RowStep(rules, s, e, i);
      if i < |s.rows| {
        UnsyncedRowsAreAsPut(rules, t, es[..n], i);
        AsPutStays(rules, s, e, s.rows[i]);
      }
    }
  }

  /**
   Concurrent invitations of one fresh email: as soon as any insert for it has been executed, there
   is exactly one row for it, put by exactly one call, whose name and username it carries, and as long as
   no Sync or Deprovision concerns the email its role and everything else too. Every other in-scope
   call is told that the account exists, or that it failed, never that it succeeded.
   */
  lemma OneRowOneWinner(rules: seq<Rule>, t: Table, es: seq<Event>, c: nat)
    requires ValidRules(rules) && t.calls == map[] && UniqueEmails(t.rows) && Legal(rules, t, es)
    requires var u := After(rules, t, es);
             && c in u.calls && u.calls[c].stage.Ended? && (u.calls[c].stage.put || u.calls[c].stage.reply.Exists?)
             && !HasEmail(t.rows, Email(u.calls[c]))
    ensures var u, e := After(rules, t, es), Email(After(rules, t, es).calls[c]);
            exists i, w ::
              && SoleRow(u, e, i, w) && (forall d :: Succeeded(rules, u, e, d) ==> d == w)
              && (Unsynced(es, e) ==> u.rows[i] == NewRow(u.calls[w].user, RoleOf(rules, u.calls[w].user.groups)))
  {
    var u := After(rules, t, es);
    var e := Email(u.calls[c]);
    RaceInv(rules, t, es);
    TableOnlyGrows(rules, t, es);
    assert HasEmail(u.rows, e);
    var i, w := FreshRow(t.rows, u, e);
    assert SoleRow(u, e, i, w);
    forall d | Succeeded(rules, u, e, d)
      ensures d == w
    {
      assert Won(u, d);
    }
    if Unsynced(es, e) { WinnersRow(rules, t, es, e, i, w); }
  }

  lemma WinnersRow(rules: seq<Rule>, t: Table, es: seq<Event>, email: string, i: nat, w: nat)
    requires Legal(rules, t, es) && Unsynced(es, email) && SoleRow(After(rules, t, es), email, i, w) && i >= |t.rows|
    ensures var u := After(rules, t, es); u.rows[i] == NewRow(u.calls[w].user, RoleOf(rules, u.calls[w].user.groups))
  {
    var u := After(rules, t, es);
    UnsyncedRowsAreAsPut(rules, t, es, i);
    var c :| Won(u, c) && u.rows[i] == NewRow(u.calls[c].user, RoleOf(rules, u.calls[c].user.groups));
    assert Email(u.calls[c]) == email;
  }

  /** Every winner was told so. */
  ghost predicate Told(t: Table) {
    forall c :: Won(t, c) ==> t.calls[c].stage.reply.Fine?
  }

  lemma WinnerIsTold(rules: seq<Rule>, t: Table, e: Event, c: nat)
    requires Possible(t, e) && (e.Put? ==> !e.link.Lost?) && Won(Do(rules, t, e), c)
    ensures Won(t, c) ==> Do(rules, t, e).calls[c] == t.calls[c]
    ensures !Won(t, c) ==> Do(rules, t, e).calls[c].stage.reply.Fine?
  {
    match e
    case Put(d, link) => assert link.Up? || link.Down?;
    case _ =>
  }

  lemma {:induction false} WinnersAreTold(rules: seq<Rule>, t: Table, es: seq<Event>)
    requires t.calls == map[] && Legal(rules, t, es)
    requires forall e :: e in es && e.Put? ==> !e.link.Lost?
    ensures Told(After(rules, t, es))
  {
    if es != [] {
      var n := |es| - 1;
      var s, e := After(rules, t, es[..n]), es[n];
      assert e in es && forall x :: x in es[..n] ==> x in es;
      WinnersAreTold(rules, t, es[..n]);
      forall c | Won(Do(rules, s, e), c)
        ensures Do(rules, s, e).calls[c].stage.reply.Fine?
      {
        WinnerIsTold(rules, s, e, c);
      }
    }
  }

  /** If no reply to an insert gets lost, then exactly one of the calls is told that it succeeded. */
  lemma ExactlyOneSuccess(rules: seq<Rule>, t: Table, es: seq<Event>, c: nat)
    requires ValidRules(rules) && t.calls == map[] && UniqueEmails(t.rows) && Legal(rules, t, es)
    requires forall e :: e in es && e.Put? ==> !e.link.Lost?
    requires var u := After(rules, t, es);
             && c in u.calls && u.calls[c].stage.Ended? && (u.calls[c].stage.put || u.calls[c].stage.reply.Exists?)
             && !HasEmail(t.rows, Email(u.calls[c]))
    ensures var u, e := After(rules, t, es), Email(After(rules, t, es).calls[c]);
            exists i, w :: SoleRow(u, e, i, w) && (forall d :: Succeeded(rules, u, e, d) <==> d == w)
  {
    var u := After(rules, t, es);
    var e := Email(u.calls[c]);
    OneRowOneWinner(rules, t, es, c);
    WinnersAreTold(rules, t, es);
    var i, w :| SoleRow(u, e, i, w) && forall d :: Succeeded(rules, u, e, d) ==> d == w;
    RaceInv(rules, t, es);
    assert Succeeded(rules, u, e, w) by { WinnersInScope(rules, t, es); }
  }

  /** Every winner is in the app's scope. */
  ghost predicate WonInScope(rules: seq<Rule>, t: Table) {
    forall c :: Won(t, c) ==> RoleOf(rules, t.calls[c].user.groups) != ""
  }

  lemma StepWonInScope(rules: seq<Rule>, t: Table, e: Event)
    requires InScope(rules, t.calls) && WonInScope(rules, t) && Possible(t, e)
    ensures WonInScope(rules, Do(rules, t, e))
  {
    hide RoleOf, HasEmail;
  }

  lemma {:induction false} WinnersInScope(rules: seq<Rule>, t: Table, es: seq<Event>)
    requires ValidRules(rules) && t.calls == map[] && UniqueEmails(t.rows) && Legal(rules, t, es)
    ensures WonInScope(rules, After(rules, t, es))
  {
    if es != [] {
      WinnersInScope(rules, t, es[..|es| - 1]);
      TableOnlyGrows(rules, t, es[..|es| - 1]);
      StepWonInScope(rules, After(rules, t, es[..|es| - 1]), es[|es| - 1]);
    }
  }

  /** The i-th row is the only one with this email, and w is the only call that put one; it carries w's values. */
  ghost predicate SoleRow(t: Table, email: string, i: int, w: nat) {
    && 0 <= i < |t.rows| && t.rows[i].email == email
    && (forall j :: 0 <= j < |t.rows| && t.rows[j].email == email ==> j == i)
    && Won(t, w) && RowOf(t.rows[i], t.calls[w].user)
    && (forall d :: Won(t, d) && Email(t.calls[d]) == email ==> d == w)
  }

  /** The call was told that the account was created. */
  predicate Succeeded(rules: seq<Rule>, t: Table, email: string, d: nat) {
    && d in t.calls && Email(t.calls[d]) == email && RoleOf(rules, t.calls[d].user.groups) != ""
    && t.calls[d].stage.Ended? && t.calls[d].stage.reply.Fine?
  }
}
