/**
 The Planka provisioner: which role a user's groups grant, and what its SQL does to the table of
 Planka accounts. The table is a sequence of rows under a unique constraint on email.
 */
module Planka {
  import opened Text
  import opened YamlTree

  /** The part of an SSO user that a provisioner sees. */
  datatype Invitee = Invitee(username: string, displayName: string, email: string, groups: seq<string>)

  datatype Rule = Rule(group: string, role: string)

  const VALID_ROLES: set<string> := {"admin", "projectOwner", "boardUser"}

  // ----- the roles mapping of the configuration -----

  datatype Config = Rules(rules: seq<Rule>) | NoRoles | EmptyName | UnknownRole(role: string)

  /** Planka knows three roles. */
  predicate GoodRule(group: string, role: string) {
    group != "" && (role == "admin" || role == "projectOwner" || role == "boardUser")
  }

  /** The rules in mapping order, which is the order of privilege. */
  method LoadRules(roles: Tree) returns (r: Config)
    ensures r.Rules? <==> roles.kind.Mapping? && roles.kids != []
                          && forall i :: 0 <= i < |roles.kids| / 2 ==>
                            GoodRule(roles.kids[2 * i].value, roles.kids[2 * i + 1].value)
    ensures r.Rules? ==> |r.rules| == |roles.kids| / 2
    ensures r.Rules? ==> forall i :: 0 <= i < |r.rules| ==>
      r.rules[i] == Rule(roles.kids[2 * i].value, roles.kids[2 * i + 1].value)
    ensures r.UnknownRole? ==> r.role != "" && r.role !in VALID_ROLES
  {
    if !roles.kind.Mapping? || roles.kids == [] { return NoRoles; }
    var rules: seq<Rule> := [];
    var i := 0;
    while 2 * i + 1 < |roles.kids|
      invariant i <= |roles.kids| / 2 && |rules| == i
      invariant forall j :: 0 <= j < i ==> rules[j] == Rule(roles.kids[2 * j].value, roles.kids[2 * j + 1].value)
      invariant forall j :: 0 <= j < i ==> GoodRule(roles.kids[2 * j].value, roles.kids[2 * j + 1].value)
    {
      var group, role := roles.kids[2 * i].value, roles.kids[2 * i + 1].value;
      if group == "" || role == "" { return EmptyName; }
      if role !in VALID_ROLES { return UnknownRole(role); }
      rules := rules + [Rule(group, role)];
      i := i + 1;
    }
    r := Rules(rules);
  }

  predicate ValidRules(rules: seq<Rule>) {
    forall i :: 0 <= i < |rules| ==> GoodRule(rules[i].group, rules[i].role)
  }

  // ----- which role -----

  /** The first rule whose group is among these; the number of rules if there is none. */
  function FirstMatch(rules: seq<Rule>, groups: seq<string>): (i: nat)
    ensures i <= |rules|
    ensures i < |rules| ==> rules[i].group in groups
    ensures forall j :: 0 <= j < i ==> rules[j].group !in groups
  {
    if rules == [] || rules[0].group in groups then 0 else 1 + FirstMatch(rules[1..], groups)
  }

  /** The role that first match grants; empty means that the app is out of scope for the user. */
  function RoleOf(rules: seq<Rule>, groups: seq<string>): string {
    var i := FirstMatch(rules, groups);
    if i < |rules| then rules[i].role else ""
  }

  method RoleFor(rules: seq<Rule>, groups: seq<string>) returns (role: string)
    ensures role == RoleOf(rules, groups)
  {
    var member: set<string> := {};
    for i := 0 to |groups|
      invariant forall g :: g in member <==> g in groups[..i]
    {
      member := member + {groups[i]};
    }
    assert groups[..|groups|] == groups;
    for i := 0 to |rules|
      invariant forall j :: 0 <= j < i ==> rules[j].group !in groups
    {
      if rules[i].group in member {
        assert FirstMatch(rules, groups) == i;
        return rules[i].role;
      }
    }
    role := "";
  }

  /** Out of scope means that no rule matches; otherwise the first that does decides, and the role is a valid one. */
  lemma RoleOfMeaning(rules: seq<Rule>, groups: seq<string>)
    requires ValidRules(rules)
    ensures RoleOf(rules, groups) == "" <==> forall i :: 0 <= i < |rules| ==> rules[i].group !in groups
    ensures RoleOf(rules, groups) == "" || RoleOf(rules, groups) in VALID_ROLES
    ensures forall i :: 0 <= i < |rules| && rules[i].group in groups ==>
              (forall j :: 0 <= j < i ==> rules[j].group !in groups) ==> RoleOf(rules, groups) == rules[i].role
  {
    var i := FirstMatch(rules, groups);
    if i < |rules| { assert GoodRule(rules[i].group, rules[i].role); }
  }

  /** Order and repetition of groups do not matter. */
  lemma RoleOfSameGroups(rules: seq<Rule>, a: seq<string>, b: seq<string>)
    requires forall g :: g in a <==> g in b
    ensures RoleOf(rules, a) == RoleOf(rules, b)
  {
    assert FirstMatch(rules, a) == FirstMatch(rules, b);
  }

  // ----- the table -----

  datatype Prefs = Prefs(ownCards: bool, whenCommenting: bool, noHighlight: bool, favorites: bool,
                         editorMode: string, homeView: string, projectsOrder: string)

  /** Planka's own defaults for a new account. */
  const NEW_ACCOUNT: Prefs := Prefs(false, true, false, true, "wysiwyg", "groupedProjects", "byDefault")

  datatype Row = Row(email: string, name: string, username: string, role: string, ssoUser: bool, deactivated: bool,
                     password: Option<string>, prefs: Prefs)

  predicate HasEmail(rows: seq<Row>, email: string) {
    exists i :: 0 <= i < |rows| && rows[i].email == email
  }

  /** The unique constraint. */
  predicate UniqueEmails(rows: seq<Row>) {
    forall i, j :: 0 <= i < j < |rows| ==> rows[i].email != rows[j].email
  }

  function NewRow(u: Invitee, role: string): Row {
    Row(ToLower(u.email), u.displayName, u.username, role, true, false, None, NEW_ACCOUNT)
  }

  /** INSERT ... ON CONFLICT (email) DO NOTHING. */
  function Insert(rows: seq<Row>, row: Row): seq<Row> {
    if HasEmail(rows, row.email) then rows else rows + [row]
  }

  function Synced(row: Row, email: string, role: string): Row {
    if row.email != email then row
    else if role != "" then row.(role := role, deactivated := false)
    else row.(deactivated := true)
  }

  /** UPDATE ... WHERE email = $1: a new role and active again, or, without a role, deactivated. */
  function Update(rows: seq<Row>, email: string, role: string): (r: seq<Row>)
    ensures |r| == |rows| && forall i :: 0 <= i < |rows| ==> r[i] == Synced(rows[i], email, role)
  {
    seq(|rows|, i requires 0 <= i < |rows| => Synced(rows[i], email, role))
  }

  /** How a query to the database goes: it works, it fails, or it takes effect but its reply is lost. */
  datatype Link = Up | Down | Lost

  datatype Reply = Fine | Exists | DbError

  /** The rows after Provision and what it reports; look and put are its two queries. */
  function Provisioned(rules: seq<Rule>, rows: seq<Row>, u: Invitee, look: Link, put: Link): (seq<Row>, Reply) {
    var role := RoleOf(rules, u.groups);
    if role == "" then (rows, Fine)
    else if !look.Up? then (rows, DbError)
    else if HasEmail(rows, ToLower(u.email)) then (rows, Exists)
    else if put.Down? then (rows, DbError)
    else (rows + [NewRow(u, role)], if put.Up? then Fine else DbError)
  }

  function Updated(rows: seq<Row>, email: string, role: string, link: Link): (seq<Row>, Reply) {
    (if link.Down? then rows else Update(rows, email, role), if link.Up? then Fine else DbError)
  }

  /** A new, active SSO account without a password, with what the user has and this role. */
  predicate IsNewAccount(row: Row, u: Invitee, role: string) {
    && CaseVariant(row.email, u.email) && (forall c :: c in row.email ==> !('A' <= c <= 'Z'))
    && row.name == u.displayName && row.username == u.username && row.role == role
    && row.ssoUser && !row.deactivated && row.password == None
  }

  /**
   What Provision does: it adds one new account exactly if a rule matches, the look-up worked and found
   nobody, and the insert arrived, and changes nothing else; and it reports success exactly if no rule
   matches or its own insert is known to have happened.
   */
  lemma ProvisionedExactly(rules: seq<Rule>, rows: seq<Row>, u: Invitee, look: Link, put: Link)
    ensures var (after, reply) := Provisioned(rules, rows, u, look, put);
            var role, free := RoleOf(rules, u.groups), look.Up? && !HasEmail(rows, ToLower(u.email));
            && (if role != "" && free && !put.Down?
                then |after| == |rows| + 1 && after[..|rows|] == rows && IsNewAccount(after[|rows|], u, role)
                else after == rows)
            && (reply.Fine? <==> role == "" || (free && put.Up?))
            && (reply.Exists? <==> role != "" && look.Up? && HasEmail(rows, ToLower(u.email)))
  {
    LowerMeaning(u.email);
  }

  /**
   The rows of this email have the role and are active, or, without a role, are deactivated and keep the
   role they had. Nothing else in them has changed, and no other row has.
   */
  predicate IsUpdate(rows: seq<Row>, after: seq<Row>, email: string, role: string) {
    && |after| == |rows|
    && forall i :: 0 <= i < |rows| ==>
         && after[i] == rows[i].(role := after[i].role, deactivated := after[i].deactivated)
         && after[i].role == (if rows[i].email == email && role != "" then role else rows[i].role)
         && after[i].deactivated == if rows[i].email == email then role == "" else rows[i].deactivated
  }

  /** What Sync and Deprovision do, unless the query does not arrive, and when they report success. */
  lemma UpdatedExactly(rows: seq<Row>, email: string, role: string, link: Link)
    ensures var (after, reply) := Updated(rows, email, role, link);
            && (if link.Down? then after == rows else IsUpdate(rows, after, email, role))
            && (reply.Fine? <==> link.Up?) && !reply.Exists?
  {
  }

  /** Every row of this email is deactivated already. */
  predicate AllDeactivated(rows: seq<Row>, email: string) {
    forall i :: 0 <= i < |rows| && rows[i].email == email ==> rows[i].deactivated
  }

  /**
   Deprovision looks at no groups. So a user outside the app's scope is left untouched exactly if the
   update does not arrive or every row of the email is deactivated already.
   */
  lemma UntouchedExactlyIf(rules: seq<Rule>, rows: seq<Row>, u: Invitee, link: Link)
    requires RoleOf(rules, u.groups) == ""
    ensures Updated(rows, ToLower(u.email), "", link).0 == rows <==>
      link.Down? || AllDeactivated(rows, ToLower(u.email))
  {
    var email := ToLower(u.email);
    var r := Update(rows, email, "");
    if AllDeactivated(rows, email) {
      forall i | 0 <= i < |rows|
        ensures r[i] == rows[i]
      {
      }
      assert r == rows;
    } else {
      var i :| 0 <= i < |rows| && rows[i].email == email && !rows[i].deactivated;
      assert r[i].deactivated;
    }
  }

  /** Any user whom the rule does not concern, with an active row, which Deprovision nevertheless deactivates. */
  lemma OutOfScopeIsTouched(rule: Rule, u: Invitee) returns (rows: seq<Row>)
    requires rule.group !in u.groups
    ensures RoleOf([rule], u.groups) == "" && rows == [NewRow(u, rule.role)] && UniqueEmails(rows)
    ensures Updated(rows, ToLower(u.email), "", Up).0 != rows
  {
    rows := [NewRow(u, rule.role)];
    assert rows[0].email == ToLower(u.email) && !rows[0].deactivated;
    UntouchedExactlyIf([rule], rows, u, Up);
  }

  class Provisioner {
    const rules: seq<Rule>
    var rows: seq<Row>

    constructor (rules: seq<Rule>, rows: seq<Row>)
      ensures this.rules == rules && this.rows == rows
    {
      this.rules, this.rows := rules, rows;
    }

    method Provision(u: Invitee, look: Link, put: Link) returns (r: Reply)
      modifies this
      ensures (rows, r) == Provisioned(rules, old(rows), u, look, put)
    {
      var role := RoleFor(rules, u.groups);
      if role == "" { return Fine; }
      var email := ToLower(u.email);
      if !look.Up? { return DbError; }
      var present := HasEmail(rows, email);
      if present { return Exists; }
      if put.Down? { return DbError; }
      var before := |rows|;
      rows := Insert(rows, NewRow(u, role));
      if put.Lost? { return DbError; }
      r := if |rows| == before then Exists else Fine;
    }

    method Sync(u: Invitee, link: Link) returns (r: Reply)
      modifies this
      ensures (rows, r) == Updated(old(rows), ToLower(u.email), RoleOf(rules, u.groups), link)
    {
      var email := ToLower(u.email);
      var role := RoleFor(rules, u.groups);
      if role != "" {
        if link.Down? { return DbError; }
        rows := Update(rows, email, role);
        return if link.Up? then Fine else DbError;
      }
      if link.Down? { return DbError; }
      rows := Update(rows, email, "");
      r := if link.Up? then Fine else DbError;
    }

    method Deprovision(u: Invitee, link: Link) returns (r: Reply)
      modifies this
      ensures (rows, r) == Updated(old(rows), ToLower(u.email), "", link)
    {
      if link.Down? { return DbError; }
      rows := Update(rows, ToLower(u.email), "");
      r := if link.Up? then Fine else DbError;
    }
  }

  // ----- the schema check -----

  datatype Column = Column(name: string, nullable: bool, hasDefault: bool)

  const INSERT_COLUMNS: seq<string> := [
    "email", "name", "username", "role", "is_sso_user", "is_deactivated",
    "subscribe_to_own_cards", "subscribe_to_card_when_commenting",
    "turn_off_recent_card_highlighting", "enable_favorites_by_default",
    "default_editor_mode", "default_home_view", "default_projects_order",
    "created_at"]

  /** What the insert puts into a column; created_at gets the time. */
  datatype Value = Words(text: string) | Flag(on: bool) | Now

  /** The values of the insert, in the order in which it lists them. */
  function InsertValues(r: Row): seq<Value> {
    [Words(r.email), Words(r.name), Words(r.username), Words(r.role), Flag(r.ssoUser), Flag(r.deactivated),
     Flag(r.prefs.ownCards), Flag(r.prefs.whenCommenting), Flag(r.prefs.noHighlight), Flag(r.prefs.favorites),
     Words(r.prefs.editorMode), Words(r.prefs.homeView), Words(r.prefs.projectsOrder), Now]
  }

  /** The columns and the values of the insert match: each column gets what belongs there. */
  lemma InsertIsAligned(u: Invitee, role: string)
    ensures var values := InsertValues(NewRow(u, role));
            && |values| == |INSERT_COLUMNS|
            && seq(|values|, i requires 0 <= i < |values| => (INSERT_COLUMNS[i], values[i])) == [
                 ("email", Words(ToLower(u.email))), ("name", Words(u.displayName)),
                 ("username", Words(u.username)), ("role", Words(role)),
                 ("is_sso_user", Flag(true)), ("is_deactivated", Flag(false)),
                 ("subscribe_to_own_cards", Flag(false)), ("subscribe_to_card_when_commenting", Flag(true)),
                 ("turn_off_recent_card_highlighting", Flag(false)), ("enable_favorites_by_default", Flag(true)),
                 ("default_editor_mode", Words("wysiwyg")), ("default_home_view", Words("groupedProjects")),
                 ("default_projects_order", Words("byDefault")), ("created_at", Now)]
  {
    var values := InsertValues(NewRow(u, role));
    assert |INSERT_COLUMNS| == 14;
  }

  datatype Drift = NoTable | Unmet(names: seq<string>) | NoIdDefault | PasswordRequired

  /** The database demands a value and the insert supplies none. */
  predicate IsUnmet(c: Column) {
    !c.nullable && !c.hasDefault && c.name !in INSERT_COLUMNS
  }

  function UnmetNames(cols: seq<Column>): seq<string> {
    if cols == [] then []
    else UnmetNames(cols[..|cols| - 1]) + if IsUnmet(cols[|cols| - 1]) then [cols[|cols| - 1].name] else []
  }

  /** The last column of this name. */
  function Last(cols: seq<Column>, name: string): (c: Option<Column>)
    ensures c.Some? ==> c.value in cols && c.value.name == name
    ensures c.None? ==> forall i :: 0 <= i < |cols| ==> cols[i].name != name
  {
    if cols == [] then None
    else if cols[|cols| - 1].name == name then Some(cols[|cols| - 1]) else Last(cols[..|cols| - 1], name)
  }

  lemma {:induction false} UnmetNamesMeaning(cols: seq<Column>)
    ensures UnmetNames(cols) == [] <==> forall i :: 0 <= i < |cols| ==> !IsUnmet(cols[i])
    ensures forall n :: n in UnmetNames(cols) <==> exists i :: 0 <= i < |cols| && IsUnmet(cols[i]) && cols[i].name == n
  {
    if cols != [] {
      var rest := cols[..|cols| - 1];
      UnmetNamesMeaning(rest);
      assert forall i :: 0 <= i < |rest| ==> rest[i] == cols[i];
      assert forall i :: 0 <= i < |cols| ==> i < |rest| || cols[i] == cols[|cols| - 1];
    }
  }

  /** What the check asks of the schema. */
  predicate Fits(cols: seq<Column>) {
    && cols != []
    && (forall i :: 0 <= i < |cols| ==> !IsUnmet(cols[i]))
    && Last(cols, "id").Some? && Last(cols, "id").value.hasDefault
    && Last(cols, "password").Some? && Last(cols, "password").value.nullable
  }

  method CheckColumns(cols: seq<Column>) returns (r: Option<Drift>)
    ensures r == None <==> Fits(cols)
    ensures r == Some(NoTable) <==> cols == []
    ensures r == Some(NoIdDefault) <==>
      && cols != [] && (forall i :: 0 <= i < |cols| ==> !IsUnmet(cols[i]))
      && (Last(cols, "id").Some? ==> !Last(cols, "id").value.hasDefault)
    ensures (r.Some? && r.value.Unmet?) <==> exists i :: 0 <= i < |cols| && IsUnmet(cols[i])
    ensures r.Some? && r.value.Unmet? ==> r.value.names == UnmetNames(cols)
  {
    var provided: set<string> := {};
    for i := 0 to |INSERT_COLUMNS|
      invariant forall n :: n in provided <==> n in INSERT_COLUMNS[..i]
    {
      provided := provided + {INSERT_COLUMNS[i]};
    }
    assert INSERT_COLUMNS[..|INSERT_COLUMNS|] == INSERT_COLUMNS;
    var found, idHasDefault, passwordExists, passwordNull := 0, false, false, false;
    var unmet: seq<string> := [];
    for i := 0 to |cols|
      invariant found == i && unmet == UnmetNames(cols[..i])
      invariant idHasDefault <==> Last(cols[..i], "id").Some? && Last(cols[..i], "id").value.hasDefault
      invariant passwordExists <==> Last(cols[..i], "password").Some?
      invariant passwordExists ==> (passwordNull <==> Last(cols[..i], "password").value.nullable)
    {
      var c := cols[i];
      assert cols[..i + 1][..i] == cols[..i];
      found := found + 1;
      if c.name == "id" {
        idHasDefault := c.hasDefault;
      } else if c.name == "password" {
        passwordExists := true;
        passwordNull := c.nullable;
      }
      if !c.nullable && !c.hasDefault && c.name !in provided { unmet := unmet + [c.name]; }
    }
    assert cols[..|cols|] == cols;
    UnmetNamesMeaning(cols);
    if found == 0 { return Some(NoTable); }
    if |unmet| > 0 { return Some(Unmet(unmet)); }
    if !idHasDefault { return Some(NoIdDefault); }
    if !passwordExists || !passwordNull { return Some(PasswordRequired); }
    r := None;
  }

  /** What the insert puts into a column. */
  datatype Cell = Given | Defaulted | Null

  function CellOf(c: Column): Cell {
    if c.name in INSERT_COLUMNS then Given else if c.hasDefault then Defaulted else Null
  }

  /**
   The insert names only existing columns and leaves no required one NULL, and there is the unique index
   on email that its ON CONFLICT clause refers to.
   */
  predicate Accepted(cols: seq<Column>, uniqueEmail: bool) {
    && uniqueEmail
    && (forall n :: n in INSERT_COLUMNS ==> exists i :: 0 <= i < |cols| && cols[i].name == n)
    && (forall i :: 0 <= i < |cols| && CellOf(cols[i]).Null? ==> cols[i].nullable)
  }

  predicate AllInsertColumnsExist(cols: seq<Column>) {
    forall n :: n in INSERT_COLUMNS ==> Last(cols, n).Some?
  }

  /**
   The check asserts neither that the columns the insert writes exist nor that email is unique. A schema
   that passes accepts the insert exactly if both hold; either way the table generates its ids, and no
   required column is left without a value.
   */
  lemma FittingSchema(cols: seq<Column>, uniqueEmail: bool)
    requires Fits(cols)
    ensures forall i :: 0 <= i < |cols| && CellOf(cols[i]).Null? ==> cols[i].nullable
    ensures exists i :: 0 <= i < |cols| && cols[i].name == "id" && CellOf(cols[i]) == Defaulted
    ensures Accepted(cols, uniqueEmail) <==> AllInsertColumnsExist(cols) && uniqueEmail
  {
    forall n | n in INSERT_COLUMNS
      ensures Last(cols, n).Some? <==> exists i :: 0 <= i < |cols| && cols[i].name == n
    {
    }
    assert "id" !in INSERT_COLUMNS;
    var i :| 0 <= i < |cols| && cols[i] == Last(cols, "id").value;
    assert CellOf(cols[i]) == Defaulted;
  }

  /** The password stays NULL exactly if its column has no default, and then it may be NULL. */
  lemma PasswordLeftNull(cols: seq<Column>)
    requires Fits(cols)
    ensures var c := Last(cols, "password").value; (CellOf(c).Null? <==> !c.hasDefault) && c.nullable
  {
    assert "password" !in INSERT_COLUMNS;
  }

  /** A table without the columns that the insert names passes the check. */
  lemma PassesWithoutTheColumns() returns (cols: seq<Column>)
    ensures Fits(cols) && !Accepted(cols, true)
  {
    cols := [Column("id", false, true), Column("password", true, false)];
    assert cols[..1] == [Column("id", false, true)];
    assert Last(cols, "id") == Some(cols[0]);
    assert INSERT_COLUMNS[0] == "email";
    assert "email" in INSERT_COLUMNS;
  }

  /** Nor is the check stricter than the insert needs, but for its two shape assumptions. */
  lemma AcceptedFits(cols: seq<Column>)
    requires Accepted(cols, true)
    requires Last(cols, "id").Some? && Last(cols, "id").value.hasDefault
    requires Last(cols, "password").Some? && Last(cols, "password").value.nullable
    ensures Fits(cols)
  {
    forall i | 0 <= i < |cols|
      ensures !IsUnmet(cols[i])
    {
      if IsUnmet(cols[i]) {
        assert false;
      }
    }
  }
}
