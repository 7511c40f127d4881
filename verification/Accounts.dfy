/**
 The users file as the list of accounts the portal shows: what each operation does to that list,
 and why usernames and emails stay unique ignoring case.
 */
module Accounts {
  import opened Text
  import opened YamlTree
  import opened UserFile
  import opened Exactness

  /** The account that Add stores. */
  function Stored(u: User): User {
    u.(email := ToLower(u.email), disabled := false)
  }

  function IndexOf(us: seq<User>, username: string): (i: nat)
    ensures i <= |us|
    ensures i < |us| ==> us[i].username == username
    ensures forall j :: 0 <= j < i ==> us[j].username != username
  {
    if us == [] || us[0].username == username then 0 else 1 + IndexOf(us[1..], username)
  }

  function EditList(op: Op, us: seq<User>): seq<User> {
    match op
    case Add(u, _) => us + [Stored(u)]
    case SetGroups(username, groups) =>
      var i := IndexOf(us, username);
      if i < |us| then us[i := us[i].(groups := groups)] else us
    case Delete(username) =>
      var i := IndexOf(us, username);
      if i < |us| then us[..i] + us[i + 1..] else us
  }

  lemma {:induction false} IndexOfFrom(kids: seq<Tree>, us: seq<User>, username: string, start: nat)
    requires us == ListOf(kids) && start <= |us|
    ensures FirstIndex(kids, username, start) == start + IndexOf(us[start..], username)
    decreases |us| - start
  {
    if start < |us| && us[start].username != username {
      IndexOfFrom(kids, us, username, start + 1);
      assert us[start..][1..] == us[start + 1..];
    }
  }

  lemma IndexOfIsFirst(kids: seq<Tree>, username: string)
    ensures IndexOf(ListOf(kids), username) == FirstIndex(kids, username)
  {
    IndexOfFrom(kids, ListOf(kids), username, 0);
    assert ListOf(kids)[0..] == ListOf(kids);
  }

  lemma {:induction false} TextsOfScalars(items: seq<string>)
    ensures TextsOf(SeqTree(items).kids) == items
  {
    if items != [] {
      TextsOfScalars(items[1..]);
      assert SeqTree(items).kids[1..] == SeqTree(items[1..]).kids;
      assert items == [items[0]] + items[1..];
    }
  }

  lemma NewEntryListed(u: User, hash: string)
    ensures DecodeUser(u.username, NewEntry(u, hash)) == Stored(u)
  {
    hide DecodeFields, DistinctUpTo;
    var kids := NewEntry(u, hash).kids;
    assert kids[0].value == "displayname" && kids[2].value == "email" && kids[4].value == "password"
      && kids[6].value == "groups";
    FirstIndexIs(kids, "displayname", 0);
    FirstIndexIs(kids, "email", 1);
    FirstIndexIs(kids, "groups", 3);
    assert !Has(kids, "disabled");
    NewEntryDecodes(u, hash);
    DecodedDistinct(kids, 4);
    TextsOfScalars(u.groups);
  }

  lemma AddListed(kids: seq<Tree>, u: User, hash: string)
    requires |kids| % 2 == 0
    ensures ListOf(kids + [ScalarTree(u.username), NewEntry(u, hash)]) == ListOf(kids) + [Stored(u)]
  {
    NewEntryListed(u, hash);
    var n, r := |kids| / 2, kids + [ScalarTree(u.username), NewEntry(u, hash)];
    forall j | 0 <= j < n + 1
      ensures ListOf(r)[j] == (ListOf(kids) + [Stored(u)])[j]
    {
      if j < n { assert r[2 * j] == kids[2 * j] && r[2 * j + 1] == kids[2 * j + 1]; }
    }
  }

  lemma RemoveListed(kids: seq<Tree>, i: nat)
    requires |kids| % 2 == 0 && i < |kids| / 2
    ensures ListOf(RemovePair(kids, i)) == ListOf(kids)[..i] + ListOf(kids)[i + 1..]
  {
    hide DecodeUser;
    var r := RemovePair(kids, i);
    forall j | 0 <= j < |r| / 2
      ensures ListOf(r)[j] == (ListOf(kids)[..i] + ListOf(kids)[i + 1..])[j]
    {
      RemovePairAt(kids, i, j);
    }
  }

  /** Decoded entries have distinct keys, so a field lookup in the edited entry sees what one expects. */
  lemma {:induction false} KeyAmongDecoded(kids: seq<Tree>, n: nat, key: Tree)
    requires n <= |kids| / 2 && DecodeFields(kids, n).Some? && KeyAmong(kids, n, key)
    ensures key.value in DecodeFields(kids, n).value
  {
    if kids[2 * n - 2].kind != key.kind || kids[2 * n - 2].value != key.value {
      KeyAmongDecoded(kids, n - 1, key);
    }
  }

  lemma {:induction false} DecodedDistinct(kids: seq<Tree>, n: nat)
    requires n <= |kids| / 2 && DecodeFields(kids, n).Some?
    ensures DistinctUpTo(kids, n)
  {
    if n > 0 {
      DecodedDistinct(kids, n - 1);
      if KeyAmong(kids, n - 1, kids[2 * n - 2]) { KeyAmongDecoded(kids, n - 1, kids[2 * n - 2]); }
    }
  }

  function FindField(kids: seq<Tree>, k: string): Option<Tree> {
    if Has(kids, k) then Some(kids[2 * FirstIndex(kids, k) + 1]) else None
  }

  /** On content with distinct keys, an edit of one field is seen by a lookup of that field only. */
  lemma SetThenFind(kids: seq<Tree>, k: string, v: Tree, q: string)
    requires |kids| % 2 == 0
    ensures var r := SetField(kids, k, v);
            FindField(r, q) == if k == q then Some(v) else FindField(kids, q)
  {
    var n, r := |kids| / 2, SetField(kids, k, v);
    assert forall j :: 0 <= j < n ==> r[2 * j] == kids[2 * j];
    assert |r| / 2 > n ==> r[2 * n].value == k;
    if Has(kids, q) {
      FirstIndexIs(r, q, FirstIndex(kids, q));
    } else if k == q {
      FirstIndexIs(r, q, n);
    } else {
      assert forall j :: 0 <= j < |r| / 2 ==> r[2 * j].value != q;
    }
  }

  lemma FieldOfDistinct(entry: Tree, k: string)
    requires entry.kind.Mapping? && DistinctKeys(entry.kids)
    ensures Field(entry, k) == FindField(entry.kids, k)
  {
  }

  lemma RegroupedDistinct(entry: Tree, groups: seq<string>)
    requires entry.kind.Mapping? && WellFormed(entry) && DecodeEntry(entry).Some?
    ensures DistinctKeys(entry.kids) && DistinctKeys(Regrouped(entry, groups).kids)
  {
    RegroupedDecodes(entry, groups);
    DecodedDistinct(entry.kids, |entry.kids| / 2);
    var r := Regrouped(entry, groups).kids;
    DecodedDistinct(r, |r| / 2);
  }

  lemma FieldAfterSet(entry: Tree, groups: seq<string>, k: string)
    requires entry.kind.Mapping? && |entry.kids| % 2 == 0
    requires DistinctKeys(entry.kids) && DistinctKeys(Regrouped(entry, groups).kids)
    ensures Field(Regrouped(entry, groups), k) == if k == "groups" then Some(SeqTree(groups)) else Field(entry, k)
  {
    FieldOfDistinct(entry, k);
    FieldOfDistinct(Regrouped(entry, groups), k);
    SetThenFind(entry.kids, "groups", SeqTree(groups), k);
  }

  lemma RegroupedListed(username: string, entry: Tree, groups: seq<string>)
    requires entry.kind.Mapping? && WellFormed(entry) && DecodeEntry(entry).Some?
    ensures DecodeUser(username, Regrouped(entry, groups)) == DecodeUser(username, entry).(groups := groups)
  {
    RegroupedDistinct(entry, groups);
    FieldAfterSet(entry, groups, "displayname");
    FieldAfterSet(entry, groups, "email");
    FieldAfterSet(entry, groups, "groups");
    FieldAfterSet(entry, groups, "disabled");
    TextsOfScalars(groups);
  }

  /** A readable file, and the accounts it lists. */
  ghost predicate Lists(c: Codec, b: Bytes, root: Tree, us: seq<User>) {
    Readable(c, b, root) && ListOf(Users(root)) == us
  }

  lemma CommittedAdd(c: Codec, u: User, hash: string, b: Bytes, root: Tree, us: seq<User>) returns (after: Tree)
    requires Faithful(c) && Lists(c, b, root, us) && Apply(c, Add(u, hash), b).Replace?
    ensures Lists(c, Apply(c, Add(u, hash), b).out, after, us + [Stored(u)])
    ensures forall i :: 0 <= i < |us| ==> !Clashes(us[i], u)
  {
    var kids := Users(root);
    UsersWellFormed(root);
    AddIsExact(c, u, hash, b, root);
    assert !Clash(us, u);
    AddListed(kids, u, hash);
    var r := kids + [ScalarTree(u.username), NewEntry(u, hash)];
    after := WithUsers(root, r);
    UsersOfWithUsers(root, r);
  }

  lemma CommittedDelete(c: Codec, username: string, b: Bytes, root: Tree, us: seq<User>) returns (after: Tree)
    requires Faithful(c) && Lists(c, b, root, us) && Apply(c, Delete(username), b).Replace?
    ensures Lists(c, Apply(c, Delete(username), b).out, after, EditList(Delete(username), us))
  {
    var kids := Users(root);
    UsersWellFormed(root);
    DeleteIsExact(c, username, b, root);
    assert Has(kids, username);
    IndexOfIsFirst(kids, username);
    RemoveListed(kids, FirstIndex(kids, username));
    EditListAt(Delete(username), us, FirstIndex(kids, username));
    var r := RemovePair(kids, FirstIndex(kids, username));
    after := WithUsers(root, r);
    UsersOfWithUsers(root, r);
  }

  lemma ReplaceListed(kids: seq<Tree>, i: nat, v: Tree)
    requires i < |kids| / 2
    ensures ListOf(kids[2 * i + 1 := v]) == ListOf(kids)[i := DecodeUser(kids[2 * i].value, v)]
  {
    var r := kids[2 * i + 1 := v];
    forall j | 0 <= j < |kids| / 2
      ensures r[2 * j] == kids[2 * j] && (j != i ==> r[2 * j + 1] == kids[2 * j + 1])
    {
    }
  }

  lemma EditListAt(op: Op, us: seq<User>, i: nat)
    requires !op.Add? && i < |us| && IndexOf(us, Target(op)) == i
    ensures op.SetGroups? ==> EditList(op, us) == us[i := us[i].(groups := op.groups)]
    ensures op.Delete? ==> EditList(op, us) == us[..i] + us[i + 1..]
  {
    hide IndexOf;
  }

  lemma RegroupedAt(kids: seq<Tree>, i: nat, groups: seq<string>)
    requires AllWellFormed(kids) && Snapshot(kids, |kids| / 2).Some? && i < |kids| / 2 && kids[2 * i + 1].kind.Mapping?
    ensures ListOf(RegroupAt(kids, i, groups)) == ListOf(kids)[i := ListOf(kids)[i].(groups := groups)]
  {
    EntriesDecode(kids, |kids| / 2, i);
    ListedAt(kids, i);
    RegroupedListed(kids[2 * i].value, kids[2 * i + 1], groups);
    ReplaceListed(kids, i, Regrouped(kids[2 * i + 1], groups));
  }

  /** No two accounts have this username. */
  predicate OneNamed(us: seq<User>, username: string) {
    forall i, j :: 0 <= i < j < |us| && us[i].username == username ==> us[j].username != username
  }

  lemma OneNamedIsUnique(kids: seq<Tree>, username: string)
    requires Has(kids, username) && OneNamed(ListOf(kids), username)
    ensures Unique(kids, username)
  {
    var i := FirstIndex(kids, username);
    ListedAt(kids, i);
    forall j | i < j < |kids| / 2
      ensures kids[2 * j].value != username
    {
      ListedAt(kids, j);
    }
  }

  /** A null entry that alone has its username lists no groups, so setting none changes nothing. */
  lemma NullHasNoGroups(kids: seq<Tree>, username: string, groups: seq<string>)
    requires Snapshot(kids, |kids| / 2).Some? && Has(kids, username) && Unique(kids, username)
    requires !FirstIsMapping(kids, username) && AlreadyListed(kids, username, groups)
    ensures groups == [] && ListOf(kids)[FirstIndex(kids, username)].groups == []
  {
    var i := FirstIndex(kids, username);
    EntriesDecode(kids, |kids| / 2, i);
    UniqueIsNotLater(kids, username);
    ListedAt(kids, i);
    assert Strs(groups) == [];
  }

  lemma FirstMapping(kids: seq<Tree>, username: string, groups: seq<string>)
    requires Has(kids, username) && FirstIsMapping(kids, username)
    ensures var i := FirstIndex(kids, username);
            i < |kids| / 2 && kids[2 * i + 1].kind.Mapping?
              && RegroupFirst(kids, username, groups) == RegroupAt(kids, i, groups)
  {
  }

  lemma GroupsEditedAt(us: seq<User>, username: string, groups: seq<string>, i: nat)
    requires i < |us| && IndexOf(us, username) == i
    ensures EditList(SetGroups(username, groups), us) == us[i := us[i].(groups := groups)]
  {
  }

  lemma RegroupedList(kids: seq<Tree>, username: string, groups: seq<string>)
    requires AllWellFormed(kids) && Snapshot(kids, |kids| / 2).Some? && Has(kids, username)
      && FirstIsMapping(kids, username)
    ensures ListOf(RegroupFirst(kids, username, groups)) == EditList(SetGroups(username, groups), ListOf(kids))
  {
    hide *;
    FirstMapping(kids, username, groups);
    ListLength(kids);
    IndexOfIsFirst(kids, username);
    GroupsEditedAt(ListOf(kids), username, groups, FirstIndex(kids, username));
    RegroupedAt(kids, FirstIndex(kids, username), groups);
  }

  lemma NullRegroupedList(kids: seq<Tree>, username: string, groups: seq<string>)
    requires Snapshot(kids, |kids| / 2).Some? && Has(kids, username) && OneNamed(ListOf(kids), username)
    requires !FirstIsMapping(kids, username) && AlreadyListed(kids, username, groups)
    ensures ListOf(kids) == EditList(SetGroups(username, groups), ListOf(kids))
  {
    assert |ListOf(kids)| == |kids| / 2;
    hide EditList, ListOf, WellFormed, DecodeEntry;
    var i, us := FirstIndex(kids, username), ListOf(kids);
    IndexOfIsFirst(kids, username);
    EditListAt(SetGroups(username, groups), us, i);
    OneNamedIsUnique(kids, username);
    NullHasNoGroups(kids, username, groups);
    assert us[i].(groups := groups) == us[i];
  }

  /**
   What a committed SetGroups leaves listed: the edited accounts if the username occurs once or its
   first entry is a mapping, and the same accounts otherwise.
   */
  lemma CommittedSetGroups(c: Codec, username: string, groups: seq<string>, b: Bytes, root: Tree, us: seq<User>)
    returns (after: Tree, vs: seq<User>)
    requires Faithful(c) && Lists(c, b, root, us) && Apply(c, SetGroups(username, groups), b).Replace?
    ensures Lists(c, Apply(c, SetGroups(username, groups), b).out, after, vs)
    ensures OneNamed(us, username) || FirstIsMapping(Users(root), username) ==>
      vs == EditList(SetGroups(username, groups), us)
    ensures vs == us || vs == EditList(SetGroups(username, groups), us)
  {
    var kids := Users(root);
    UsersWellFormed(root);
    SetGroupsIsExact(c, username, groups, b, root);
    assert Has(kids, username);
    hide Apply, EditList, ListOf, RegroupFirst, OneNamed, FirstIsMapping, AlreadyListed;
    if FirstIsMapping(kids, username) {
      RegroupedList(kids, username, groups);
      vs := EditList(SetGroups(username, groups), us);
      after := WithUsers(root, RegroupFirst(kids, username, groups));
      UsersOfWithUsers(root, RegroupFirst(kids, username, groups));
    } else {
      vs := us;
      after := WithUsers(root, kids);
      UsersOfWithUsers(root, kids);
      if OneNamed(us, username) { NullRegroupedList(kids, username, groups); }
    }
  }

  /** The committed file lists exactly the edited accounts, but for a repeated username whose first entry is null. */
  lemma CommittedList(c: Codec, op: Op, b: Bytes, root: Tree, us: seq<User>) returns (after: Tree, vs: seq<User>)
    requires Faithful(c) && Lists(c, b, root, us) && Apply(c, op, b).Replace?
    ensures Lists(c, Apply(c, op, b).out, after, vs)
    ensures !op.SetGroups? || OneNamed(us, Target(op)) || FirstIsMapping(Users(root), Target(op)) ==>
      vs == EditList(op, us)
    ensures vs == EditList(op, us) || (op.SetGroups? && vs == us)
    ensures op.Add? ==> forall i :: 0 <= i < |us| ==> !Clashes(us[i], op.user)
  {
    match op
    case Add(u, hash) =>
      vs := us + [Stored(u)];
      after := CommittedAdd(c, u, hash, b, root, us);
    case SetGroups(username, groups) => after, vs := CommittedSetGroups(c, username, groups, b, root, us);
    case Delete(username) =>
      vs := EditList(op, us);
      after := CommittedDelete(c, username, b, root, us);
  }

  // ----- uniqueness ignoring case -----

  /** Two accounts that Authelia would not tell apart. */
  predicate Collide(a: User, b: User) {
    EqualFold(a.username, b.username) || EqualFold(a.email, b.email)
  }

  predicate CollisionFree(us: seq<User>) {
    forall i, j :: 0 <= i < |us| && 0 <= j < |us| && i != j ==> !Collide(us[i], us[j])
  }

  predicate SameId(a: User, b: User) {
    a.username == b.username && a.email == b.email
  }

  /** Add compares the email as typed but stores it lowercased; the comparison is the same. */
  lemma ClashIsCollision(existing: User, u: User)
    ensures Clashes(existing, u) <==> Collide(existing, Stored(u))
  {
    LowerIdempotent(u.email);
  }

  /** In plain terms, a clash is a listed account whose username or email differs at most in case. */
  ghost predicate Taken(us: seq<User>, u: User) {
    exists i :: 0 <= i < |us| && (CaseVariant(us[i].username, u.username) || CaseVariant(us[i].email, u.email))
  }

  lemma ClashIsTaken(us: seq<User>, u: User)
    ensures Clash(us, u) <==> Taken(us, u)
  {
    hide CaseVariant, EqualFold;
    forall i | 0 <= i < |us|
      ensures Clashes(us[i], u) <==> CaseVariant(us[i].username, u.username) || CaseVariant(us[i].email, u.email)
    {
      EqualFoldMeaning(us[i].username, u.username);
      EqualFoldMeaning(us[i].email, u.email);
    }
  }

  /** For any codec: Add reports a duplicate exactly for case variants of listed usernames and emails. */
  lemma DuplicateExactlyIf(c: Codec, u: User, hash: string, b: Bytes, root: Tree)
    requires ParseBytes(c, b) == Some(root) && SnapshotOf(c, b).Some?
    ensures Apply(c, Add(u, hash), b) == Reject(Duplicate) <==> Taken(ListOf(Users(root)), u)
  {
    hide Taken, Clash;
    ClashIsTaken(ListOf(Users(root)), u);
  }

  /** The account that is stored carries the email without capitals, and everything else as given. */
  lemma StoredMeaning(u: User)
    ensures var v := Stored(u);
            && CaseVariant(u.email, v.email) && (forall c :: c in v.email ==> !('A' <= c <= 'Z'))
            && v == User(u.username, u.displayName, v.email, u.groups, false)
  {
    LowerMeaning(u.email);
  }

  /** The first pair with this key is the i-th. */
  ghost predicate FirstAt(kids: seq<Tree>, k: string, i: nat) {
    i < |kids| / 2 && kids[2 * i].value == k && forall j :: 0 <= j < i ==> kids[2 * j].value != k
  }

  /**
   What is shown of an entry without repeated keys: the texts of its name and email, the texts among its
   groups in order, and disabled for what decodes to true. An entry with a repeated key shows nothing.
   */
  lemma EntryShown(username: string, t: Tree, k: string, i: nat)
    requires t.kind.Mapping? && FirstAt(t.kids, k, i)
    ensures var u, v := DecodeUser(username, t), t.kids[2 * i + 1];
            && u.username == username
            && (!DistinctKeys(t.kids) ==> u == User(username, "", "", [], false))
            && (DistinctKeys(t.kids) && v.kind.Scalar? && v.tag != "!!null" ==>
                  && (k == "displayname" ==> u.displayName == v.value)
                  && (k == "email" ==> u.email == v.value))
            && (!v.kind.Scalar? || v.tag == "!!null" ==>
                  && (k == "displayname" ==> u.displayName == "")
                  && (k == "email" ==> u.email == ""))
            && (DistinctKeys(t.kids) && k == "groups" ==>
                  forall items :: v == SeqTree(items) ==> u.groups == items)
            && (DistinctKeys(t.kids) && k == "disabled" ==>
                  (u.disabled <==> v.kind.Scalar? && (v.tag, v.value) in {
                    ("!!bool", "true"), ("!!bool", "True"), ("!!bool", "TRUE"),
                    ("!!str", "y"), ("!!str", "Y"), ("!!str", "yes"), ("!!str", "on")}))
  {
    var v := t.kids[2 * i + 1];
    FirstIndexIs(t.kids, k, i);
    forall items | v == SeqTree(items)
      ensures TextsOf(v.kids) == items
    {
      TextsOfScalars(items);
    }
  }

  // ----- the mapping under "users" -----

  /** Nothing stands there: a null, or an empty scalar. */
  predicate Nothing(t: Tree) {
    t.kind.Scalar? && (t.tag == "!!null" || t.value == "")
  }

  lemma UsersFileExactlyIf(root: Tree)
    ensures IsUsersFile(root) <==>
      && root.kind.Mapping?
      && exists i :: FirstAt(root.kids, "users", i)
                       && (root.kids[2 * i + 1].kind.Mapping? || Nothing(root.kids[2 * i + 1]))
  {
    if root.kind.Mapping? && Has(root.kids, "users") {
      assert FirstAt(root.kids, "users", FirstIndex(root.kids, "users"));
    }
    forall i | FirstAt(root.kids, "users", i)
      ensures Has(root.kids, "users") && FirstIndex(root.kids, "users") == i
    {
      FirstIndexIs(root.kids, "users", i);
    }
  }

  /** A file with nothing under `users` lists nobody, and takes any account as its first. */
  lemma EmptyFileTakesFirst(c: Codec, u: User, hash: string, b: Bytes, root: Tree, i: nat) returns (after: Tree)
    requires Faithful(c) && c.scan(b) == ([root], true) && root.kind.Mapping?
    requires FirstAt(root.kids, "users", i) && Nothing(root.kids[2 * i + 1])
    ensures Lists(c, b, root, [])
    ensures Apply(c, Add(u, hash), b).Replace? && Lists(c, Apply(c, Add(u, hash), b).out, after, [Stored(u)])
  {
    assert root in c.scan(b).0;
    ParsedIsKnown(c, b, root);
    FirstIndexIs(root.kids, "users", i);
    WellFormedParts(root, 2 * i + 1);
    assert Users(root) == [];
    assert ListOf(Users(root)) == [];
    AddIsExact(c, u, hash, b, root);
    after := CommittedAdd(c, u, hash, b, root, []);
    assert [] + [Stored(u)] == [Stored(u)];
  }

  /**
   Where every account of `after` came from: an account of `before` with the same username and
   email, no two from the same one, or (-1) a new account that collides with no other.
   */
  ghost predicate Descends(before: seq<User>, after: seq<User>, origin: seq<int>) {
    && |origin| == |after|
    && (forall i :: 0 <= i < |after| ==> -1 <= origin[i] < |before|)
    && (forall i :: 0 <= i < |after| && origin[i] >= 0 ==> SameId(after[i], before[origin[i]]))
    && (forall i, j :: 0 <= i < j < |after| && origin[i] >= 0 ==> origin[i] != origin[j])
    && (forall i, j :: 0 <= i < |after| && 0 <= j < |after| && i != j && origin[i] == -1 ==>
      !Collide(after[i], after[j]))
  }

  function Identity(n: nat): seq<int> {
    seq(n, i => i)
  }

  lemma AppendDescends(us: seq<User>, u: User)
    requires forall i :: 0 <= i < |us| ==> !Collide(us[i], u)
    ensures Descends(us, us + [u], Identity(|us|) + [-1])
  {
    assert forall i :: 0 <= i < |us| ==> !Collide(u, us[i]);
  }

  lemma SameIdsDescend(us: seq<User>, vs: seq<User>)
    requires |us| == |vs| && forall i :: 0 <= i < |us| ==> SameId(vs[i], us[i])
    ensures Descends(us, vs, Identity(|us|))
  {
  }

  lemma DropDescends(us: seq<User>, i: nat)
    requires i < |us|
    ensures Descends(us, us[..i] + us[i + 1..], seq(|us| - 1, j => if j < i then j else j + 1))
  {
  }

  lemma EditDescends(op: Op, us: seq<User>) returns (origin: seq<int>)
    requires op.Add? ==> forall i :: 0 <= i < |us| ==> !Clashes(us[i], op.user)
    ensures Descends(us, EditList(op, us), origin)
  {
    match op
    case Add(u, _) =>
      origin := Identity(|us|) + [-1];
      forall i | 0 <= i < |us|
        ensures !Collide(us[i], Stored(u))
      {
        ClashIsCollision(us[i], u);
      }
      AppendDescends(us, Stored(u));
    case SetGroups(_, _) =>
      origin := Identity(|us|);
      SameIdsDescend(us, EditList(op, us));
    case Delete(username) =>
      var i := IndexOf(us, username);
      if i < |us| {
        origin := seq(|us| - 1, j => if j < i then j else j + 1);
        DropDescends(us, i);
      } else {
        origin := Identity(|us|);
        SameIdsDescend(us, us);
      }
  }

  lemma DescendsComposes(a: seq<User>, b: seq<User>, c: seq<User>, ab: seq<int>, bc: seq<int>) returns (ac: seq<int>)
    requires Descends(a, b, ab) && Descends(b, c, bc)
    ensures Descends(a, c, ac)
  {
    ac := seq(|c|, i requires 0 <= i < |c| => if bc[i] == -1 then -1 else ab[bc[i]]);
    forall i, j | 0 <= i < |c| && 0 <= j < |c| && i != j && ac[i] == -1
      ensures !Collide(c[i], c[j])
    {
      if bc[i] >= 0 && bc[j] >= 0 {
        assert bc[i] != bc[j];
        assert !Collide(b[bc[i]], b[bc[j]]);
      } else if bc[i] >= 0 {
        assert !Collide(c[j], c[i]);
      }
    }
  }

  /** So every colliding pair was there before: its two members are two colliding accounts of `before`. */
  lemma NoNewCollision(before: seq<User>, after: seq<User>, origin: seq<int>, i: nat, j: nat)
    requires Descends(before, after, origin)
    requires i < j < |after| && Collide(after[i], after[j])
    ensures 0 <= origin[i] < |before| && 0 <= origin[j] < |before| && origin[i] != origin[j]
    ensures Collide(before[origin[i]], before[origin[j]])
  {
    assert Collide(after[j], after[i]);
  }

  lemma CollisionFreeKept(before: seq<User>, after: seq<User>, origin: seq<int>)
    requires Descends(before, after, origin) && CollisionFree(before)
    ensures CollisionFree(after)
  {
    forall i, j | 0 <= i < j < |after|
      ensures !Collide(after[i], after[j])
    {
      if Collide(after[i], after[j]) {
        NoNewCollision(before, after, origin, i, j);
        assert false;
      }
    }
  }
}
