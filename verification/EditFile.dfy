/**
 The in-memory half of one attempt, step by step on nodes: parse, snapshot, edit in place, encode,
 re-parse, snapshot, verify. It computes exactly UserFile.Apply.
 */
module EditFile {
  import opened Text
  import opened YamlTree
  import opened UserFile
  import opened NodeTree
  import opened Exactness

  /** The mapping node under "users" of a file whose null has been normalised. */
  ghost predicate AtUsers(a: Values, root: Node, users: Node)
    reads a.Keys
  {
    && Carries(a) && root in a && users in a && root.parent == null
    && IsUsersFile(a[root]) && a[users].kind.Mapping?
    && var at := 2 * FirstIndex(a[root].kids, "users") + 1;
       at < |root.content| && root.content[at] == users
  }

  lemma WithUsersAgain(root: Tree, first: seq<Tree>, kids: seq<Tree>)
    requires IsUsersFile(root)
    ensures IsUsersFile(WithUsers(root, first)) && WithUsers(WithUsers(root, first), kids) == WithUsers(root, kids)
  {
    UsersOfWithUsers(root, first);
  }

  /** Overwrite a scalar node's own fields. */
  method MakeMapping(u: Node, ghost a: Values)
    requires Carries(a) && u in a
    modifies u`kind, u`tag, u`value
    ensures Pending(a, u, a[u].(kind := Mapping, tag := "!!map", value := ""))
  {
    u.kind, u.tag, u.value := Mapping, "!!map", "";
    forall n | n in a && n != u
      ensures Holds(a, n, a[n])
    {
      assert old(Holds(a, n, a[n]));
    }
    assert Holds(a, u, a[u].(kind := Mapping, tag := "!!map", value := "")) by { assert old(Holds(a, u, a[u])); }
  }

  /** An empty mapping where the null was. */
  method Normalise(u: Node, root: Node, ghost a0: Values) returns (ghost a: Values)
    requires Carries(a0) && root in a0 && u in a0 && root.parent == null && u != root
    requires IsUsersFile(a0[root]) && a0[u].kind.Scalar?
    requires var at := 2 * FirstIndex(a0[root].kids, "users") + 1; at < |root.content| && root.content[at] == u
    modifies u`kind, u`tag, u`value
    ensures a.Keys == a0.Keys && AtUsers(a, root, u) && a[root] == WithUsers(a0[root], Users(a0[root]))
  {
    assert a0[u] == a0[root].kids[2 * FirstIndex(a0[root].kids, "users") + 1];
    assert Normal(a0[u]) == a0[u].(kind := Mapping, tag := "!!map", value := "");
    MakeMapping(u, a0);
    NormaliseRaises(u, root, a0);
    a := Put(Put(a0, u, Normal(a0[u])), root, WithUsers(a0[root], Users(a0[root])));
  }

  /** The change of the users node, seen from the root. */
  lemma NormaliseRaises(u: Node, root: Node, a0: Values)
    requires root in a0 && u in a0 && root.parent == null && u != root && IsUsersFile(a0[root]) && a0[u].kind.Scalar?
    requires var at := 2 * FirstIndex(a0[root].kids, "users") + 1;
             at < |root.content| && root.content[at] == u && a0[root].kids[at] == a0[u]
    requires Pending(a0, u, Normal(a0[u]))
    ensures AtUsers(Put(Put(a0, u, Normal(a0[u])), root, WithUsers(a0[root], Users(a0[root]))), root, u)
  {
    var t, at, r := Normal(a0[u]), 2 * FirstIndex(a0[root].kids, "users") + 1, WithUsers(a0[root], Users(a0[root]));
    assert r == a0[root].(kids := a0[root].kids[at := t]);
    Raise(a0, u, t, root, at);
    RaiseTop(Put(a0, u, t), root, r);
    UsersOfWithUsers(a0[root], Users(a0[root]));
  }

  /** usersMap: find the mapping under "users", turning a null into an empty mapping in place. */
  method UsersMap(root: Node, ghost a0: Values) returns (m: Node?, ghost a: Values)
    requires Carries(a0) && root in a0 && root.parent == null
    modifies a0.Keys
    ensures a.Keys == a0.Keys && Carries(a) && root.parent == null
    ensures m == null ==> !IsUsersFile(a0[root]) && a == a0
    ensures m != null ==> IsUsersFile(a0[root]) && AtUsers(a, root, m) && a[m].kids == Users(a0[root])
    ensures m != null ==> a[root] == WithUsers(a0[root], Users(a0[root]))
    ensures forall n :: n in a0 && n != m ==> unchanged(n)
  {
    a := a0;
    if !root.kind.Mapping? { return null, a0; }
    var i := FindIndex(root, "users", a0);
    if i == |root.content| / 2 { return null, a0; }
    var u := root.content[2 * i + 1];
    assert Holds(a0, u, a0[u]) && u != root;
    if u.kind.Scalar? && (u.tag == "!!null" || u.value == "") {
      a := Normalise(u, root, a0);
      return u, a;
    }
    if !u.kind.Mapping? { return null, a0; }
    assert WithUsers(a0[root], Users(a0[root])) == a0[root] by {
      assert a0[root].kids == a0[root].kids[2 * i + 1 := a0[u]];
    }
    m := u;
  }

  lemma {:induction false} SnapshotFails(kids: seq<Tree>, i: nat, n: nat)
    requires i <= n <= |kids| / 2 && Snapshot(kids, i).None?
    ensures Snapshot(kids, n).None?
  {
    if i < n { SnapshotFails(kids, i, n - 1); }
  }

  /** The i-th key's value and the tree under it. */
  method ReadPair(m: Node, i: nat, ghost a: Values) returns (name: string, t: Tree)
    requires Carries(a) && m in a && i < |m.content| / 2
    ensures name == a[m].kids[2 * i].value && t == a[m].kids[2 * i + 1]
  {
    assert Holds(a, m.content[2 * i], a[m].kids[2 * i]);
    name := m.content[2 * i].value;
    t := ReadBack(m.content[2 * i + 1], a);
  }

  lemma SnapshotStops(kids: seq<Tree>, i: nat)
    requires i < |kids| / 2 && DecodeEntry(kids[2 * i + 1]).None?
    ensures Snapshot(kids, i + 1).None?
  {
  }

  /** Decode the i-th entry and put it under its username. */
  method DecodeNext(users: Node, i: nat, out: Snap, ghost a: Values) returns (next: Option<Snap>)
    requires Carries(a) && users in a && i < |users.content| / 2 && Snapshot(a[users].kids, i) == Some(out)
    ensures next == Snapshot(a[users].kids, i + 1)
  {
    hide *;
    ContentLength(a, users);
    var name, t := ReadPair(users, i, a);
    var m := DecodeEntry(t);
    if m.None? {
      SnapshotStops(a[users].kids, i);
      return None;
    }
    SnapshotNext(a[users].kids, i + 1, a[users].kids[2 * i], t);
    next := Some(out[name := m.value]);
  }

  lemma NothingDecoded(kids: seq<Tree>)
    ensures Snapshot(kids, 0) == Some(map[])
  {
  }

  method DecodeEntries(users: Node, ghost a: Values) returns (s: Option<Snap>)
    requires Carries(a) && users in a
    ensures s == Snapshot(a[users].kids, |a[users].kids| / 2)
  {
    hide *;
    ghost var kids, n := a[users].kids, |users.content| / 2;
    ContentLength(a, users);
    NothingDecoded(kids);
    s := Some(map[]);
    var i := 0;
    while 2 * i + 1 < |users.content| && s.Some?
      invariant i <= n == |kids| / 2 && s == Snapshot(kids, i)
      decreases n - i
    {
      s := DecodeNext(users, i, s.value, a);
      i := i + 1;
    }
    if s.None? { SnapshotFails(kids, i, n); }
  }

  /** snapshot: decode every entry under "users". */
  method TakeSnapshot(root: Node, ghost a0: Values) returns (s: Option<Snap>, ghost a: Values)
    requires Carries(a0) && root in a0 && root.parent == null
    modifies a0.Keys
    ensures a.Keys == a0.Keys && Carries(a) && root.parent == null
    ensures s == if IsUsersFile(a0[root]) then Snapshot(Users(a0[root]), |Users(a0[root])| / 2) else None
    ensures a[root] == if IsUsersFile(a0[root]) then WithUsers(a0[root], Users(a0[root])) else a0[root]
  {
    var users;
    users, a := UsersMap(root, a0);
    if users == null { return None, a; }
    UsersOfWithUsers(a0[root], Users(a0[root]));
    s := DecodeEntries(users, a);
  }

  // ----- the edit closures -----

  /** users is the node whose content is the users of the file at root. */
  ghost predicate Under(a: Values, root: Node, users: Node)
    reads root
  {
    && root in a && users in a && root != users && root.parent == null
    && IsUsersFile(a[root]) && a[users].kind.Mapping?
    && var at := 2 * FirstIndex(a[root].kids, "users") + 1;
       at < |root.content| && root.content[at] == users && a[root].kids[at] == a[users]
  }

  lemma AtUsersUnder(a: Values, root: Node, users: Node)
    requires AtUsers(a, root, users)
    ensures Under(a, root, users) && users.parent == root
  {
  }

  lemma UnderExtended(a: Values, b: Values, root: Node, users: Node)
    requires Under(a, root, users) && root in b && users in b && b[root] == a[root] && b[users] == a[users]
    ensures Under(b, root, users)
  {
  }

  /** Once the users node holds the new content, the file carries it. */
  lemma CarryToRoot(a: Values, root: Node, users: Node, kids: seq<Tree>)
    requires Under(a, root, users) && Pending(a, users, a[users].(kids := kids))
    ensures Carries(Put(Put(a, users, a[users].(kids := kids)), root, WithUsers(a[root], kids)))
  {
    var at, t := 2 * FirstIndex(a[root].kids, "users") + 1, a[users].(kids := kids);
    Raise(a, users, t, root, at);
    RaiseTop(Put(a, users, t), root, WithUsers(a[root], kids));
  }

  /** The i-th account. */
  method ReadUser(users: Node, i: nat, ghost a: Values) returns (u: User)
    requires Carries(a) && users in a && i < |users.content| / 2
    ensures i < |ListOf(a[users].kids)| && u == ListOf(a[users].kids)[i]
  {
    hide *;
    ContentLength(a, users);
    var name, t := ReadPair(users, i, a);
    ListedAt(a[users].kids, i);
    u := DecodeUser(name, t);
  }

  /** Add's scan of the existing accounts. */
  method FindClash(users: Node, u: User, ghost a: Values) returns (clash: bool)
    requires Carries(a) && users in a
    ensures clash <==> Clash(ListOf(a[users].kids), u)
  {
    hide Carries, Holds, ListOf, DecodeUser, EqualFold;
    ghost var us := ListOf(a[users].kids);
    ContentLength(a, users);
    ListLength(a[users].kids);
    var i := 0;
    while 2 * i + 1 < |users.content|
      invariant i <= |us|
      invariant forall j :: 0 <= j < i ==> !Clashes(us[j], u)
    {
      var existing := ReadUser(users, i, a);
      if EqualFold(existing.username, u.username) || EqualFold(existing.email, u.email) {
        assert Clashes(us[i], u);
        return true;
      }
      i := i + 1;
    }
    clash := false;
  }

  method AppendUser(users: Node, u: User, hash: string, ghost a0: Values) returns (ghost a: Values)
    requires Carries(a0) && users in a0
    modifies users`content
    ensures a0.Keys <= a.Keys && (forall o :: o in a0 ==> a[o] == a0[o])
    ensures Pending(a, users, a0[users].(kids := a0[users].kids + [ScalarTree(u.username), NewEntry(u, hash)]))
  {
    var key, val;
    key, a := Build(ScalarTree(u.username), a0);
    val, a := Build(NewEntry(u, hash), a);
    assert [a[key], a[val]] == [ScalarTree(u.username), NewEntry(u, hash)];
    AppendPair(users, key, val, a);
  }

  method AddEdit(users: Node, root: Node, u: User, hash: string, ghost a0: Values)
    returns (err: Option<Error>, ghost a: Values)
    requires AtUsers(a0, root, users)
    modifies a0.Keys
    ensures Clash(ListOf(a0[users].kids), u) ==> err == Some(Duplicate)
    ensures !Clash(ListOf(a0[users].kids), u) ==>
      && err == None && Carries(a) && root in a
      && a[root] == WithUsers(a0[root], a0[users].kids + [ScalarTree(u.username), NewEntry(u, hash)])
  {
    var clash := FindClash(users, u, a0);
    if clash { return Some(Duplicate), a0; }
    AtUsersUnder(a0, root, users);
    a := AppendUser(users, u, hash, a0);
    UnderExtended(a0, a, root, users);
    ghost var r := a0[users].kids + [ScalarTree(u.username), NewEntry(u, hash)];
    CarryToRoot(a, root, users, r);
    a := Put(Put(a, users, a[users].(kids := r)), root, WithUsers(a0[root], r));
    err := None;
  }

  method DeleteEdit(users: Node, root: Node, username: string, ghost a0: Values)
    returns (err: Option<Error>, ghost a: Values)
    requires AtUsers(a0, root, users)
    modifies a0.Keys
    ensures !Has(a0[users].kids, username) ==> err == Some(NotFound)
    ensures Has(a0[users].kids, username) ==>
      && err == None && Carries(a) && root in a
      && a[root] == WithUsers(a0[root], RemovePair(a0[users].kids, FirstIndex(a0[users].kids, username)))
  {
    var i := FindIndex(users, username, a0);
    if i == |users.content| / 2 { return Some(NotFound), a0; }
    AtUsersUnder(a0, root, users);
    DeletePair(users, i, a0);
    ghost var r := RemovePair(a0[users].kids, i);
    CarryToRoot(a0, root, users, r);
    a := Put(Put(a0, users, a0[users].(kids := r)), root, WithUsers(a0[root], r));
    err := None;
  }

  /** The field edit reaches the users node through the entry's own reference. */
  method RegroupUser(users: Node, ghost i: nat, val: Node, groups: seq<string>, ghost a0: Values)
    returns (ghost a: Values)
    requires Carries(a0) && users in a0 && i < |users.content| / 2 && val == users.content[2 * i + 1] && val != users
    modifies val`content
    ensures a0.Keys <= a.Keys && (forall o :: o in a0 && o != val ==> a[o] == a0[o])
    ensures Pending(a, users, a0[users].(kids := RegroupAt(a0[users].kids, i, groups)))
  {
    a := SetMapField(val, "groups", SeqTree(groups), a0);
    ghost var e := Regrouped(a0[val], groups);
    assert a[users] == a0[users] && a0[val] == a0[users].kids[2 * i + 1];
    Raise(a, val, e, users, 2 * i + 1);
    a := Put(a, val, e);
  }

  method SetGroupsEdit(users: Node, root: Node, username: string, groups: seq<string>, ghost a0: Values)
    returns (err: Option<Error>, ghost a: Values)
    requires AtUsers(a0, root, users)
    modifies a0.Keys
    ensures !Has(a0[users].kids, username) ==> err == Some(NotFound)
    ensures Has(a0[users].kids, username) ==>
      && err == None && Carries(a) && root in a
      && a[root] == WithUsers(a0[root], RegroupFirst(a0[users].kids, username, groups))
  {
    var val := FindUser(users, username, a0);
    if val == null { return Some(NotFound), a0; }
    AtUsersUnder(a0, root, users);
    assert val.parent == users;
    ghost var r := RegroupFirst(a0[users].kids, username, groups);
    a := RegroupUser(users, FirstIndex(a0[users].kids, username), val, groups, a0);
    UnderExtended(a0, a, root, users);
    CarryToRoot(a, root, users, r);
    a := Put(Put(a, users, a[users].(kids := r)), root, WithUsers(a0[root], r));
    err := None;
  }

  // ----- the verify closures -----

  /** untouchedEqual, name by name over both snapshots. */
  method UntouchedEqual(c: Codec, before: Snap, after: Snap, exempt: string) returns (ok: bool)
    ensures ok <==> Untouched(c, before, after, exempt)
  {
    var names := before.Keys;
    while names != {}
      invariant names <= before.Keys
      invariant forall k :: k in before && k !in names && k != exempt ==>
        k in after && SameEntry(c, before[k], after[k])
    {
      var name :| name in names;
      names := names - {name};
      if name != exempt {
        if name !in after { return false; }
        var b, g := c.marshal(before[name]), c.marshal(after[name]);
        if b.None? || g.None? || b != g { return false; }
      }
    }
    names := after.Keys;
    while names != {}
      invariant names <= after.Keys
      invariant forall k :: k in after && k !in names && k != exempt ==> k in before
    {
      var name :| name in names;
      names := names - {name};
      if name != exempt && name !in before { return false; }
    }
    ok := true;
  }

  /** sameStrings, item by item. */
  method SameStrings(got: seq<Any>, want: seq<string>) returns (ok: bool)
    ensures ok <==> got == Strs(want)
  {
    if |got| != |want| { return false; }
    for i := 0 to |got|
      invariant forall j :: 0 <= j < i ==> got[j] == Str(want[j])
    {
      if got[i] != Str(want[i]) {
        assert Strs(want)[i] == Str(want[i]);
        return false;
      }
    }
    ok := true;
  }

  method VerifyEdit(c: Codec, op: Op, before: Snap, after: Snap) returns (ok: bool)
    ensures ok <==> Verify(c, op, before, after)
  {
    ok := UntouchedEqual(c, before, after, Target(op));
    if !ok { return; }
    match op
    case Add(u, _) =>
      if u.username !in after || u.username in before { return false; }
      var added := after[u.username];
      ok := "email" in added && added["email"] == Str(ToLower(u.email)) && |after| == |before| + 1;
    case SetGroups(username, groups) =>
      if |after| != |before| { return false; }
      ok := SameStrings(if username in after then GroupsOf(after[username]) else [], groups);
    case Delete(username) =>
      ok := username !in after && |after| == |before| - 1;
  }

  // ----- the attempt up to the point where files are touched -----

  method EditNodes(op: Op, users: Node, root: Node, ghost a0: Values) returns (err: Option<Error>, ghost a: Values)
    requires AtUsers(a0, root, users)
    modifies a0.Keys
    ensures match EditUsers(op, a0[users].kids)
            case Failed(e) => err == Some(e)
            case NewContent(kids) => err == None && Carries(a) && root in a && a[root] == WithUsers(a0[root], kids)
  {
    match op
    case Add(u, hash) => err, a := AddEdit(users, root, u, hash, a0);
    case SetGroups(username, groups) => err, a := SetGroupsEdit(users, root, username, groups, a0);
    case Delete(username) => err, a := DeleteEdit(users, root, username, a0);
  }

  /** The snapshot of what would be written. */
  method SnapshotBytes(c: Codec, b: Bytes) returns (s: Option<Snap>)
    ensures s == SnapshotOf(c, b)
  {
    var doc := ParseBytes(c, b);
    if doc.None? { return None; }
    var root, a := Build(doc.value, map[]);
    s, a := TakeSnapshot(root, a);
  }

  /** Encode, re-parse our own output, and verify it against the snapshot taken before. */
  method CheckOutput(c: Codec, op: Op, before: Snap, edited: Tree) returns (r: Outcome)
    ensures r == EncodeAndJudge(c, op, before, edited)
  {
    var out := c.encode(edited);
    if out.None? { return Reject(EncodeFailed); }
    var after := SnapshotBytes(c, out.value);
    if after.None? { return Reject(BadOutput); }
    var ok := VerifyEdit(c, op, before, after.value);
    r := if ok then Replace(out.value) else Reject(Refused);
  }

  /** The nodes of a document after its snapshot was taken, and its users mapping. */
  method Prepare(t: Tree) returns (root: Node, users: Node?, before: Option<Snap>, ghost a: Values)
    ensures users == null <==> !IsUsersFile(t)
    ensures users != null ==>
      && AtUsers(a, root, users) && a[users].kids == Users(t) && a[root] == WithUsers(t, Users(t))
      && before == Snapshot(Users(t), |Users(t)| / 2)
      && fresh(a.Keys)
  {
    root, a := Build(t, map[]);
    before, a := TakeSnapshot(root, a);
    users, a := UsersMap(root, a);
    if IsUsersFile(t) {
      UsersIdempotent(t);
      assert Users(WithUsers(t, Users(t))) == Users(t);
    }
  }

  /** Snapshot, edit in place and check one parsed document. */
  method EditDocument(c: Codec, op: Op, t: Tree) returns (r: Outcome)
    ensures r == ApplyTo(c, op, t)
  {
    var root, users, before, a := Prepare(t);
    if users == null { return Reject(NotAUsersFile); }
    if before.None? { return Reject(BadEntry); }
    var err;
    err, a := EditNodes(op, users, root, a);
    if err.Some? { return Reject(err.value); }
    var edited := ReadBack(root, a);
    ghost var kids := EditUsers(op, Users(t)).kids;
    WithUsersAgain(t, Users(t), kids);
    r := CheckOutput(c, op, before.value, edited);
  }

  /** mutateOnce from the bytes it read to the bytes it will write, or the reason why not. */
  method Plan(c: Codec, op: Op, original: Bytes) returns (r: Outcome)
    ensures r == Apply(c, op, original)
  {
    var doc := ParseBytes(c, original);
    if doc.None? { return Reject(Unparsable); }
    r := EditDocument(c, op, doc.value);
  }

  // ----- reading -----

  /** The accounts in a file's bytes, if it is a users file. */
  function ListedIn(c: Codec, b: Bytes): Option<seq<User>> {
    match ParseBytes(c, b)
    case None => None
    case Some(root) => if IsUsersFile(root) then Some(ListOf(Users(root))) else None
  }

  method ListUsers(c: Codec, b: Bytes) returns (r: Option<seq<User>>)
    ensures r == ListedIn(c, b)
    ensures r.Some? <==> ParseBytes(c, b).Some? && IsUsersFile(ParseBytes(c, b).value)
  {
    var doc := ParseBytes(c, b);
    if doc.None? { return None; }
    var root, a := Build(doc.value, map[]);
    var users;
    users, a := UsersMap(root, a);
    if users == null { return None; }
    var out := ListEntries(users, a);
    r := Some(out);
  }

  method ListEntries(users: Node, ghost a: Values) returns (out: seq<User>)
    requires Carries(a) && users in a
    ensures out == ListOf(a[users].kids)
  {
    hide *;
    ghost var us := ListOf(a[users].kids);
    ContentLength(a, users);
    ListLength(a[users].kids);
    out := [];
    var i := 0;
    while 2 * i + 1 < |users.content|
      invariant i <= |us| && out == us[..i]
    {
      var u := ReadUser(users, i, a);
      out := out + [u];
      i := i + 1;
    }
  }
}
