/**
 With a faithful YAML library the self-check never refuses a sound edit: exactly when each
 operation commits, and what the committed file is.
 */
module Exactness {
  import opened Text
  import opened YamlTree
  import opened UserFile
  import Soundness

  /** The bytes hold one well-formed document whose users entries all decode. */
  ghost predicate Readable(c: Codec, b: Bytes, root: Tree) {
    && c.scan(b) == ([root], true)
    && WellFormed(root)
    && IsUsersFile(root)
    && Snapshot(Users(root), |Users(root)| / 2).Some?
  }

  /** Well-formed mapping content. */
  ghost predicate AllWellFormed(kids: seq<Tree>) {
    |kids| % 2 == 0 && forall t :: t in kids ==> WellFormed(t)
  }

  lemma UsersWellFormed(root: Tree)
    requires WellFormed(root) && IsUsersFile(root)
    ensures AllWellFormed(Users(root))
  {
    WellFormedParts(root, 2 * FirstIndex(root.kids, "users") + 1);
  }

  lemma {:induction false} SnapshotCongruent(a: seq<Tree>, b: seq<Tree>, n: nat)
    requires n <= |a| / 2 && n <= |b| / 2
    requires forall i :: 0 <= i < 2 * n ==> a[i] == b[i]
    ensures Snapshot(a, n) == Snapshot(b, n)
  {
    if n > 0 { SnapshotCongruent(a, b, n - 1); }
  }

  /** Another entry with this key in (i, n). */
  ghost predicate Later(kids: seq<Tree>, i: nat, n: nat, k: string)
    requires n <= |kids| / 2
  {
    exists j :: i < j < n && kids[2 * j].value == k
  }

  lemma {:induction false} EntriesDecode(kids: seq<Tree>, n: nat, i: nat)
    requires i < n <= |kids| / 2 && Snapshot(kids, n).Some?
    ensures DecodeEntry(kids[2 * i + 1]).Some?
    ensures kids[2 * i].value in Snapshot(kids, n).value
    ensures !Later(kids, i, n, kids[2 * i].value) ==>
              Snapshot(kids, n).value[kids[2 * i].value] == DecodeEntry(kids[2 * i + 1]).value
  {
    if i < n - 1 {
      EntriesDecode(kids, n - 1, i);
      if !Later(kids, i, n, kids[2 * i].value) {
        assert kids[2 * (n - 1)].value != kids[2 * i].value;
        assert !Later(kids, i, n - 1, kids[2 * i].value);
      }
    }
  }

  /** Replacing one entry changes at most its own username, and that only if no later entry hides it. */
  lemma {:induction false} SnapshotReplaced(kids: seq<Tree>, n: nat, i: nat, v: Tree)
    requires i < n <= |kids| / 2
    requires Snapshot(kids, n).Some? && DecodeEntry(v).Some?
    ensures var k, m, r := kids[2 * i].value, Snapshot(kids, n).value, kids[2 * i + 1 := v];
            && Snapshot(r, n).Some? && k in m
            && Snapshot(r, n).value == (if Later(kids, i, n, k) then m else m[k := DecodeEntry(v).value])
  {
    hide DecodeEntry;
    var k, r := kids[2 * i].value, kids[2 * i + 1 := v];
    assert r[2 * n - 2] == kids[2 * n - 2];
    EntriesDecode(kids, n, i);
    if i == n - 1 {
      SnapshotCongruent(kids, r, n - 1);
      var rest := Snapshot(kids, n - 1).value;
      assert rest[k := DecodeEntry(kids[2 * i + 1]).value][k := DecodeEntry(v).value]
        == rest[k := DecodeEntry(v).value];
    } else {
      SnapshotReplaced(kids, n - 1, i, v);
      var b, rest := kids[2 * (n - 1)].value, Snapshot(kids, n - 1).value;
      var y := DecodeEntry(kids[2 * n - 1]).value;
      assert r[2 * n - 1] == kids[2 * n - 1];
      if b == k {
        assert rest[k := DecodeEntry(v).value][b := y] == rest[b := y];
      } else {
        assert rest[k := DecodeEntry(v).value][b := y] == rest[b := y][k := DecodeEntry(v).value];
        assert Later(kids, i, n, k) ==> Later(kids, i, n - 1, k);
      }
    }
  }

  lemma MinusThenUpdate<K, V>(m: map<K, V>, k: K, b: K, y: V)
    ensures (m - {k})[b := y] == if b == k then m[b := y] else m[b := y] - {k}
  {
  }

  /** What is left of the usernames and entries when the pair at i is gone. */
  ghost function Without(kids: seq<Tree>, n: nat, i: nat): Snap
    requires i < n <= |kids| / 2 && Snapshot(kids, n).Some?
  {
    var k, m := kids[2 * i].value, Snapshot(kids, n).value;
    if Later(kids, i, n, k) then m else m - {k}
  }

  lemma WithoutStep(kids: seq<Tree>, n: nat, i: nat)
    requires i < n - 1 && n <= |kids| / 2 && Snapshot(kids, n).Some?
    ensures Snapshot(kids, n - 1).Some? && DecodeEntry(kids[2 * n - 1]).Some?
    ensures Without(kids, n, i)
      == Without(kids, n - 1, i)[kids[2 * (n - 1)].value := DecodeEntry(kids[2 * n - 1]).value]
  {
    var k, b, rest, y :=
      kids[2 * i].value, kids[2 * (n - 1)].value, Snapshot(kids, n - 1).value, DecodeEntry(kids[2 * n - 1]).value;
    MinusThenUpdate(rest, k, b, y);
    assert Snapshot(kids, n).value == rest[b := y];
    assert Later(kids, i, n - 1, k) ==> Later(kids, i, n, k);
    if b == k {
      assert Later(kids, i, n, k);
    } else {
      assert Later(kids, i, n, k) ==> Later(kids, i, n - 1, k);
    }
  }

  lemma SnapshotNext(kids: seq<Tree>, n: nat, key: Tree, entry: Tree)
    requires 0 < n <= |kids| / 2 && kids[2 * n - 2] == key && kids[2 * n - 1] == entry
    requires Snapshot(kids, n - 1).Some? && DecodeEntry(entry).Some?
    ensures Snapshot(kids, n) == Some(Snapshot(kids, n - 1).value[key.value := DecodeEntry(entry).value])
  {
  }

  lemma WithoutLast(kids: seq<Tree>, n: nat)
    requires 0 < n <= |kids| / 2 && Snapshot(kids, n).Some?
    requires forall j :: 0 <= j < n - 1 ==> kids[2 * j].value != kids[2 * (n - 1)].value
    ensures Snapshot(kids, n - 1) == Some(Without(kids, n, n - 1))
  {
    var k, rest := kids[2 * (n - 1)].value, Snapshot(kids, n - 1).value;
    Soundness.SnapshotKeys(kids, n - 1, k);
    MinusThenUpdate(rest, k, k, DecodeEntry(kids[2 * n - 1]).value);
    assert rest[k := DecodeEntry(kids[2 * n - 1]).value] - {k} == rest;
  }

  /** Splicing one entry out removes its username, unless a later entry carries it too. */
  lemma {:induction false} SnapshotRemoved(kids: seq<Tree>, n: nat, i: nat)
    requires i < n <= |kids| / 2
    requires Snapshot(kids, n).Some?
    requires forall j :: 0 <= j < i ==> kids[2 * j].value != kids[2 * i].value
    ensures Snapshot(RemovePair(kids, i), n - 1) == Some(Without(kids, n, i))
  {
    hide DecodeEntry, Without;
    var r := RemovePair(kids, i);
    if i == n - 1 {
      SnapshotCongruent(kids, r, n - 1);
      WithoutLast(kids, n);
    } else {
      WithoutStep(kids, n, i);
      SnapshotRemoved(kids, n - 1, i);
      RemovePairAt(kids, i, n - 2);
      SnapshotNext(r, n - 1, kids[2 * (n - 1)], kids[2 * n - 1]);
    }
  }

  lemma NewEntryDecodes(u: User, hash: string)
    ensures WellFormed(NewEntry(u, hash))
    ensures DecodeEntry(NewEntry(u, hash)) == Some(map[
              "displayname" := Str(u.displayName), "email" := Str(ToLower(u.email)),
              "password" := Str(hash), "groups" := List(Strs(u.groups))])
  {
    var kids := NewEntry(u, hash).kids;
    DecodeSeqTree(u.groups);
    assert forall i :: 0 <= i < |SeqTree(u.groups).kids| ==> WellFormed(SeqTree(u.groups).kids[i]);
    assert WellFormed(kids[7]);
    assert DecodeFields(kids, 1) == Some(map["displayname" := Str(u.displayName)]);
    assert DecodeFields(kids, 2) == Some(map["displayname" := Str(u.displayName), "email" := Str(ToLower(u.email))]);
    assert DecodeFields(kids, 3) == Some(map["displayname" := Str(u.displayName), "email" := Str(ToLower(u.email)),
                                             "password" := Str(hash)]);
  }

  /** The committed bytes parse to the file that was read, with this content under "users". */
  ghost predicate Commits(c: Codec, op: Op, b: Bytes, root: Tree, kids: seq<Tree>)
    requires IsUsersFile(root)
  {
    && Apply(c, op, b).Replace?
    && c.scan(Apply(c, op, b).out) == ([WithUsers(root, kids)], true)
    && Readable(c, Apply(c, op, b).out, WithUsers(root, kids))
  }

  /** The attempt commits this content if ok, and is refused otherwise. */
  ghost predicate Judged(c: Codec, op: Op, b: Bytes, root: Tree, kids: seq<Tree>, ok: bool)
    requires IsUsersFile(root)
  {
    if ok then Commits(c, op, b, root, kids) else Apply(c, op, b) == Reject(Refused)
  }

  lemma FaithfulReadBack(c: Codec, r: Tree)
    requires Faithful(c) && c.knows(r) && IsUsersFile(r)
    requires Snapshot(Users(r), |Users(r)| / 2).Some?
    ensures c.encode(r).Some? && Readable(c, c.encode(r).value, r)
    ensures SnapshotOf(c, c.encode(r).value) == Snapshot(Users(r), |Users(r)| / 2)
  {
  }

  lemma ParsedIsKnown(c: Codec, b: Bytes, root: Tree)
    requires Closed(c) && root in c.scan(b).0
    ensures c.knows(root) && WellFormed(root)
  {
  }

  lemma EditedIsKnown(c: Codec, op: Op, b: Bytes, root: Tree, kids: seq<Tree>)
    requires Closed(c) && Readable(c, b, root) && EditUsers(op, Users(root)) == NewContent(kids)
    ensures c.knows(Visible(WithUsers(root, kids)))
  {
    assert root in c.scan(b).0;
    ParsedIsKnown(c, b, root);
  }

  /** Under a faithful codec an attempt stands or falls with verification of the edited content itself. */
  lemma FaithfulApply(c: Codec, op: Op, b: Bytes, root: Tree, kids: seq<Tree>)
    requires Faithful(c) && Readable(c, b, root)
    requires EditUsers(op, Users(root)) == NewContent(kids)
    requires AllWellFormed(kids)
    requires Snapshot(kids, |kids| / 2).Some?
    ensures var before, after := Snapshot(Users(root), |Users(root)| / 2).value, Snapshot(kids, |kids| / 2).value;
            Judged(c, op, b, root, kids, Verify(c, op, before, after))
  {
    var r := WithUsers(root, kids);
    WithUsersWellFormed(root, kids);
    UsersOfWithUsers(root, kids);
    EditedIsKnown(c, op, b, root, kids);
    WellFormedIsVisible(r);
    FaithfulReadBack(c, r);
    assert ParseBytes(c, b) == Some(root);
    assert Apply(c, op, b) == Judge(c, op, Snapshot(Users(root), |Users(root)| / 2).value, c.encode(r).value);
  }

  lemma AddVerifies(c: Codec, u: User, hash: string, before: Snap, entry: Entry)
    requires Faithful(c) && u.username !in before
    requires "email" in entry && entry["email"] == Str(ToLower(u.email))
    ensures Verify(c, Add(u, hash), before, before[u.username := entry])
  {
    var after := before[u.username := entry];
    assert after.Keys == before.Keys + {u.username};
    Soundness.KeyCount(after);
    Soundness.KeyCount(before);
    assert Untouched(c, before, after, u.username);
  }

  lemma AppendedShape(us: seq<Tree>, key: Tree, v: Tree)
    requires AllWellFormed(us) && WellFormed(key) && WellFormed(v)
    ensures var n, kids := |us| / 2, us + [key, v];
            && AllWellFormed(kids) && |kids| / 2 == n + 1 && kids[2 * n] == key && kids[2 * n + 1] == v
            && forall i :: 0 <= i < 2 * n ==> kids[i] == us[i]
  {
  }

  lemma ScalarWellFormed(v: string)
    ensures WellFormed(ScalarTree(v)) && ScalarTree(v).value == v
  {
  }

  lemma AddedContent(us: seq<Tree>, u: User, hash: string)
    requires AllWellFormed(us) && Snapshot(us, |us| / 2).Some?
    ensures var kids := us + [ScalarTree(u.username), NewEntry(u, hash)];
            && AllWellFormed(kids)
            && DecodeEntry(NewEntry(u, hash)).Some?
            && Snapshot(kids, |kids| / 2)
            == Some(Snapshot(us, |us| / 2).value[u.username := DecodeEntry(NewEntry(u, hash)).value])
  {
    hide *;
    var n, key, v := |us| / 2, ScalarTree(u.username), NewEntry(u, hash);
    NewEntryDecodes(u, hash);
    ScalarWellFormed(u.username);
    AppendedShape(us, key, v);
    SnapshotCongruent(us, us + [key, v], n);
    SnapshotNext(us + [key, v], n + 1, key, v);
  }

  /**
   Add commits exactly when no existing username or email is equal ignoring case, and then
   appends one entry at the end.
   */
  lemma AddIsExact(c: Codec, u: User, hash: string, b: Bytes, root: Tree)
    requires Faithful(c) && Readable(c, b, root)
    ensures var us, op := Users(root), Add(u, hash);
            if Clash(ListOf(us), u) then Apply(c, op, b) == Reject(Duplicate)
            else Commits(c, op, b, root, us + [ScalarTree(u.username), NewEntry(u, hash)])
  {
    var op, us := Add(u, hash), Users(root);
    if Clash(ListOf(us), u) {
      assert ParseBytes(c, b) == Some(root);
    } else {
      var before := Snapshot(us, |us| / 2).value;
      UsersWellFormed(root);
      AddedContent(us, u, hash);
      NewEntryDecodes(u, hash);
      Soundness.SnapshotKeys(us, |us| / 2, u.username);
      assert u.username !in before by { NoClashNoKey(us, u); }
      AddVerifies(c, u, hash, before, DecodeEntry(NewEntry(u, hash)).value);
      FaithfulApply(c, op, b, root, us + [ScalarTree(u.username), NewEntry(u, hash)]);
    }
  }

  lemma NoClashNoKey(us: seq<Tree>, u: User)
    requires !Clash(ListOf(us), u)
    ensures forall i :: 0 <= i < |us| / 2 ==> us[2 * i].value != u.username
  {
    forall i | 0 <= i < |us| / 2
      ensures us[2 * i].value != u.username
    {
      assert !Clashes(ListOf(us)[i], u);
    }
  }

  lemma DeleteVerifies(c: Codec, username: string, before: Snap)
    requires Faithful(c) && username in before
    ensures Verify(c, Delete(username), before, before - {username})
    ensures !Verify(c, Delete(username), before, before)
  {
    assert before.Keys == (before - {username}).Keys + {username};
  }

  lemma RemovedWellFormed(us: seq<Tree>, i: nat)
    requires AllWellFormed(us) && i < |us| / 2
    ensures AllWellFormed(RemovePair(us, i)) && |RemovePair(us, i)| == |us| - 2
  {
    assert forall t :: t in RemovePair(us, i) ==> t in us;
  }

  lemma RemovedContent(us: seq<Tree>, username: string)
    requires AllWellFormed(us) && Snapshot(us, |us| / 2).Some? && Has(us, username)
    ensures var kids, before := RemovePair(us, FirstIndex(us, username)), Snapshot(us, |us| / 2).value;
            && username in before && |kids| == |us| - 2
            && AllWellFormed(kids)
            && Snapshot(kids, |kids| / 2) == Some(if Unique(us, username) then before - {username} else before)
  {
    var n, i := |us| / 2, FirstIndex(us, username);
    UniqueIsNotLater(us, username);
    RemovedWellFormed(us, i);
    SnapshotRemoved(us, n, i);
    assert username in Snapshot(us, n).value by { EntriesDecode(us, n, i); }
    assert |RemovePair(us, i)| / 2 == n - 1;
  }

  /**
   Delete commits exactly when the username occurs once; then that entry is gone and nothing else
   changed. A repeated username is always refused.
   */
  lemma DeleteIsExact(c: Codec, username: string, b: Bytes, root: Tree)
    requires Faithful(c) && Readable(c, b, root)
    ensures var us, op := Users(root), Delete(username);
            if !Has(us, username) then Apply(c, op, b) == Reject(NotFound)
            else Judged(c, op, b, root, RemovePair(us, FirstIndex(us, username)), Unique(us, username))
  {
    var op, us := Delete(username), Users(root);
    if !Has(us, username) {
      assert ParseBytes(c, b) == Some(root);
    } else {
      UsersWellFormed(root);
      RemovedContent(us, username);
      DeleteVerifies(c, username, Snapshot(us, |us| / 2).value);
      FaithfulApply(c, op, b, root, RemovePair(us, FirstIndex(us, username)));
    }
  }

  lemma UniqueIsNotLater(us: seq<Tree>, username: string)
    requires Has(us, username)
    ensures Unique(us, username) <==> !Later(us, FirstIndex(us, username), |us| / 2, username)
  {
  }

  lemma SeqTreeWellFormed(items: seq<string>)
    ensures WellFormed(SeqTree(items))
  {
    var t := SeqTree(items);
    assert forall i :: 0 <= i < |t.kids| ==> WellFormed(t.kids[i]);
  }

  lemma SetFieldWellFormed(kids: seq<Tree>, k: string, v: Tree)
    requires AllWellFormed(kids) && WellFormed(v)
    ensures AllWellFormed(SetField(kids, k, v))
  {
  }

  lemma RegroupedDecodes(entry: Tree, groups: seq<string>)
    requires entry.kind.Mapping? && WellFormed(entry) && DecodeEntry(entry).Some?
    ensures WellFormed(Regrouped(entry, groups))
    ensures DecodeEntry(Regrouped(entry, groups)) == Some(DecodeEntry(entry).value["groups" := List(Strs(groups))])
  {
    SeqTreeWellFormed(groups);
    SetFieldWellFormed(entry.kids, "groups", SeqTree(groups));
    DecodeSeqTree(groups);
    DecodeSetField(entry.kids, "groups", SeqTree(groups));
  }

  lemma SetGroupsVerifies(c: Codec, username: string, groups: seq<string>, before: Snap, e: Entry)
    requires Faithful(c) && username in before
    ensures Verify(c, SetGroups(username, groups), before, before[username := e]) <==> GroupsOf(e) == Strs(groups)
  {
    var after := before[username := e];
    assert after.Keys == before.Keys;
    Soundness.KeyCount(after);
    Soundness.KeyCount(before);
  }

  ghost predicate FirstIsMapping(us: seq<Tree>, username: string) {
    Has(us, username) ==> us[2 * FirstIndex(us, username) + 1].kind.Mapping?
  }

  ghost predicate AlreadyListed(us: seq<Tree>, username: string, groups: seq<string>)
    requires Snapshot(us, |us| / 2).Some?
  {
    var before := Snapshot(us, |us| / 2).value;
    username in before && GroupsOf(before[username]) == Strs(groups)
  }

  lemma RegroupedContent(us: seq<Tree>, username: string, groups: seq<string>) returns (e: Entry)
    requires AllWellFormed(us) && Snapshot(us, |us| / 2).Some? && Has(us, username) && FirstIsMapping(us, username)
    ensures var before := Snapshot(us, |us| / 2).value;
            var kids := RegroupFirst(us, username, groups);
            && username in before
            && AllWellFormed(kids)
            && Snapshot(kids, |kids| / 2) == Some(before[username := e])
            && (GroupsOf(e) == Strs(groups) <==> Unique(us, username) || AlreadyListed(us, username, groups))
  {
    var n, i := |us| / 2, FirstIndex(us, username);
    EntriesDecode(us, n, i);
    RegroupedDecodes(us[2 * i + 1], groups);
    SnapshotReplaced(us, n, i, Regrouped(us[2 * i + 1], groups));
    UniqueIsNotLater(us, username);
    var before := Snapshot(us, n).value;
    e := if Unique(us, username) then DecodeEntry(Regrouped(us[2 * i + 1], groups)).value else before[username];
    assert before == before[username := before[username]];
  }

  /** The same content with something hung below one of its scalars looks the same. */
  lemma HungBelowScalar(kids: seq<Tree>, j: nat, x: seq<Tree>)
    requires AllWellFormed(kids) && j < |kids| && kids[j].kind.Scalar?
    ensures var r := kids[j := kids[j].(kids := x)];
            forall i :: 0 <= i < |kids| ==> Visible(r[i]) == kids[i]
  {
    forall i | 0 <= i < |kids| && i != j
      ensures Visible(kids[i]) == kids[i]
    {
      WellFormedIsVisible(kids[i]);
    }
    assert WellFormed(kids[j]);
  }

  lemma VisibleMapping(t: Tree, kids: seq<Tree>)
    requires t.kind.Mapping? && |kids| == |t.kids| && forall i :: 0 <= i < |kids| ==> Visible(t.kids[i]) == kids[i]
    ensures Visible(t) == t.(kids := kids)
  {
    assert Visible(t).kids == kids;
  }

  /** So an edit of a null entry is lost in encoding. */
  lemma NullEditIsInvisible(root: Tree, j: nat, x: seq<Tree>)
    requires WellFormed(root) && IsUsersFile(root) && j < |Users(root)| && Users(root)[j].kind.Scalar?
    ensures Visible(WithUsers(root, Users(root)[j := Users(root)[j].(kids := x)])) == WithUsers(root, Users(root))
  {
    var us, at := Users(root), 2 * FirstIndex(root.kids, "users") + 1;
    var edited, w := us[j := us[j].(kids := x)], WithUsers(root, us);
    var r := WithUsers(root, edited);
    UsersWellFormed(root);
    HungBelowScalar(us, j, x);
    VisibleMapping(r.kids[at], us);
    forall i | 0 <= i < |root.kids|
      ensures Visible(r.kids[i]) == w.kids[i]
    {
      if i != at {
        WellFormedParts(root, i);
        WellFormedIsVisible(root.kids[i]);
      }
    }
    VisibleMapping(r, w.kids);
  }

  lemma UsersOfSame(root: Tree)
    requires IsUsersFile(root) && WellFormed(root)
    ensures var w := WithUsers(root, Users(root)); WellFormed(w) && IsUsersFile(w) && Users(w) == Users(root)
  {
    UsersWellFormed(root);
    WithUsersWellFormed(root, Users(root));
    UsersOfWithUsers(root, Users(root));
  }

  lemma NullEncodesAsBefore(c: Codec, username: string, groups: seq<string>, b: Bytes, root: Tree)
    requires Faithful(c) && Readable(c, b, root)
    requires Has(Users(root), username) && Users(root)[2 * FirstIndex(Users(root), username) + 1].kind.Scalar?
    ensures var edited, w := WithUsers(root, RegroupFirst(Users(root), username, groups)), WithUsers(root, Users(root));
            c.knows(w) && c.encode(edited) == c.encode(w)
  {
    var us, i := Users(root), FirstIndex(Users(root), username);
    NullEditIsInvisible(root, 2 * i + 1, SetField(us[2 * i + 1].kids, "groups", SeqTree(groups)));
    EditedIsKnown(c, SetGroups(username, groups), b, root, RegroupFirst(us, username, groups));
  }

  lemma NullRegrouped(c: Codec, username: string, groups: seq<string>, b: Bytes, root: Tree)
    requires Faithful(c) && Readable(c, b, root)
    requires Has(Users(root), username) && !FirstIsMapping(Users(root), username)
    ensures Judged(c, SetGroups(username, groups), b, root, Users(root), AlreadyListed(Users(root), username, groups))
  {
    var op, us := SetGroups(username, groups), Users(root);
    var n, before, w := |us| / 2, Snapshot(us, |us| / 2).value, WithUsers(root, us);
    EntriesDecode(us, n, FirstIndex(us, username));
    NullEncodesAsBefore(c, username, groups, b, root);
    UsersOfSame(root);
    FaithfulReadBack(c, w);
    assert ParseBytes(c, b) == Some(root);
    assert Apply(c, op, b) == Judge(c, op, before, c.encode(w).value);
    SetGroupsVerifies(c, username, groups, before, before[username]);
    assert before[username := before[username]] == before;
  }

  /**
   SetGroups edits the first entry with the username, while the check reads the last one. So it
   commits exactly when the username occurs once or its last entry already lists these groups;
   then only the `groups` field of that first entry changed. A null entry cannot take the edit: there
   the file is only ever rewritten as it was.
   */
  lemma SetGroupsIsExact(c: Codec, username: string, groups: seq<string>, b: Bytes, root: Tree)
    requires Faithful(c) && Readable(c, b, root)
    ensures var us, op := Users(root), SetGroups(username, groups);
            if !Has(us, username) then Apply(c, op, b) == Reject(NotFound)
            else if !FirstIsMapping(us, username) then Judged(c, op, b, root, us, AlreadyListed(us, username, groups))
            else Judged(c, op, b, root, RegroupFirst(us, username, groups),
                        Unique(us, username) || AlreadyListed(us, username, groups))
  {
    var op, us := SetGroups(username, groups), Users(root);
    if !Has(us, username) {
      assert ParseBytes(c, b) == Some(root);
    } else if !FirstIsMapping(us, username) {
      NullRegrouped(c, username, groups, b, root);
    } else {
      UsersWellFormed(root);
      var e := RegroupedContent(us, username, groups);
      var before, kids := Snapshot(us, |us| / 2).value, RegroupFirst(us, username, groups);
      assert EditUsers(op, us) == NewContent(kids);
      FaithfulApply(c, op, b, root, kids);
      SetGroupsVerifies(c, username, groups, before, e);
    }
  }
}
