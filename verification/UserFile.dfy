/**
 What one users-file mutation computes from the bytes it read: parse, snapshot, edit the
 tree, encode, re-parse, snapshot again, verify. The YAML codec is a parameter.
 */
module UserFile {
  import opened Text
  import opened YamlTree

  newtype Byte = b: int | 0 <= b < 256
  type Bytes = seq<Byte>

  datatype User = User(username: string, displayName: string, email: string, groups: seq<string>, disabled: bool)

  datatype Op =
    | Add(user: User, hash: string)
    | SetGroups(username: string, groups: seq<string>)
    | Delete(username: string)

  datatype Error = Unparsable | NotAUsersFile | BadEntry | Duplicate | NotFound | EncodeFailed | BadOutput | Refused

  datatype Outcome = Replace(out: Bytes) | Reject(error: Error)

  /**
   The YAML library. `scan` yields the roots of the documents it could read and whether it then
   reached the end of the input; `knows` tells which trees those can be, and which the encoder sees of
   edited ones; `marshal` is the canonical encoding of a decoded entry.
   */
  datatype Codec = Codec(
    scan: Bytes -> (seq<Tree>, bool),
    knows: Tree -> bool,
    encode: Tree -> Option<Bytes>,
    marshal: Entry -> Option<Bytes>)

  /** Exactly one document, and nothing after it. */
  function ParseBytes(c: Codec, b: Bytes): Option<Tree> {
    var (docs, atEnd) := c.scan(b);
    if |docs| == 1 && atEnd then Some(docs[0]) else None
  }

  // ----- the mapping under "users" -----

  /** A null or empty scalar stands for an empty mapping. */
  function Normal(u: Tree): Tree {
    if u.kind.Scalar? && (u.tag == "!!null" || u.value == "") then u.(kind := Mapping, tag := "!!map", value := "")
    else u
  }

  predicate IsUsersFile(root: Tree) {
    root.kind.Mapping? && Has(root.kids, "users")
      && Normal(root.kids[2 * FirstIndex(root.kids, "users") + 1]).kind.Mapping?
  }

  function Users(root: Tree): seq<Tree>
    requires IsUsersFile(root)
  {
    Normal(root.kids[2 * FirstIndex(root.kids, "users") + 1]).kids
  }

  /** The same file with this content under "users". */
  function WithUsers(root: Tree, kids: seq<Tree>): Tree
    requires IsUsersFile(root)
  {
    var i := 2 * FirstIndex(root.kids, "users") + 1;
    root.(kids := root.kids[i := Normal(root.kids[i]).(kids := kids)])
  }

  lemma UsersOfWithUsers(root: Tree, kids: seq<Tree>)
    requires IsUsersFile(root)
    ensures IsUsersFile(WithUsers(root, kids)) && Users(WithUsers(root, kids)) == kids
    ensures FirstIndex(WithUsers(root, kids).kids, "users") == FirstIndex(root.kids, "users")
  {
    FirstIndexIs(WithUsers(root, kids).kids, "users", FirstIndex(root.kids, "users"));
  }

  /** Normalising a second time finds the same mapping and changes nothing. */
  lemma UsersIdempotent(root: Tree)
    requires IsUsersFile(root)
    ensures var once := WithUsers(root, Users(root));
            IsUsersFile(once) && Users(once) == Users(root) && WithUsers(once, Users(once)) == once
  {
    UsersOfWithUsers(root, Users(root));
  }

  lemma WithUsersWellFormed(root: Tree, kids: seq<Tree>)
    requires IsUsersFile(root) && WellFormed(root)
    requires |kids| % 2 == 0 && forall i :: 0 <= i < |kids| ==> WellFormed(kids[i])
    ensures WellFormed(WithUsers(root, kids))
  {
    var at := 2 * FirstIndex(root.kids, "users") + 1;
    var r := WithUsers(root, kids);
    assert WellFormed(r.kids[at]);
    assert forall i :: 0 <= i < |r.kids| ==> WellFormed(r.kids[i]);
  }

  // ----- one entry as the portal lists it -----

  function TextOf(t: Tree): string {
    if t.kind.Scalar? && t.tag != "!!null" then t.value else ""
  }

  function TextsOf(kids: seq<Tree>): seq<string> {
    if kids == [] then []
    else (if kids[0].kind.Scalar? && kids[0].tag != "!!null" then [kids[0].value] else []) + TextsOf(kids[1..])
  }

  /** One of the first n keys has this kind and value. */
  predicate KeyAmong(kids: seq<Tree>, n: nat, key: Tree)
    requires n <= |kids| / 2
  {
    n > 0 && ((kids[2 * n - 2].kind == key.kind && kids[2 * n - 2].value == key.value) || KeyAmong(kids, n - 1, key))
  }

  /** No two of the first n keys agree in kind and value. */
  predicate DistinctUpTo(kids: seq<Tree>, n: nat)
    requires n <= |kids| / 2
  {
    n == 0 || (DistinctUpTo(kids, n - 1) && !KeyAmong(kids, n - 1, kids[2 * n - 2]))
  }

  predicate DistinctKeys(kids: seq<Tree>) {
    DistinctUpTo(kids, |kids| / 2)
  }

  /** A struct field read from a mapping node; an entry with a repeated key decodes to no fields at all. */
  function Field(entry: Tree, k: string): Option<Tree> {
    if entry.kind.Mapping? && DistinctKeys(entry.kids) && Has(entry.kids, k)
    then Some(entry.kids[2 * FirstIndex(entry.kids, k) + 1]) else None
  }

  /** What decodes to a Go bool that is true: a true boolean, or one of the strings kept from YAML 1.1. */
  predicate IsTrue(t: Tree) {
    t.kind.Scalar?
      && ((t.tag == "!!bool" && t.value in ["true", "True", "TRUE"])
        || (t.tag == "!!str" && t.value in ["y", "Y", "yes", "on"]))
  }

  function DecodeUser(username: string, entry: Tree): User {
    var name, email := Field(entry, "displayname"), Field(entry, "email");
    var groups, disabled := Field(entry, "groups"), Field(entry, "disabled");
    User(username,
         if name.Some? then TextOf(name.value) else "",
         if email.Some? then TextOf(email.value) else "",
         if groups.Some? && groups.value.kind.Sequence? then TextsOf(groups.value.kids) else [],
         disabled.Some? && IsTrue(disabled.value))
  }

  /** The users in file order. */
  function ListOf(kids: seq<Tree>): seq<User> {
    seq(|kids| / 2, i requires 0 <= i < |kids| / 2 => DecodeUser(kids[2 * i].value, kids[2 * i + 1]))
  }

  lemma ListLength(kids: seq<Tree>)
    ensures |ListOf(kids)| == |kids| / 2
  {
  }

  lemma ListedAt(kids: seq<Tree>, i: nat)
    requires i < |kids| / 2
    ensures i < |ListOf(kids)| && ListOf(kids)[i] == DecodeUser(kids[2 * i].value, kids[2 * i + 1])
  {
  }

  // ----- semantic snapshots -----

  type Snap = map<string, Entry>

  /** The first n entries by username; a later entry with the same username replaces an earlier one. */
  function Snapshot(kids: seq<Tree>, n: nat): Option<Snap>
    requires n <= |kids| / 2
  {
    if n == 0 then Some(map[])
    else
      var rest, e := Snapshot(kids, n - 1), DecodeEntry(kids[2 * n - 1]);
      if rest.None? || e.None? then None else Some(rest.value[kids[2 * n - 2].value := e.value])
  }

  function SnapshotOf(c: Codec, b: Bytes): Option<Snap> {
    match ParseBytes(c, b)
    case None => None
    case Some(root) => if IsUsersFile(root) then Snapshot(Users(root), |Users(root)| / 2) else None
  }

  // ----- the three edits of the users content -----

  datatype Edited = NewContent(kids: seq<Tree>) | Failed(error: Error)

  predicate Clashes(existing: User, u: User) {
    EqualFold(existing.username, u.username) || EqualFold(existing.email, u.email)
  }

  predicate Clash(us: seq<User>, u: User) {
    exists i :: 0 <= i < |us| && Clashes(us[i], u)
  }

  function NewEntry(u: User, hash: string): Tree {
    Tree(Mapping, "!!map", "", "",
         [ScalarTree("displayname"), ScalarTree(u.displayName),
          ScalarTree("email"), ScalarTree(ToLower(u.email)),
          ScalarTree("password"), ScalarTree(hash),
          ScalarTree("groups"), SeqTree(u.groups)])
  }

  /** The entry with its groups field set. */
  function Regrouped(entry: Tree, groups: seq<string>): Tree {
    entry.(kids := SetField(entry.kids, "groups", SeqTree(groups)))
  }

  function RegroupAt(kids: seq<Tree>, i: nat, groups: seq<string>): seq<Tree>
    requires i < |kids| / 2
  {
    kids[2 * i + 1 := Regrouped(kids[2 * i + 1], groups)]
  }

  function RegroupFirst(kids: seq<Tree>, username: string, groups: seq<string>): seq<Tree>
    requires Has(kids, username)
  {
    RegroupAt(kids, FirstIndex(kids, username), groups)
  }

  function EditUsers(op: Op, kids: seq<Tree>): Edited {
    match op
    case Add(u, hash) =>
      if Clash(ListOf(kids), u) then Failed(Duplicate)
      else NewContent(kids + [ScalarTree(u.username), NewEntry(u, hash)])
    case SetGroups(username, groups) =>
      if Has(kids, username) then NewContent(RegroupFirst(kids, username, groups)) else Failed(NotFound)
    case Delete(username) =>
      if Has(kids, username) then NewContent(RemovePair(kids, FirstIndex(kids, username))) else Failed(NotFound)
  }

  // ----- a library one can rely on -----

  /** What is parsed is known, what is known is well-formed, and what the encoder sees of an edited file is known. */
  ghost predicate Closed(c: Codec) {
    && (forall b: Bytes, t: Tree :: t in c.scan(b).0 ==> c.knows(t))
    && (forall t: Tree :: c.knows(t) ==> WellFormed(t))
    && (forall root: Tree, op: Op :: c.knows(root) && IsUsersFile(root) && EditUsers(op, Users(root)).NewContent? ==>
          c.knows(Visible(WithUsers(root, EditUsers(op, Users(root)).kids))))
  }

  /**
   Parsing undoes encoding on the trees that are parsed and that the edits make of them; encoding
   writes what is visible of a tree; no decoded entry is unencodable.
   */
  ghost predicate Faithful(c: Codec) {
    && Closed(c)
    && (forall t: Tree :: c.encode(t) == c.encode(Visible(t)))
    && (forall t: Tree :: c.knows(t) ==> c.encode(t).Some? && c.scan(c.encode(t).value) == ([t], true))
    && (forall e: Entry :: c.marshal(e).Some?)
  }

  // ----- the verify closures -----

  function Target(op: Op): string {
    match op
    case Add(u, _) => u.username
    case SetGroups(username, _) => username
    case Delete(username) => username
  }

  predicate SameEntry(c: Codec, a: Entry, b: Entry) {
    c.marshal(a).Some? && c.marshal(a) == c.marshal(b)
  }

  predicate Untouched(c: Codec, before: Snap, after: Snap, exempt: string) {
    && (forall k :: k in before && k != exempt ==> k in after && SameEntry(c, before[k], after[k]))
    && (forall k :: k in after && k != exempt ==> k in before)
  }

  function GroupsOf(e: Entry): seq<Any> {
    if "groups" in e && e["groups"].List? then e["groups"].items else []
  }

  predicate Verify(c: Codec, op: Op, before: Snap, after: Snap) {
    && Untouched(c, before, after, Target(op))
    && match op
       case Add(u, _) =>
         && u.username in after
         && u.username !in before
         && "email" in after[u.username] && after[u.username]["email"] == Str(ToLower(u.email))
         && |after| == |before| + 1
       case SetGroups(username, groups) =>
         && |after| == |before|
         && (if username in after then GroupsOf(after[username]) else []) == Strs(groups)
       case Delete(username) =>
         && username !in after
         && |after| == |before| - 1
  }

  // ----- one attempt as a function of the bytes it read -----

  /** The verdict on an encoded edit. */
  function Judge(c: Codec, op: Op, before: Snap, out: Bytes): Outcome {
    match SnapshotOf(c, out)
    case None => Reject(BadOutput)
    case Some(after) => if Verify(c, op, before, after) then Replace(out) else Reject(Refused)
  }

  function EncodeAndJudge(c: Codec, op: Op, before: Snap, edited: Tree): Outcome {
    match c.encode(edited)
    case None => Reject(EncodeFailed)
    case Some(out) => Judge(c, op, before, out)
  }

  function ApplyTo(c: Codec, op: Op, root: Tree): Outcome {
    if !IsUsersFile(root) then Reject(NotAUsersFile) else
    match Snapshot(Users(root), |Users(root)| / 2)
    case None => Reject(BadEntry)
    case Some(before) =>
      match EditUsers(op, Users(root))
      case Failed(error) => Reject(error)
      case NewContent(kids) => EncodeAndJudge(c, op, before, WithUsers(root, kids))
  }

  function Apply(c: Codec, op: Op, original: Bytes): Outcome {
    match ParseBytes(c, original)
    case None => Reject(Unparsable)
    case Some(root) => ApplyTo(c, op, root)
  }
}
