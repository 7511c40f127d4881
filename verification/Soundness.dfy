/**
 The self-check before a file is replaced, for an arbitrary and possibly faulty YAML library:
 whatever passes re-parses to exactly the intended change.
 */
module Soundness {
  import opened Text
  import opened YamlTree
  import opened UserFile

  lemma {:induction false} SnapshotKeys(kids: seq<Tree>, n: nat, k: string)
    requires n <= |kids| / 2 && Snapshot(kids, n).Some?
    ensures k in Snapshot(kids, n).value <==> exists i :: 0 <= i < n && kids[2 * i].value == k
  {
    if n > 0 {
      SnapshotKeys(kids, n - 1, k);
      if kids[2 * (n - 1)].value == k {
        assert k in Snapshot(kids, n).value;
      } else if k in Snapshot(kids, n).value {
        var i :| 0 <= i < n - 1 && kids[2 * i].value == k;
      }
    }
  }

  /** The usernames after, in terms of those before. */
  ghost predicate KeysAsAsked(op: Op, before: Snap, after: Snap) {
    match op
    case Add(u, _) => u.username !in before && after.Keys == before.Keys + {u.username}
    case SetGroups(username, _) => username in before && after.Keys == before.Keys
    case Delete(username) => username in before && after.Keys == before.Keys - {username}
  }

  /** The part of the requested change that is checked. */
  ghost predicate ChangeAsAsked(op: Op, after: Snap) {
    match op
    case Add(u, _) =>
      u.username in after && "email" in after[u.username] && after[u.username]["email"] == Str(ToLower(u.email))
    case SetGroups(username, groups) =>
      username in after
        && (groups != [] ==> "groups" in after[username] && after[username]["groups"] == List(Strs(groups)))
        && (groups == [] ==> "groups" in after[username] ==>
              after[username]["groups"] == List([]) || !after[username]["groups"].List?)
    case Delete(username) => username !in after
  }

  lemma CardinalityOfSubset<T>(a: set<T>, b: set<T>)
    requires a <= b
    ensures |a| <= |b| && (|a| == |b| ==> a == b)
  {
    assert b == a + (b - a);
  }

  lemma KeyCount<T, U>(m: map<T, U>)
    ensures |m| == |m.Keys|
  {
  }

  /** Without the exempted user, both snapshots have the same usernames. */
  lemma UntouchedKeys(c: Codec, before: Snap, after: Snap, exempt: string)
    requires Untouched(c, before, after, exempt)
    ensures before.Keys - {exempt} == after.Keys - {exempt}
  {
  }

  /** Same members but for x, same count, and x on the left: then x is on the right too. */
  lemma CountForcesMember<T>(a: set<T>, b: set<T>, x: T)
    requires a - {x} == b - {x} && |a| == |b| && x in a
    ensures a == b
  {
    assert b <= a by {
      assert forall y :: y in b && y != x ==> y in b - {x};
    }
    CardinalityOfSubset(b, a);
  }

  lemma AddedKeys<T>(a: set<T>, b: set<T>, x: T)
    requires a - {x} == b - {x}
    ensures x !in a && x in b ==> b == a + {x}
    ensures x in a && x !in b ==> b == a - {x}
  {
    assert x in b ==> b == (b - {x}) + {x};
    assert x !in a ==> a == a - {x};
    assert x !in b ==> b == b - {x};
  }

  /** SetGroups compares only counts: that the user was found makes the key sets equal. */
  lemma VerifiedKeys(c: Codec, op: Op, before: Snap, after: Snap)
    requires Verify(c, op, before, after)
    requires !op.Add? ==> Target(op) in before
    ensures KeysAsAsked(op, before, after)
  {
    var x := Target(op);
    UntouchedKeys(c, before, after, x);
    AddedKeys(before.Keys, after.Keys, x);
    if op.SetGroups? {
      KeyCount(before);
      KeyCount(after);
      CountForcesMember(before.Keys, after.Keys, x);
    }
  }

  /** The other entries encode to the bytes they encoded to before. */
  ghost predicate OthersAsBefore(c: Codec, op: Op, before: Snap, after: Snap) {
    forall k :: k in before && k != Target(op) ==>
      k in after && c.marshal(before[k]).Some? && c.marshal(before[k]) == c.marshal(after[k])
  }

  /** The requested groups, read from an entry, in terms of the field itself. */
  lemma GroupsAsAsked(e: Entry, groups: seq<string>)
    ensures GroupsOf(e) == Strs(groups) <==>
      && (groups != [] ==> "groups" in e && e["groups"] == List(Strs(groups)))
      && (groups == [] ==> "groups" in e ==> e["groups"] == List([]) || !e["groups"].List?)
  {
    assert |Strs(groups)| == |groups|;
  }

  /** The check accepts a change exactly if it is the one asked for and nothing else. */
  lemma VerifiedExactlyIf(c: Codec, op: Op, before: Snap, after: Snap)
    requires !op.Add? ==> Target(op) in before
    ensures Verify(c, op, before, after) <==>
      KeysAsAsked(op, before, after) && ChangeAsAsked(op, after) && OthersAsBefore(c, op, before, after)
  {
    hide Untouched, GroupsOf, Strs, OthersAsBefore, Target;
    OthersUntouched(c, op, before, after);
    if Verify(c, op, before, after) { VerifiedKeys(c, op, before, after); }
    if op.SetGroups? && op.username in after { GroupsAsAsked(after[op.username], op.groups); }
    if KeysAsAsked(op, before, after) { CountsAsAsked(op, before, after); }
  }

  lemma OthersUntouched(c: Codec, op: Op, before: Snap, after: Snap)
    ensures Untouched(c, before, after, Target(op)) ==> OthersAsBefore(c, op, before, after)
    ensures OthersAsBefore(c, op, before, after) && KeysAsAsked(op, before, after) ==>
      Untouched(c, before, after, Target(op))
  {
  }

  lemma CountsAsAsked(op: Op, before: Snap, after: Snap)
    requires KeysAsAsked(op, before, after)
    ensures |after| == |before| + (if op.Add? then 1 else if op.Delete? then -1 else 0)
  {
    KeyCount(before);
    KeyCount(after);
    if op.Delete? { assert before.Keys == after.Keys + {op.username}; }
  }

  /** An output in which some other user is new, gone, or encodes differently is refused. */
  lemma BystanderChangeRefused(c: Codec, op: Op, original: Bytes, root: Tree, kids: seq<Tree>, out: Bytes, k: string)
    requires ParseBytes(c, original) == Some(root) && IsUsersFile(root)
    requires SnapshotOf(c, original).Some? && SnapshotOf(c, out).Some?
    requires EditUsers(op, Users(root)) == NewContent(kids) && c.encode(WithUsers(root, kids)) == Some(out)
    requires var before, after := SnapshotOf(c, original).value, SnapshotOf(c, out).value;
             && k != Target(op)
             && if k in before then k in after ==> c.marshal(before[k]) != c.marshal(after[k]) else k in after
    ensures Apply(c, op, original) == Reject(Refused)
  {
    var before, after := SnapshotOf(c, original).value, SnapshotOf(c, out).value;
    assert !Untouched(c, before, after, Target(op));
  }

  /**
   Whatever the codec does: if an attempt wants to replace the file, then what it wants to write
   parses, has exactly the intended usernames, leaves every other entry with the canonical encoding
   it had, and carries the added email or the requested groups.
   */
  lemma ReplacementIsSound(c: Codec, op: Op, original: Bytes)
    requires Apply(c, op, original).Replace?
    ensures var out := Apply(c, op, original).out;
            var before, after := SnapshotOf(c, original), SnapshotOf(c, out);
            && before.Some? && after.Some?
            && KeysAsAsked(op, before.value, after.value)
            && ChangeAsAsked(op, after.value)
            && forall k :: k in before.value && k != Target(op) ==>
                 && k in after.value && c.marshal(before.value[k]).Some?
                 && c.marshal(before.value[k]) == c.marshal(after.value[k])
  {
    var root := ParseBytes(c, original).value;
    var kids := Users(root);
    var out := Apply(c, op, original).out;
    var before, after := SnapshotOf(c, original).value, SnapshotOf(c, out).value;
    if !op.Add? {
      var i := FirstIndex(kids, Target(op));
      assert i < |kids| / 2;
      SnapshotKeys(kids, |kids| / 2, Target(op));
    }
    VerifiedExactlyIf(c, op, before, after);
    assert OthersAsBefore(c, op, before, after);
  }

  /** A file that is not exactly one parsable document is refused. */
  lemma OtherThanOneDocumentRefused(c: Codec, op: Op, original: Bytes)
    requires |c.scan(original).0| != 1 || !c.scan(original).1
    ensures Apply(c, op, original) == Reject(Unparsable)
  {
  }
}
