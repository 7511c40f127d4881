/**
 The yaml.Node tree as it is in memory: nodes that refer to each other and are edited in place.
 A ghost map gives the tree value that each node carries; an edit of one node is propagated to
 the nodes above it, so every edit in place is an edit of the file's tree value.
 */
module NodeTree {
  import opened YamlTree

  class Node {
    var kind: Kind
    var tag: string
    var value: string
    var note: string
    var content: seq<Node>
    ghost var parent: Node?

    constructor (t: Tree, content: seq<Node>)
      ensures kind == t.kind && tag == t.tag && value == t.value && note == t.note
      ensures this.content == content && parent == null
    {
      kind, tag, value, note := t.kind, t.tag, t.value, t.note;
      this.content := content;
      parent := null;
    }
  }

  /** The tree value that each node carries. */
  type Values = map<Node, Tree>

  ghost function Put(a: Values, n: Node, t: Tree): Values {
    a[n := t]
  }

  /** The node holds the top of t, and its distinct children, which belong to it, carry the rest. */
  ghost predicate Holds(a: Values, n: Node, t: Tree)
    reads n, a.Keys
  {
    && n.kind == t.kind && n.tag == t.tag && n.value == t.value && n.note == t.note
    && |n.content| == |t.kids|
    && (forall i :: 0 <= i < |n.content| ==>
      n.content[i] in a && a[n.content[i]] == t.kids[i] && n.content[i].parent == n)
    && (forall i, j :: 0 <= i < j < |n.content| ==> n.content[i] != n.content[j])
  }

  ghost predicate Carries(a: Values)
    reads a.Keys
  {
    forall n :: n in a ==> Holds(a, n, a[n])
  }

  /** No node refers to this one. */
  ghost predicate NoChild(a: Values, c: Node)
    reads a.Keys
  {
    forall n :: n in a ==> c !in n.content
  }

  /** All nodes carry their value, except that m now holds t. */
  ghost predicate Pending(a: Values, m: Node, t: Tree)
    reads a.Keys
  {
    && m in a
    && Holds(a, m, t)
    && forall n :: n in a && n != m ==> Holds(a, n, a[n])
  }

  /** A change below the i-th child is a change of the parent's value at i. */
  lemma Raise(a: Values, m: Node, t: Tree, p: Node, i: nat)
    requires Pending(a, m, t) && p in a && p != m
    requires i < |p.content| && p.content[i] == m
    ensures Pending(Put(a, m, t), p, a[p].(kids := a[p].kids[i := t]))
  {
    assert m.parent == p;
  }

  lemma RaiseTop(a: Values, m: Node, t: Tree)
    requires Pending(a, m, t) && m.parent == null
    ensures Carries(Put(a, m, t))
  {
  }

  // ----- between tree values and nodes -----

  /** A node above parentless ones. */
  method NewParent(t: Tree, content: seq<Node>, ghost a0: Values) returns (n: Node, ghost a: Values)
    requires Carries(a0) && |content| == |t.kids|
    requires forall j :: 0 <= j < |content| ==>
      content[j] in a0 && a0[content[j]] == t.kids[j] && content[j].parent == null
    requires forall j, k :: 0 <= j < k < |content| ==> content[j] != content[k]
    modifies set j | 0 <= j < |content| :: content[j]
    ensures fresh(n) && n.parent == null && a == Put(a0, n, t) && Carries(a)
  {
    assert forall j :: 0 <= j < |content| ==> NoChild(a0, content[j]);
    n := new Node(t, content);
    forall j | 0 <= j < |content| {
      content[j].parent := n;
    }
    a := Put(a0, n, t);
    forall o | o in a0
      ensures Holds(a, o, a[o])
    {
      assert old(Holds(a0, o, a0[o]));
      assert forall j :: 0 <= j < |content| ==> old(content[j] !in o.content);
    }
  }

  /** What the parser hands out: fresh nodes for a tree. */
  method Build(t: Tree, ghost a0: Values) returns (n: Node, ghost a: Values)
    requires Carries(a0)
    ensures Carries(a) && n in a && a[n] == t && n.parent == null
    ensures a0.Keys <= a.Keys && (forall o :: o in a0 ==> a[o] == a0[o])
    ensures n !in a0 && fresh(a.Keys - a0.Keys)
    decreases t
  {
    hide Holds;
    var content: seq<Node> := [];
    a := a0;
    for i := 0 to |t.kids|
      invariant |content| == i
      invariant Carries(a) && a0.Keys <= a.Keys && (forall o :: o in a0 ==> a[o] == a0[o]) && fresh(a.Keys - a0.Keys)
      invariant forall j :: 0 <= j < i ==>
        content[j] in a && content[j] !in a0 && a[content[j]] == t.kids[j] && content[j].parent == null
      invariant forall j, k :: 0 <= j < k < i ==> content[j] != content[k]
    {
      var m;
      m, a := Build(t.kids[i], a);
      content := content + [m];
    }
    n, a := NewParent(t, content, a);
  }

  /** What the encoder and the decoder see: the tree that the nodes now carry. */
  method ReadBack(n: Node, ghost a: Values) returns (t: Tree)
    requires Carries(a) && n in a
    ensures t == a[n]
    decreases a[n]
  {
    var kids: seq<Tree> := [];
    for i := 0 to |n.content|
      invariant kids == a[n].kids[..i]
    {
      var k := ReadBack(n.content[i], a);
      kids := kids + [k];
    }
    t := Tree(n.kind, n.tag, n.value, n.note, kids);
  }

  // ----- reading and editing one mapping node -----

  lemma ContentLength(a: Values, m: Node)
    requires Carries(a) && m in a
    ensures |m.content| == |a[m].kids|
  {
  }

  /** Where the first pair with this key value is. */
  method FindIndex(m: Node, key: string, ghost a: Values) returns (i: nat)
    requires Carries(a) && m in a
    ensures i == FirstIndex(a[m].kids, key)
  {
    i := 0;
    while 2 * i + 1 < |m.content|
      invariant i <= |m.content| / 2
      invariant forall j :: 0 <= j < i ==> a[m].kids[2 * j].value != key
    {
      assert Holds(a, m.content[2 * i], a[m].kids[2 * i]);
      if m.content[2 * i].value == key {
        FirstIndexIs(a[m].kids, key, i);
        return;
      }
      i := i + 1;
    }
  }

  /** findUser: the value node of the first pair with this username. */
  method FindUser(users: Node, username: string, ghost a: Values) returns (r: Node?)
    requires Carries(a) && users in a
    ensures r == null <==> !Has(a[users].kids, username)
    ensures r != null ==> r == users.content[2 * FirstIndex(a[users].kids, username) + 1]
  {
    var i := FindIndex(users, username, a);
    r := if i < |users.content| / 2 then users.content[2 * i + 1] else null;
  }

  /** The content before a pair was appended to it still carries its trees. */
  ghost predicate Carried(a: Values, m: Node, content: seq<Node>, kids: seq<Tree>)
    reads content
  {
    && |content| == |kids|
    && (forall i :: 0 <= i < |content| ==> content[i] in a && a[content[i]] == kids[i] && content[i].parent == m)
    && (forall i, j :: 0 <= i < j < |content| ==> content[i] != content[j])
  }

  lemma HoldsAppended(a: Values, m: Node, t: Tree, content: seq<Node>, key: Node, val: Node)
    requires m.kind == t.kind && m.tag == t.tag && m.value == t.value && m.note == t.note
    requires m.content == content + [key, val] && Carried(a, m, content, t.kids)
    requires key in a && val in a && key != val && key !in content && val !in content && key.parent == m
      && val.parent == m
    ensures Holds(a, m, t.(kids := t.kids + [a[key], a[val]]))
  {
  }

  /** A fresh pair of nodes at the end of the content. */
  method AppendPair(m: Node, key: Node, val: Node, ghost a: Values)
    requires Carries(a) && m in a && key in a && val in a && key != val
    requires key.parent == null && val.parent == null && m != key && m != val
    modifies m`content, key`parent, val`parent
    ensures m.content == old(m.content) + [key, val]
    ensures Pending(a, m, a[m].(kids := a[m].kids + [a[key], a[val]]))
  {
    assert NoChild(a, key) && NoChild(a, val);
    assert forall n :: n in a ==> Holds(a, n, a[n]) && key !in n.content && val !in n.content;
    hide NoChild, Carries;
    ghost var content := m.content;
    m.content := m.content + [key, val];
    key.parent, val.parent := m, m;
    forall n | n in a && n != m
      ensures Holds(a, n, a[n])
    {
      assert old(Holds(a, n, a[n]) && key !in n.content && val !in n.content);
    }
    assert Carried(a, m, content, a[m].kids);
    hide Holds;
    HoldsAppended(a, m, a[m], content, key, val);
  }

  /** Another value node in place of the i-th one, which is let go. */
  method ReplaceAt(m: Node, i: nat, val: Node, ghost a: Values)
    requires Carries(a) && m in a && val in a && i < |m.content|
    requires val.parent == null && m != val
    modifies m`content, val`parent
    ensures m.content == old(m.content)[i := val]
    ensures Pending(a, m, a[m].(kids := a[m].kids[i := a[val]]))
  {
    assert NoChild(a, val);
    m.content := m.content[i := val];
    val.parent := m;
    forall n | n in a && n != m
      ensures Holds(a, n, a[n])
    {
      assert old(Holds(a, n, a[n]) && val !in n.content);
    }
  }

  lemma HoldsWithout(a: Values, m: Node, t: Tree, content: seq<Node>, i: nat)
    requires m.kind == t.kind && m.tag == t.tag && m.value == t.value && m.note == t.note
    requires i < |content| / 2 && Carried(a, m, content, t.kids) && m.content == content[..2 * i] + content[2 * i + 2..]
    ensures Holds(a, m, t.(kids := RemovePair(t.kids, i)))
  {
    var r := RemovePair(t.kids, i);
    forall j | 0 <= j < |m.content|
      ensures m.content[j] == content[if j < 2 * i then j else j + 2] && r[j] == t.kids[if j < 2 * i then j else j + 2]
    {
    }
  }

  /** Splice the i-th pair out of the content. */
  method DeletePair(m: Node, i: nat, ghost a: Values)
    requires Carries(a) && m in a && i < |m.content| / 2
    modifies m`content
    ensures m.content == old(m.content)[..2 * i] + old(m.content)[2 * i + 2..]
    ensures Pending(a, m, a[m].(kids := RemovePair(a[m].kids, i)))
  {
    assert Holds(a, m, a[m]);
    ghost var content := m.content;
    m.content := m.content[..2 * i] + m.content[2 * i + 2..];
    forall n | n in a && n != m
      ensures Holds(a, n, a[n])
    {
      assert old(Holds(a, n, a[n]));
    }
    assert Carried(a, m, content, a[m].kids);
    hide Holds, RemovePair;
    HoldsWithout(a, m, a[m], content, i);
  }

  /** A new key and this value at the end. */
  method AppendField(m: Node, key: string, val: Node, ghost a0: Values) returns (ghost a: Values)
    requires Carries(a0) && m in a0 && val in a0 && val.parent == null && m != val
    modifies m`content, val`parent
    ensures Pending(a, m, a0[m].(kids := a0[m].kids + [ScalarTree(key), a0[val]]))
    ensures a0.Keys <= a.Keys && (forall o :: o in a0 ==> a[o] == a0[o]) && fresh(a.Keys - a0.Keys)
  {
    var k;
    k, a := Build(ScalarTree(key), a0);
    assert [a[k], a[val]] == [ScalarTree(key), a0[val]];
    AppendPair(m, k, val, a);
  }

  lemma SetFieldAt(kids: seq<Tree>, k: string, v: Tree)
    ensures var i := FirstIndex(kids, k);
            SetField(kids, k, v) == if i < |kids| / 2 then kids[2 * i + 1 := v] else kids + [ScalarTree(k), v]
  {
  }

  /** setMapField: replace the value under the key, or append the key and the value. */
  method SetMapField(m: Node, key: string, v: Tree, ghost a0: Values) returns (ghost a: Values)
    requires Carries(a0) && m in a0
    modifies m`content
    ensures Pending(a, m, a0[m].(kids := SetField(a0[m].kids, key, v)))
    ensures a0.Keys <= a.Keys && (forall o :: o in a0 ==> a[o] == a0[o]) && fresh(a.Keys - a0.Keys)
  {
    hide *;
    var val;
    val, a := Build(v, a0);
    var i := FindIndex(m, key, a);
    ContentLength(a, m);
    SetFieldAt(a0[m].kids, key, v);
    if i < |m.content| / 2 {
      ReplaceAt(m, 2 * i + 1, val, a);
    } else {
      a := AppendField(m, key, val, a);
    }
  }
}
