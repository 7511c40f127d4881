/**
 Parsed YAML as values: the tree a yaml.Node denotes, its flat alternating mapping
 content, and how the portal decodes it.
 */
module YamlTree {

  datatype Option<+T> = None | Some(value: T)

  datatype Kind = Scalar | Mapping | Sequence

  /** What one yaml.Node denotes. `kids` is the flat Content: a mapping alternates keys and values. */
  datatype Tree = Tree(kind: Kind, tag: string, value: string, note: string, kids: seq<Tree>)

  /** A key and the value that follows it. */
  datatype Pair = Pair(key: Tree, val: Tree)

  /** What holds of every parsed tree: leaves have no content, mappings alternate keys and values. */
  predicate WellFormed(t: Tree) {
    && (t.kind.Scalar? ==> t.kids == [])
    && (t.kind.Mapping? ==> |t.kids| % 2 == 0)
    && forall i :: 0 <= i < |t.kids| ==> WellFormed(t.kids[i])
  }

  /** What an encoder writes of a tree: nothing of what hangs below a scalar. */
  function Visible(t: Tree): Tree {
    if t.kind.Scalar? then t.(kids := [])
    else t.(kids := seq(|t.kids|, i requires 0 <= i < |t.kids| => Visible(t.kids[i])))
  }

  lemma {:induction false} WellFormedIsVisible(t: Tree)
    requires WellFormed(t)
    ensures Visible(t) == t
  {
    forall i | 0 <= i < |t.kids|
      ensures Visible(t.kids[i]) == t.kids[i]
    {
      WellFormedIsVisible(t.kids[i]);
    }
    if !t.kind.Scalar? { assert Visible(t).kids == t.kids; }
  }

  function ScalarTree(v: string): Tree {
    Tree(Scalar, "!!str", v, "", [])
  }

  function SeqTree(items: seq<string>): Tree {
    Tree(Sequence, "!!seq", "", "", seq(|items|, i requires 0 <= i < |items| => ScalarTree(items[i])))
  }

  // ----- the flat content of a mapping -----

  /** The association list that a flat content stands for; an odd trailing node is no pair. */
  function Pairs(kids: seq<Tree>): (ps: seq<Pair>)
    ensures |ps| == |kids| / 2
  {
    seq(|kids| / 2, i requires 0 <= i < |kids| / 2 => Pair(kids[2 * i], kids[2 * i + 1]))
  }

  /** Where the first pair with this key value is; the number of pairs if there is none. */
  function FirstIndex(kids: seq<Tree>, k: string, start: nat := 0): (i: nat)
    requires start <= |kids| / 2
    ensures start <= i <= |kids| / 2
    ensures i < |kids| / 2 ==> kids[2 * i].value == k
    ensures forall j :: start <= j < i ==> kids[2 * j].value != k
    decreases |kids| / 2 - start
  {
    if start == |kids| / 2 || kids[2 * start].value == k then start else FirstIndex(kids, k, start + 1)
  }

  predicate Has(kids: seq<Tree>, k: string) {
    FirstIndex(kids, k) < |kids| / 2
  }

  lemma FirstIndexIs(kids: seq<Tree>, k: string, i: nat)
    requires i < |kids| / 2 && kids[2 * i].value == k
    requires forall j :: 0 <= j < i ==> kids[2 * j].value != k
    ensures FirstIndex(kids, k) == i
  {
  }

  /** The key occurs as the key of exactly one pair. */
  predicate Unique(kids: seq<Tree>, k: string) {
    && Has(kids, k)
    && forall j :: FirstIndex(kids, k) < j < |kids| / 2 ==> kids[2 * j].value != k
  }

  /** Splice the i-th pair out. */
  function RemovePair(kids: seq<Tree>, i: nat): seq<Tree>
    requires i < |kids| / 2
  {
    kids[..2 * i] + kids[2 * i + 2..]
  }

  /** Replace the value of the first pair with this key, or append a pair. */
  function SetField(kids: seq<Tree>, k: string, v: Tree): seq<Tree> {
    var i := FirstIndex(kids, k);
    if i < |kids| / 2 then kids[2 * i + 1 := v] else kids + [ScalarTree(k), v]
  }

  // ----- the same edits on an association list -----

  function AssocFirst(ps: seq<Pair>, k: string): (i: nat)
    ensures i <= |ps|
    ensures i < |ps| ==> ps[i].key.value == k
    ensures forall j :: 0 <= j < i ==> ps[j].key.value != k
  {
    if ps == [] || ps[0].key.value == k then 0 else 1 + AssocFirst(ps[1..], k)
  }

  function AssocRemove(ps: seq<Pair>, k: string): seq<Pair> {
    var i := AssocFirst(ps, k);
    if i < |ps| then ps[..i] + ps[i + 1..] else ps
  }

  function AssocSet(ps: seq<Pair>, k: string, v: Tree): seq<Pair> {
    var i := AssocFirst(ps, k);
    if i < |ps| then ps[i := Pair(ps[i].key, v)] else ps + [Pair(ScalarTree(k), v)]
  }

  lemma FirstIndexIsAssocFirst(kids: seq<Tree>, k: string)
    ensures FirstIndex(kids, k) == AssocFirst(Pairs(kids), k)
  {
    var i, j := FirstIndex(kids, k), AssocFirst(Pairs(kids), k);
    assert i < |kids| / 2 ==> Pairs(kids)[i].key.value == k;
    assert j < |kids| / 2 ==> kids[2 * j].value == Pairs(kids)[j].key.value;
  }

  lemma RemovePairAt(kids: seq<Tree>, i: nat, j: nat)
    requires i < |kids| / 2 && j < |kids| / 2 - 1
    ensures var r, q := RemovePair(kids, i), if j < i then j else j + 1;
            r[2 * j] == kids[2 * q] && r[2 * j + 1] == kids[2 * q + 1]
  {
  }

  /** Splicing a pair out of even content refines removal from the association list. */
  lemma RemovePairRefines(kids: seq<Tree>, k: string)
    requires |kids| % 2 == 0 && Has(kids, k)
    ensures var r := RemovePair(kids, FirstIndex(kids, k));
            |r| % 2 == 0 && |r| == |kids| - 2 && Pairs(r) == AssocRemove(Pairs(kids), k)
  {
    FirstIndexIsAssocFirst(kids, k);
    var i, ps := FirstIndex(kids, k), Pairs(kids);
    var r := RemovePair(kids, i);
    assert AssocRemove(ps, k) == ps[..i] + ps[i + 1..];
    forall j | 0 <= j < |r| / 2
      ensures Pairs(r)[j] == ps[if j < i then j else j + 1]
    {
      RemovePairAt(kids, i, j);
    }
  }

  /** Replace-or-append on even content refines update of the association list. */
  lemma SetFieldRefines(kids: seq<Tree>, k: string, v: Tree)
    requires |kids| % 2 == 0
    ensures var r := SetField(kids, k, v);
            |r| % 2 == 0 && Pairs(r) == AssocSet(Pairs(kids), k, v)
  {
    FirstIndexIsAssocFirst(kids, k);
    var r := SetField(kids, k, v);
    forall j | 0 <= j < |r| / 2
      ensures Pairs(r)[j] == AssocSet(Pairs(kids), k, v)[j]
    {
      if j < |kids| / 2 {
        assert r[2 * j] == kids[2 * j];
      }
    }
  }

  lemma AppendPairRefines(kids: seq<Tree>, key: Tree, v: Tree)
    requires |kids| % 2 == 0
    ensures Pairs(kids + [key, v]) == Pairs(kids) + [Pair(key, v)]
  {
    var r := kids + [key, v];
    forall j | 0 <= j < |r| / 2
      ensures Pairs(r)[j] == (Pairs(kids) + [Pair(key, v)])[j]
    {
      if j < |kids| / 2 { assert r[2 * j] == kids[2 * j] && r[2 * j + 1] == kids[2 * j + 1]; }
    }
  }

  // ----- decoding into generic values -----

  /** A decoded value. A scalar that is no string keeps its tag and text. */
  datatype Any =
    | Str(s: string)
    | Other(tag: string, text: string)
    | List(items: seq<Any>)
    | Map(fields: map<string, Any>)

  type Entry = map<string, Any>

  /** node.Decode into an `any`: a repeated or non-scalar key in a mapping is an error. */
  function DecodeAny(t: Tree): Option<Any>
    decreases t, 2
  {
    match t.kind
    case Scalar => Some(if t.tag == "!!str" then Str(t.value) else Other(t.tag, t.value))
    case Sequence =>
      if forall i :: 0 <= i < |t.kids| ==> DecodeAny(t.kids[i]).Some? then
        Some(List(seq(|t.kids|, i requires 0 <= i < |t.kids| && DecodeAny(t.kids[i]).Some? =>
          DecodeAny(t.kids[i]).value)))
      else None
    case Mapping =>
      var m := DecodeFields(t.kids, |t.kids| / 2);
      if m.Some? then Some(Map(m.value)) else None
  }

  /** The first n pairs of a mapping's content as a map. */
  function DecodeFields(kids: seq<Tree>, n: nat): Option<Entry>
    requires n <= |kids| / 2
    decreases kids, n
  {
    if n == 0 then Some(map[])
    else
      var rest := DecodeFields(kids, n - 1);
      var key, v := kids[2 * n - 2], DecodeAny(kids[2 * n - 1]);
      if rest.None? || v.None? || !key.kind.Scalar? || key.value in rest.value then None
      else Some(rest.value[key.value := v.value])
  }

  /** node.Decode into a map[string]any: null is the nil map, any other non-mapping an error. */
  function DecodeEntry(t: Tree): Option<Entry> {
    match t.kind
    case Mapping => DecodeFields(t.kids, |t.kids| / 2)
    case Scalar => if t.tag == "!!null" then Some(map[]) else None
    case Sequence => None
  }

  lemma DecodeSeqTree(items: seq<string>)
    ensures DecodeAny(SeqTree(items)) == Some(List(Strs(items)))
  {
    var t := SeqTree(items);
    assert forall i :: 0 <= i < |items| ==> DecodeAny(t.kids[i]) == Some(Str(items[i]));
    assert DecodeAny(t).value.items == Strs(items);
  }

  function Strs(items: seq<string>): seq<Any> {
    seq(|items|, i requires 0 <= i < |items| => Str(items[i]))
  }

  /** The keys that the decoded fields have are the keys of the pairs. */
  lemma {:induction false} DecodedKeys(kids: seq<Tree>, n: nat, k: string)
    requires n <= |kids| / 2 && DecodeFields(kids, n).Some?
    ensures k in DecodeFields(kids, n).value <==> exists i :: 0 <= i < n && kids[2 * i].value == k
  {
    if n > 0 {
      DecodedKeys(kids, n - 1, k);
      if kids[2 * (n - 1)].value == k { assert k in DecodeFields(kids, n).value; }
      if k in DecodeFields(kids, n).value && kids[2 * (n - 1)].value != k {
        var i :| 0 <= i < n - 1 && kids[2 * i].value == k;
      }
    }
  }

  // ----- what decodes, and what decoding distinguishes -----

  /** The first n keys are scalars, pairwise different. */
  predicate PlainKeys(kids: seq<Tree>, n: nat)
    requires n <= |kids| / 2
  {
    forall i :: 0 <= i < n ==>
      kids[2 * i].kind.Scalar? && forall j :: 0 <= j < i ==> kids[2 * j].value != kids[2 * i].value
  }

  /** Every mapping in the tree has scalar keys, pairwise different. */
  predicate Decodable(t: Tree) {
    match t.kind
    case Scalar => true
    case Sequence => forall i :: 0 <= i < |t.kids| ==> Decodable(t.kids[i])
    case Mapping =>
      PlainKeys(t.kids, |t.kids| / 2) && forall i :: 0 <= i < |t.kids| / 2 ==> Decodable(t.kids[2 * i + 1])
  }

  lemma {:induction false} FieldsDecodeExactlyIf(kids: seq<Tree>, n: nat)
    requires n <= |kids| / 2
    ensures DecodeFields(kids, n).Some? <==>
      PlainKeys(kids, n) && forall i :: 0 <= i < n ==> DecodeAny(kids[2 * i + 1]).Some?
  {
    if n > 0 {
      FieldsDecodeExactlyIf(kids, n - 1);
      hide DecodeAny;
      if DecodeFields(kids, n - 1).Some? { DecodedKeys(kids, n - 1, kids[2 * (n - 1)].value); }
    }
  }

  lemma {:induction false} DecodesExactlyIf(t: Tree)
    ensures DecodeAny(t).Some? <==> Decodable(t)
  {
    if t.kind.Sequence? {
      forall i | 0 <= i < |t.kids|
        ensures DecodeAny(t.kids[i]).Some? <==> Decodable(t.kids[i])
      {
        DecodesExactlyIf(t.kids[i]);
      }
    } else if t.kind.Mapping? {
      FieldsDecodeExactlyIf(t.kids, |t.kids| / 2);
      forall i | 0 <= i < |t.kids| / 2
        ensures DecodeAny(t.kids[2 * i + 1]).Some? <==> Decodable(t.kids[2 * i + 1])
      {
        DecodesExactlyIf(t.kids[2 * i + 1]);
      }
    }
  }

  /** An entry decodes exactly if it is null, or a mapping in which no mapping repeats a key. */
  lemma EntryDecodesExactlyIf(t: Tree)
    ensures DecodeEntry(t).Some? <==>
      (t.kind.Scalar? && t.tag == "!!null") || (t.kind.Mapping? && Decodable(t))
    ensures t.kind.Scalar? && t.tag == "!!null" ==> DecodeEntry(t) == Some(map[])
  {
    if t.kind.Mapping? { DecodesExactlyIf(t); }
  }

  /** The same data: tags and texts of scalars, the items of sequences in order, and the fields of mappings. */
  predicate SameData(a: Tree, b: Tree)
    decreases a, 0
  {
    a.kind == b.kind &&
    match a.kind
    case Scalar => a.tag == b.tag && a.value == b.value
    case Sequence => |a.kids| == |b.kids| && forall i :: 0 <= i < |a.kids| ==> SameData(a.kids[i], b.kids[i])
    case Mapping =>
      && |a.kids| / 2 == |b.kids| / 2
      && forall i :: 0 <= i < |a.kids| / 2 ==> IsField(a.kids[2 * i].value, a.kids[2 * i + 1], b.kids)
  }

  /** Some pair of the content has this key and the same data as this value. */
  predicate IsField(k: string, v: Tree, kids: seq<Tree>)
    decreases v, 1
  {
    exists j :: 0 <= j < |kids| / 2 && kids[2 * j].value == k && SameData(v, kids[2 * j + 1])
  }

  lemma {:induction false} FieldsDecode(kids: seq<Tree>, n: nat, i: nat)
    requires i < n <= |kids| / 2 && DecodeFields(kids, n).Some?
    ensures var m := DecodeFields(kids, n).value;
            && DecodeAny(kids[2 * i + 1]).Some? && kids[2 * i].value in m
            && m[kids[2 * i].value] == DecodeAny(kids[2 * i + 1]).value
  {
    if i < n - 1 { FieldsDecode(kids, n - 1, i); }
  }

  lemma {:induction false} FieldCount(kids: seq<Tree>, n: nat)
    requires n <= |kids| / 2 && DecodeFields(kids, n).Some?
    ensures |DecodeFields(kids, n).value.Keys| == n
  {
    if n > 0 {
      FieldCount(kids, n - 1);
      var k, rest := kids[2 * n - 2].value, DecodeFields(kids, n - 1).value;
      assert DecodeFields(kids, n).value.Keys == rest.Keys + {k};
    }
  }

  /** Of the values in a and b, those decode to the same that have the same data. */
  ghost predicate ValuesAlike(a: seq<Tree>, b: seq<Tree>) {
    forall i, j :: 0 <= i < |a| / 2 && 0 <= j < |b| / 2 ==>
      (DecodeAny(a[2 * i + 1]) == DecodeAny(b[2 * j + 1]) <==> SameData(a[2 * i + 1], b[2 * j + 1]))
  }

  lemma FieldsAlike(a: seq<Tree>, b: seq<Tree>)
    requires DecodeFields(a, |a| / 2).Some? && DecodeFields(b, |b| / 2).Some?
    requires ValuesAlike(a, b)
    ensures DecodeFields(a, |a| / 2) == DecodeFields(b, |b| / 2) <==>
      |a| / 2 == |b| / 2 && forall i :: 0 <= i < |a| / 2 ==> IsField(a[2 * i].value, a[2 * i + 1], b)
  {
    hide DecodeAny, DecodeFields, SameData, IsField, ValuesAlike;
    var n, m, x, y := |a| / 2, |b| / 2, DecodeFields(a, |a| / 2).value, DecodeFields(b, |b| / 2).value;
    FieldCount(a, n);
    FieldCount(b, m);
    var ks := seq(n, i requires 0 <= i < n => a[2 * i].value);
    forall i | 0 <= i < n
      ensures ks[i] in x && (IsField(ks[i], a[2 * i + 1], b) <==> ks[i] in y && x[ks[i]] == y[ks[i]])
    {
      FieldIsThere(a, b, i);
    }
    forall k
      ensures k in x <==> k in ks
    {
      DecodedKeys(a, n, k);
      if k in x { var i :| 0 <= i < n && a[2 * i].value == k; assert ks[i] == k; }
    }
    MapsAlike(x, y, ks);
    if forall i :: 0 <= i < n ==> IsField(a[2 * i].value, a[2 * i + 1], b) {
      forall i | 0 <= i < n
        ensures ks[i] in y && x[ks[i]] == y[ks[i]]
      {
        assert IsField(a[2 * i].value, a[2 * i + 1], b);
      }
    }
    if x == y {
      forall i | 0 <= i < n
        ensures IsField(a[2 * i].value, a[2 * i + 1], b)
      {
        assert ks[i] in x;
      }
    }
  }

  /** Maps of one size are equal exactly if they agree at the keys of the first, which are listed. */
  lemma MapsAlike<K, V>(x: map<K, V>, y: map<K, V>, ks: seq<K>)
    requires forall k :: k in x <==> k in ks
    ensures x == y <==> |x.Keys| == |y.Keys| && forall i :: 0 <= i < |ks| ==> ks[i] in y && x[ks[i]] == y[ks[i]]
  {
    if |x.Keys| == |y.Keys| && forall i :: 0 <= i < |ks| ==> ks[i] in y && x[ks[i]] == y[ks[i]] {
      assert x.Keys <= y.Keys;
      SubsetOfSameSize(x.Keys, y.Keys);
      assert x == y;
    }
  }

  lemma SubsetOfSameSize<T>(a: set<T>, b: set<T>)
    requires a <= b && |a| == |b|
    ensures a == b
  {
    assert b == a + (b - a);
  }

  lemma FieldIsThere(a: seq<Tree>, b: seq<Tree>, i: nat)
    requires DecodeFields(a, |a| / 2).Some? && DecodeFields(b, |b| / 2).Some? && i < |a| / 2
    requires ValuesAlike(a, b)
    ensures var x, y, k := DecodeFields(a, |a| / 2).value, DecodeFields(b, |b| / 2).value, a[2 * i].value;
            k in x && (IsField(k, a[2 * i + 1], b) <==> k in y && x[k] == y[k])
  {
    hide DecodeAny, DecodeFields, SameData;
    var n, k := |b| / 2, a[2 * i].value;
    FieldsDecode(a, |a| / 2, i);
    DecodedKeys(b, n, k);
    forall j | 0 <= j < n && b[2 * j].value == k
      ensures DecodeAny(b[2 * j + 1]) == Some(DecodeFields(b, n).value[k])
    {
      FieldsDecode(b, n, j);
    }
  }

  /**
   Decoding keeps exactly the data: two nodes decode to the same value exactly if they agree in tags and
   texts, in the items of their sequences, and in the fields of their mappings, in whatever order.
   */
  lemma {:induction false} DecodesAlikeExactlyIf(a: Tree, b: Tree)
    requires DecodeAny(a).Some? && DecodeAny(b).Some?
    ensures DecodeAny(a) == DecodeAny(b) <==> SameData(a, b)
    decreases a, 1
  {
    if a.kind == b.kind {
      if a.kind.Sequence? {
        SequencesAlike(a, b);
      } else if a.kind.Mapping? {
        forall i, j | 0 <= i < |a.kids| / 2 && 0 <= j < |b.kids| / 2
          ensures DecodeAny(a.kids[2 * i + 1]) == DecodeAny(b.kids[2 * j + 1]) <==>
            SameData(a.kids[2 * i + 1], b.kids[2 * j + 1])
        {
          FieldsDecode(a.kids, |a.kids| / 2, i);
          FieldsDecode(b.kids, |b.kids| / 2, j);
          DecodesAlikeExactlyIf(a.kids[2 * i + 1], b.kids[2 * j + 1]);
        }
        FieldsAlike(a.kids, b.kids);
      }
    }
  }

  lemma SequencesAlike(a: Tree, b: Tree)
    requires DecodeAny(a).Some? && DecodeAny(b).Some? && a.kind.Sequence? && b.kind.Sequence?
    ensures DecodeAny(a) == DecodeAny(b) <==> SameData(a, b)
    decreases a, 0
  {
    if |a.kids| == |b.kids| {
      forall i | 0 <= i < |a.kids|
        ensures DecodeAny(a).value.items[i] == DecodeAny(b).value.items[i] <==> SameData(a.kids[i], b.kids[i])
      {
        DecodesAlikeExactlyIf(a.kids[i], b.kids[i]);
      }
      if forall i :: 0 <= i < |a.kids| ==> SameData(a.kids[i], b.kids[i]) {
        assert DecodeAny(a).value.items == DecodeAny(b).value.items;
      }
    }
  }

  lemma {:induction false} DecodeFieldsCongruent(a: seq<Tree>, b: seq<Tree>, n: nat)
    requires n <= |a| / 2 && n <= |b| / 2
    requires forall i :: 0 <= i < 2 * n ==> a[i] == b[i]
    ensures DecodeFields(a, n) == DecodeFields(b, n)
  {
    if n > 0 { DecodeFieldsCongruent(a, b, n - 1); }
  }

  /** Replacing the value of one pair updates exactly that key of the decoded map. */
  lemma {:induction false} DecodeReplaced(kids: seq<Tree>, n: nat, i: nat, v: Tree)
    requires i < n <= |kids| / 2
    requires DecodeFields(kids, n).Some? && DecodeAny(v).Some?
    ensures DecodeFields(kids[2 * i + 1 := v], n)
         == Some(DecodeFields(kids, n).value[kids[2 * i].value := DecodeAny(v).value])
  {
    var r := kids[2 * i + 1 := v];
    assert r[2 * n - 2] == kids[2 * n - 2];
    if i == n - 1 {
      DecodeFieldsCongruent(kids, r, n - 1);
      var k, rest := kids[2 * i].value, DecodeFields(kids, n - 1).value;
      assert rest[k := DecodeAny(kids[2 * i + 1]).value][k := DecodeAny(v).value] == rest[k := DecodeAny(v).value];
    } else {
      DecodeReplaced(kids, n - 1, i, v);
      DecodedKeys(kids, n - 1, kids[2 * i].value);
      var a, b, rest := kids[2 * i].value, kids[2 * n - 2].value, DecodeFields(kids, n - 1).value;
      var x, y := DecodeAny(v).value, DecodeAny(kids[2 * n - 1]).value;
      assert r[2 * n - 1] == kids[2 * n - 1];
      assert rest[b := y][a := x] == rest[a := x][b := y];
    }
  }

  /** What setMapField does to the decoded entry, whether it replaces or appends. */
  lemma DecodeSetField(kids: seq<Tree>, k: string, v: Tree)
    requires |kids| % 2 == 0
    requires DecodeFields(kids, |kids| / 2).Some? && DecodeAny(v).Some?
    ensures var r := SetField(kids, k, v);
            DecodeFields(r, |r| / 2) == Some(DecodeFields(kids, |kids| / 2).value[k := DecodeAny(v).value])
  {
    hide DecodeFields, DecodeAny;
    var n, i := |kids| / 2, FirstIndex(kids, k);
    if i < n {
      DecodeReplaced(kids, n, i, v);
    } else {
      DecodedKeys(kids, n, k);
      DecodeAppended(kids, k, v);
    }
  }

  lemma DecodeAppended(kids: seq<Tree>, k: string, v: Tree)
    requires |kids| % 2 == 0
    requires DecodeFields(kids, |kids| / 2).Some? && DecodeAny(v).Some? && k !in DecodeFields(kids, |kids| / 2).value
    ensures var r := kids + [ScalarTree(k), v];
            DecodeFields(r, |r| / 2) == Some(DecodeFields(kids, |kids| / 2).value[k := DecodeAny(v).value])
  {
    var n, r := |kids| / 2, kids + [ScalarTree(k), v];
    DecodeFieldsCongruent(kids, r, n);
    assert r[2 * n] == ScalarTree(k) && r[2 * n + 1] == v && |r| / 2 == n + 1;
  }

  lemma WellFormedParts(t: Tree, i: nat)
    requires WellFormed(t) && i < |t.kids|
    ensures WellFormed(t.kids[i])
  {
  }
}
