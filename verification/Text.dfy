/**
 The parts of Go's `strings` package that the portal relies on, over code points.
 Case folding is ASCII folding.
 */
module Text {

  function LowerChar(c: char): char {
    if 'A' <= c <= 'Z' then ((c as int) + 32) as char else c
  }

  function ToLower(s: string): (r: string)
    ensures |r| == |s|
    ensures forall i :: 0 <= i < |s| ==> r[i] == LowerChar(s[i])
  {
    seq(|s|, i requires 0 <= i < |s| => LowerChar(s[i]))
  }

  predicate EqualFold(a: string, b: string) {
    ToLower(a) == ToLower(b)
  }

  lemma LowerIdempotent(s: string)
    ensures ToLower(ToLower(s)) == ToLower(s)
  {
    assert forall i :: 0 <= i < |s| ==> ToLower(ToLower(s))[i] == ToLower(s)[i];
  }

  // ----- what ignoring case means -----

  predicate IsLetter(c: char) {
    'a' <= c <= 'z' || 'A' <= c <= 'Z'
  }

  /** The same character, or the small and the capital form of one letter, which are 32 apart. */
  predicate SameLetter(a: char, b: char) {
    a == b || (IsLetter(a) && IsLetter(b) && (a as int - b as int == 32 || b as int - a as int == 32))
  }

  /** Equal letter by letter. */
  predicate CaseVariant(a: string, b: string) {
    |a| == |b| && forall i :: 0 <= i < |a| ==> SameLetter(a[i], b[i])
  }

  /** Lowering leaves no capital, and changes nothing but the case of letters. */
  lemma LowerMeaning(s: string)
    ensures CaseVariant(s, ToLower(s)) && forall c :: c in ToLower(s) ==> !('A' <= c <= 'Z')
  {
    assert forall i :: 0 <= i < |s| ==> ToLower(s)[i] == LowerChar(s[i]) && SameLetter(s[i], LowerChar(s[i]));
  }

  lemma EqualFoldMeaning(a: string, b: string)
    ensures EqualFold(a, b) <==> CaseVariant(a, b)
  {
    if CaseVariant(a, b) {
      assert forall i :: 0 <= i < |a| ==> SameLetter(a[i], b[i]) && LowerChar(a[i]) == LowerChar(b[i]);
      assert ToLower(a) == ToLower(b);
    }
    if EqualFold(a, b) {
      assert |a| == |ToLower(a)| == |b|;
      forall i | 0 <= i < |a|
        ensures SameLetter(a[i], b[i])
      {
        assert LowerChar(a[i]) == ToLower(a)[i] == ToLower(b)[i] == LowerChar(b[i]);
      }
    }
  }

  // ----- trimming -----

  /** unicode.IsSpace. */
  predicate IsSpace(c: char) {
    var n := c as int;
    || 9 <= n <= 13 || n == 32 || n == 0x85 || n == 0xA0 || n == 0x1680
    || 0x2000 <= n <= 0x200A || n == 0x2028 || n == 0x2029 || n == 0x202F || n == 0x205F || n == 0x3000
  }

  function TrimLeft(s: string, p: char -> bool): string {
    if s != [] && p(s[0]) then TrimLeft(s[1..], p) else s
  }

  function TrimRight(s: string, p: char -> bool): string {
    if s != [] && p(s[|s| - 1]) then TrimRight(s[..|s| - 1], p) else s
  }

  function Trim(s: string, p: char -> bool): string {
    TrimRight(TrimLeft(s, p), p)
  }

  function TrimSpace(s: string): string {
    Trim(s, IsSpace)
  }

  predicate All(s: string, p: char -> bool) {
    forall i :: 0 <= i < |s| ==> p(s[i])
  }

  predicate Trimmed(s: string, p: char -> bool) {
    s == [] || (!p(s[0]) && !p(s[|s| - 1]))
  }

  lemma {:induction false} TrimLeftMeaning(s: string, p: char -> bool)
    ensures var r := TrimLeft(s, p);
            && |r| <= |s| && s[|s| - |r|..] == r && All(s[..|s| - |r|], p) && (r == [] || !p(r[0]))
  {
    if s != [] && p(s[0]) {
      TrimLeftMeaning(s[1..], p);
      var r := TrimLeft(s[1..], p);
      assert s[..|s| - |r|] == [s[0]] + s[1..][..|s| - 1 - |r|];
    }
  }

  lemma {:induction false} TrimRightMeaning(s: string, p: char -> bool)
    ensures var r := TrimRight(s, p);
            && |r| <= |s| && s[..|r|] == r && All(s[|r|..], p) && (r == [] || !p(r[|r| - 1]))
  {
    if s != [] && p(s[|s| - 1]) {
      var t := s[..|s| - 1];
      TrimRightMeaning(t, p);
      var r := TrimRight(t, p);
      assert s[|r|..] == t[|r|..] + [s[|s| - 1]];
      assert t[..|r|] == s[..|r|];
    }
  }

  /** Trim cuts off a maximal run of unwanted characters at each end and nothing else. */
  lemma TrimMeaning(s: string, p: char -> bool)
    ensures Trimmed(Trim(s, p), p)
    ensures exists a, b :: s == a + Trim(s, p) + b && All(a, p) && All(b, p)
  {
    var l := TrimLeft(s, p);
    var r := TrimRight(l, p);
    TrimLeftMeaning(s, p);
    TrimRightMeaning(l, p);
    assert r == Trim(s, p);
    hide Trim, TrimLeft, TrimRight;
    if r != [] { assert r[0] == l[0]; }
    Pieces(s, l, r, p);
  }

  lemma Pieces(s: string, l: string, r: string, p: char -> bool)
    requires |l| <= |s| && s[|s| - |l|..] == l && All(s[..|s| - |l|], p)
    requires |r| <= |l| && l[..|r|] == r && All(l[|r|..], p)
    ensures exists a, b :: s == a + r + b && All(a, p) && All(b, p)
  {
    var a, b := s[..|s| - |l|], l[|r|..];
    assert s == a + l && l == r + b;
    assert s == a + r + b;
  }

  lemma TrimKeepsTrimmed(s: string, p: char -> bool)
    requires Trimmed(s, p)
    ensures Trim(s, p) == s
  {
  }

  lemma {:induction false} TrimLeftAppend(s: string, p: char -> bool, c: char)
    requires p(c)
    ensures TrimLeft(s + [c], p) == TrimLeft(s, p) + [c] || (TrimLeft(s + [c], p) == "" && TrimLeft(s, p) == "")
  {
    var t := s + [c];
    if s == "" {
      assert t[1..] == "";
    } else if p(s[0]) {
      assert t[1..] == s[1..] + [c];
      TrimLeftAppend(s[1..], p, c);
    }
  }

  /** One more unwanted character at the end makes no difference. */
  lemma TrimAppend(s: string, p: char -> bool, c: char)
    requires p(c)
    ensures Trim(s + [c], p) == Trim(s, p)
  {
    TrimLeftAppend(s, p, c);
    var l := TrimLeft(s, p);
    assert (l + [c])[..|l|] == l;
  }

  /** The blanks of ASCII and Unicode. */
  const BLANKS: string :=
    "\t\n\U{B}\U{C}\r \U{85}\U{A0}\U{1680}\U{2000}\U{2001}\U{2002}\U{2003}\U{2004}\U{2005}\U{2006}\U{2007}" +
    "\U{2008}\U{2009}\U{200A}\U{2028}\U{2029}\U{202F}\U{205F}\U{3000}"

  lemma SpacesAreBlanks(c: char)
    ensures IsSpace(c) <==> c in BLANKS
  {
  }

  /** TrimSpace cuts off blanks, no others and all of them. */
  lemma TrimSpaceMeaning(s: string)
    ensures exists a, b :: s == a + TrimSpace(s) + b && (forall c :: c in a + b ==> c in BLANKS)
    ensures TrimSpace(s) != "" ==> TrimSpace(s)[0] !in BLANKS && TrimSpace(s)[|TrimSpace(s)| - 1] !in BLANKS
  {
    TrimMeaning(s, IsSpace);
    var r := TrimSpace(s);
    var a, b :| s == a + r + b && All(a, IsSpace) && All(b, IsSpace);
    forall c | c in a + b
      ensures c in BLANKS
    {
      assert c in a || c in b;
      SpacesAreBlanks(c);
    }
    if r != "" {
      SpacesAreBlanks(r[0]);
      SpacesAreBlanks(r[|r| - 1]);
    }
  }

  /** strings.Cut around a one-character separator. */
  function Cut(s: string, sep: char): (r: (string, string, bool))
    ensures r.2 ==> s == r.0 + [sep] + r.1
    ensures !r.2 ==> r.0 == s && r.1 == "" && sep !in s
    ensures sep !in r.0
  {
    if s == "" then ("", "", false)
    else if s[0] == sep then ("", s[1..], true)
    else
      var t := Cut(s[1..], sep);
      ([s[0]] + t.0, t.1, t.2)
  }

  lemma {:induction false} CutAtFirst(a: string, sep: char, b: string)
    requires sep !in a
    ensures Cut(a + [sep] + b, sep) == (a, b, true)
  {
    var s := a + [sep] + b;
    if a == "" {
      assert s[1..] == b;
    } else {
      assert s[1..] == a[1..] + [sep] + b;
      CutAtFirst(a[1..], sep, b);
      assert a == [a[0]] + a[1..];
    }
  }

  lemma CutNowhere(s: string, sep: char)
    requires sep !in s
    ensures Cut(s, sep) == (s, "", false)
  {
    var t := Cut(s, sep);
    var u := t.0 + [sep] + t.1;
    assert u[|t.0|] == sep;
  }

  /** strings.Split on a one-character separator. */
  function Split(s: string, sep: char): (r: seq<string>)
    ensures |r| >= 1
    ensures forall i :: 0 <= i < |r| ==> sep !in r[i]
    decreases |s|
  {
    var c := Cut(s, sep);
    if c.2 then [c.0] + Split(c.1, sep) else [s]
  }

  function Join(parts: seq<string>, sep: char): string
    requires |parts| >= 1
  {
    if |parts| == 1 then parts[0] else parts[0] + [sep] + Join(parts[1..], sep)
  }

  /** Splitting loses nothing. */
  lemma {:induction false} JoinUndoesSplit(s: string, sep: char)
    ensures Join(Split(s, sep), sep) == s
    decreases |s|
  {
    var c := Cut(s, sep);
    if c.2 {
      JoinUndoesSplit(c.1, sep);
      assert Split(s, sep)[1..] == Split(c.1, sep);
    }
  }

  lemma {:induction false} SplitUndoesJoin(parts: seq<string>, sep: char)
    requires |parts| >= 1
    requires forall i :: 0 <= i < |parts| ==> sep !in parts[i]
    ensures Split(Join(parts, sep), sep) == parts
  {
    if |parts| == 1 {
      assert Join(parts, sep) == parts[0];
    } else {
      CutAtFirst(parts[0], sep, Join(parts[1..], sep));
      SplitUndoesJoin(parts[1..], sep);
    }
  }
}
