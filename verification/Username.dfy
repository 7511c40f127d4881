/**
 Which usernames the portal accepts, and the one it derives from an email address.
 */
module Username {
  import opened Text

  predicate Alphanumeric(c: char) {
    'a' <= c <= 'z' || '0' <= c <= '9'
  }

  predicate Punctuation(c: char) {
    c == '.' || c == '_' || c == '-'
  }

  predicate Permitted(c: char) {
    Alphanumeric(c) || Punctuation(c)
  }

  /** The pattern ^[a-z0-9][a-z0-9._-]{0,63}$. */
  predicate ValidUsername(s: string) {
    1 <= |s| <= 64 && Alphanumeric(s[0]) && forall i :: 1 <= i < |s| ==> Permitted(s[i])
  }

  const LETTERS_AND_DIGITS: string := "abcdefghijklmnopqrstuvwxyz0123456789"

  lemma AlphanumericMeaning(c: char)
    ensures Alphanumeric(c) <==> c in LETTERS_AND_DIGITS
  {
  }

  /** 1 to 64 characters, letters and digits from the second on also with dots, underscores and hyphens. */
  lemma ValidUsernameMeaning(s: string)
    ensures ValidUsername(s) <==>
      && 1 <= |s| <= 64 && s[0] in LETTERS_AND_DIGITS
      && forall i :: 1 <= i < |s| ==> s[i] in LETTERS_AND_DIGITS || s[i] in ['.', '_', '-']
  {
    hide Alphanumeric;
    forall i | 0 <= i < |s|
      ensures Alphanumeric(s[i]) <==> s[i] in LETTERS_AND_DIGITS
    {
      AlphanumericMeaning(s[i]);
    }
  }

  /** The permitted characters of s, in order. */
  function Filter(s: string): (r: string)
    ensures All(r, Permitted)
  {
    if s == "" then "" else (if Permitted(s[0]) then [s[0]] else "") + Filter(s[1..])
  }

  function Derived(email: string): string {
    Trim(Filter(ToLower(Cut(email, '@').0)), Punctuation)
  }

  /** Each character is kept or dropped by itself, wherever it stands. */
  lemma {:induction false} FilterAppends(s: string, t: string)
    ensures Filter(s + t) == Filter(s) + Filter(t)
  {
    hide Permitted, All;
    if s == "" {
      assert s + t == t;
    } else {
      var head := if Permitted(s[0]) then [s[0]] else "";
      FilterAppends(s[1..], t);
      assert (s + t)[1..] == s[1..] + t;
      assert Filter(s + t) == head + (Filter(s[1..]) + Filter(t));
      assert Filter(s) == head + Filter(s[1..]);
    }
  }

  lemma FilterOne(c: char)
    ensures Filter([c]) == if Permitted(c) then [c] else ""
  {
    hide Permitted;
    assert Filter([c][1..]) == "";
  }

  lemma FilterSnoc(s: string, c: char)
    ensures Filter(s + [c]) == Filter(s) + if Permitted(c) then [c] else ""
  {
    hide Filter, Permitted;
    FilterAppends(s, [c]);
    FilterOne(c);
  }

  lemma {:induction false} FilterKeepsPermitted(s: string)
    requires All(s, Permitted)
    ensures Filter(s) == s
  {
    if s != "" { FilterKeepsPermitted(s[1..]); }
  }

  method DeriveUsername(email: string) returns (r: string)
    ensures r == Derived(email)
  {
    var local := ToLower(Cut(email, '@').0);
    var b := "";
    for i := 0 to |local|
      invariant b == Filter(local[..i])
    {
      FilterSnoc(local[..i], local[i]);
      assert local[..i + 1] == local[..i] + [local[i]];
      if Permitted(local[i]) { b := b + [local[i]]; }
    }
    assert local[..|local|] == local;
    r := Trim(b, Punctuation);
  }

  /** Trimming keeps a property that all characters have. */
  lemma TrimKeepsAll(s: string, p: char -> bool, q: char -> bool)
    requires All(s, q)
    ensures All(Trim(s, p), q)
  {
    TrimMeaning(s, p);
    var r := Trim(s, p);
    var a, b :| s == a + r + b && All(a, p) && All(b, p);
    assert forall i :: 0 <= i < |r| ==> r[i] == s[|a| + i];
  }

  lemma DerivedShape(email: string)
    ensures All(Derived(email), Permitted) && Trimmed(Derived(email), Punctuation)
  {
    var f := Filter(ToLower(Cut(email, '@').0));
    TrimKeepsAll(f, Punctuation, Permitted);
    TrimMeaning(f, Punctuation);
  }

  /** A derived username begins and ends with a letter or digit and is refused only for its length. */
  lemma DerivedIsValid(email: string)
    ensures ValidUsername(Derived(email)) <==> 1 <= |Derived(email)| <= 64
    ensures var d := Derived(email); d != "" ==> Alphanumeric(d[0]) && Alphanumeric(d[|d| - 1])
  {
    DerivedShape(email);
  }

  /** What consists of permitted characters has no domain to cut off and no capitals to lower. */
  lemma PermittedIsPlain(s: string)
    requires All(s, Permitted)
    ensures '@' !in s && ToLower(s) == s && Filter(s) == s
  {
    FilterKeepsPermitted(s);
    assert forall i :: 0 <= i < |s| ==> Permitted(s[i]) && s[i] != '@' && LowerChar(s[i]) == s[i];
    assert ToLower(s) == s;
  }

  /** Deriving again from a derived username, with or without a domain, changes nothing. */
  lemma DeriveIsIdempotent(email: string, domain: string)
    ensures Derived(Derived(email)) == Derived(email)
    ensures Derived(Derived(email) + ['@'] + domain) == Derived(email)
  {
    var d := Derived(email);
    DerivedShape(email);
    PermittedIsPlain(d);
    CutAtFirst(d, '@', domain);
    CutNowhere(d, '@');
    TrimKeepsTrimmed(d, Punctuation);
  }

  /** Capitals in the address make no difference. */
  lemma DerivedIgnoresCase(a: string, b: string)
    requires CaseVariant(a, b)
    ensures Derived(a) == Derived(b)
  {
    EqualFoldMeaning(a, b);
    LowerOfCut(a, '@');
    LowerOfCut(b, '@');
  }

  lemma {:induction false} LowerOfCut(s: string, sep: char)
    requires !IsLetter(sep)
    ensures ToLower(Cut(s, sep).0) == Cut(ToLower(s), sep).0
  {
    if s != "" && s[0] != sep {
      LowerOfCut(s[1..], sep);
      assert ToLower(s)[1..] == ToLower(s[1..]);
    }
  }

  /** Nor does a character that is not permitted, wherever it stands before the @. */
  lemma ForbiddenMakesNoDifference(a: string, c: char, b: string, domain: string)
    requires '@' !in a + b && c != '@' && !Permitted(LowerChar(c))
    ensures Derived(a + [c] + b + ['@'] + domain) == Derived(a + b + ['@'] + domain)
  {
    CutAtFirst(a + [c] + b, '@', domain);
    CutAtFirst(a + b, '@', domain);
    assert ToLower(a + [c] + b) == ToLower(a) + [LowerChar(c)] + ToLower(b);
    assert ToLower(a + b) == ToLower(a) + ToLower(b);
    FilterAppends(ToLower(a) + [LowerChar(c)], ToLower(b));
    FilterAppends(ToLower(a), [LowerChar(c)]);
    FilterAppends(ToLower(a), ToLower(b));
    FilterOne(LowerChar(c));
    assert Filter(ToLower(a) + [LowerChar(c)]) == Filter(ToLower(a));
    assert Filter(ToLower(a + [c] + b)) == Filter(ToLower(a + b));
  }

  /** An accepted username is what is derived from its own address exactly if it ends in a letter or digit. */
  lemma DerivedFromValid(name: string, domain: string)
    requires ValidUsername(name)
    ensures Derived(name + ['@'] + domain) == name <==> Alphanumeric(name[|name| - 1])
  {
    if Alphanumeric(name[|name| - 1]) {
      assert forall i :: 0 <= i < |name| ==> Permitted(name[i]);
      PermittedIsPlain(name);
      CutAtFirst(name, '@', domain);
      TrimKeepsTrimmed(name, Punctuation);
    } else {
      DerivedIsValid(name + ['@'] + domain);
    }
  }
}
