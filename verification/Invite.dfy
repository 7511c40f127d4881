/**
 The batch invite form: its text, the groups posted with it, and the user built from each entry.
 */
module Invite {
  import opened Text
  import opened Username
  import opened UserFile

  datatype InviteEntry = InviteEntry(email: string, displayName: string)

  // ----- the text -----

  function Address(line: string): string {
    ToLower(TrimSpace(Cut(line, ',').0))
  }

  function EntryOf(line: string): InviteEntry {
    InviteEntry(Address(line), TrimSpace(Cut(line, ',').1))
  }

  /** Before the first comma the address, trimmed and without capitals; after it the name, trimmed. */
  lemma EntryMeaning(a: string, b: string)
    requires ',' !in a
    ensures var e := EntryOf(a + [','] + b);
            && CaseVariant(e.email, TrimSpace(a)) && (forall c :: c in e.email ==> !('A' <= c <= 'Z'))
            && e.displayName == TrimSpace(b)
    ensures EntryOf(a) == EntryOf(a + [',']).(displayName := "")
  {
    CutAtFirst(a, ',', b);
    CutAtFirst(a, ',', "");
    CutNowhere(a, ',');
    assert a + [','] + "" == a + [','];
    LowerMeaning(TrimSpace(a));
  }

  /** The line has an address that no earlier line has. */
  predicate IsFirst(lines: seq<string>, i: nat)
    requires i < |lines|
  {
    Address(lines[i]) != "" && forall j :: 0 <= j < i ==> Address(lines[j]) != Address(lines[i])
  }

  /** The first n lines that have a new address, by their indices in order. */
  function FirstLines(lines: seq<string>, n: nat): (r: seq<nat>)
    requires n <= |lines|
    ensures forall k :: 0 <= k < |r| ==> r[k] < n && IsFirst(lines, r[k])
    ensures forall k, l :: 0 <= k < l < |r| ==> r[k] < r[l]
  {
    if n == 0 then []
    else
      var before := FirstLines(lines, n - 1);
      if IsFirst(lines, n - 1) then before + [n - 1] else before
  }

  lemma {:induction false} FirstLinesComplete(lines: seq<string>, n: nat, i: nat)
    requires i < n <= |lines| && IsFirst(lines, i)
    ensures i in FirstLines(lines, n)
  {
    if i < n - 1 { FirstLinesComplete(lines, n - 1, i); }
  }

  /** One entry for each of the first n lines with a new address, in order. */
  function ParsedUpTo(lines: seq<string>, n: nat): (r: seq<InviteEntry>)
    requires n <= |lines|
    ensures var at := FirstLines(lines, n); |r| == |at| && forall k :: 0 <= k < |at| ==> r[k] == EntryOf(lines[at[k]])
  {
    var at := FirstLines(lines, n);
    seq(|at|, k requires 0 <= k < |at| => EntryOf(lines[at[k]]))
  }

  function Parsed(lines: seq<string>): seq<InviteEntry> {
    ParsedUpTo(lines, |lines|)
  }

  function SeenBefore(lines: seq<string>, n: nat): set<string>
    requires n <= |lines|
  {
    set j | 0 <= j < n :: Address(lines[j])
  }

  lemma ParsedAtFirst(lines: seq<string>)
    ensures ParsedUpTo(lines, 0) == [] && SeenBefore(lines, 0) == {}
  {
  }

  lemma ParsedNext(lines: seq<string>, n: nat)
    requires n < |lines|
    ensures EntryOf(lines[n]).email == Address(lines[n])
    ensures IsFirst(lines, n) <==> Address(lines[n]) != "" && Address(lines[n]) !in SeenBefore(lines, n)
    ensures SeenBefore(lines, n + 1) == SeenBefore(lines, n) + {Address(lines[n])}
    ensures ParsedUpTo(lines, n + 1) == ParsedUpTo(lines, n) + if IsFirst(lines, n) then [EntryOf(lines[n])] else []
  {
  }

  /** Everything before the first comma is the address, everything after it the name. */
  method ReadLine(line: string) returns (e: InviteEntry)
    ensures e == EntryOf(line)
  {
    var (emailPart, namePart, _) := Cut(line, ',');
    e := InviteEntry(ToLower(TrimSpace(emailPart)), TrimSpace(namePart));
  }

  /** Walk the lines once, remembering the addresses seen. */
  method ParseInviteLines(raw: string) returns (out: seq<InviteEntry>)
    ensures out == Parsed(Split(raw, '\n'))
  {
    hide Address, EntryOf, IsFirst, ParsedUpTo, SeenBefore, Split;
    var lines := Split(raw, '\n');
    var seen: set<string> := {};
    out := [];
    ParsedAtFirst(lines);
    for i := 0 to |lines|
      invariant out == ParsedUpTo(lines, i)
      invariant forall a :: a in seen <==> a != "" && a in SeenBefore(lines, i)
    {
      ParsedNext(lines, i);
      var entry := ReadLine(lines[i]);
      if entry.email != "" && entry.email !in seen {
        seen := seen + {entry.email};
        out := out + [entry];
      }
    }
  }

  lemma LowerMakesNoSpace(c: char)
    ensures IsSpace(LowerChar(c)) ==> IsSpace(c)
  {
  }

  /** Not empty, no blank at either end, and no capitals. */
  predicate IsCleanEmail(s: string) {
    s != "" && s[0] !in BLANKS && s[|s| - 1] !in BLANKS && forall c :: c in s ==> !('A' <= c <= 'Z')
  }

  lemma AddressIsClean(line: string)
    requires Address(line) != ""
    ensures IsCleanEmail(Address(line))
  {
    var t := TrimSpace(Cut(line, ',').0);
    TrimMeaning(Cut(line, ',').0, IsSpace);
    LowerMeaning(t);
    LowerTrimmed(t);
    SpacesAreBlanks(Address(line)[0]);
    SpacesAreBlanks(Address(line)[|Address(line)| - 1]);
  }

  lemma LowerTrimmed(t: string)
    requires Trimmed(t, IsSpace)
    ensures Trimmed(ToLower(t), IsSpace)
  {
    if t != "" {
      LowerMakesNoSpace(t[0]);
      LowerMakesNoSpace(t[|t| - 1]);
    }
  }

  lemma {:induction false} FirstOf(lines: seq<string>, i: nat) returns (f: nat)
    requires i < |lines| && Address(lines[i]) != ""
    ensures f <= i && Address(lines[f]) == Address(lines[i]) && IsFirst(lines, f)
  {
    if IsFirst(lines, i) {
      f := i;
    } else {
      var j :| 0 <= j < i && Address(lines[j]) == Address(lines[i]);
      f := FirstOf(lines, j);
    }
  }

  /**
   Whatever was pasted: the emails are non-empty, without capitals or blanks at the ends, and pairwise
   distinct; every address on any line is the email of exactly one entry, which is that of the first
   line with this address.
   */
  lemma ParsedIsClean(lines: seq<string>)
    ensures var es := Parsed(lines);
            && (forall k :: 0 <= k < |es| ==>
              IsCleanEmail(es[k].email))
            && (forall k, l :: 0 <= k < l < |es| ==> es[k].email != es[l].email)
            && (forall i :: 0 <= i < |lines| && Address(lines[i]) != "" ==>
              exists k :: 0 <= k < |es| && es[k].email == Address(lines[i]))
            && (forall i :: 0 <= i < |lines| && Address(lines[i]) != "" ==>
              (forall j :: 0 <= j < i ==> Address(lines[j]) != Address(lines[i])) ==> EntryOf(lines[i]) in es)
  {
    var es, at := Parsed(lines), FirstLines(lines, |lines|);
    forall k | 0 <= k < |es|
      ensures IsCleanEmail(es[k].email)
    {
      AddressIsClean(lines[at[k]]);
    }
    forall i | 0 <= i < |lines| && IsFirst(lines, i)
      ensures EntryOf(lines[i]) in es
    {
      FirstLinesComplete(lines, |lines|, i);
      var k :| 0 <= k < |at| && at[k] == i;
      assert es[k] == EntryOf(lines[i]);
    }
    forall k, l | 0 <= k < l < |es|
      ensures es[k].email != es[l].email
    {
      assert at[k] < at[l] && IsFirst(lines, at[l]);
    }
    forall i | 0 <= i < |lines| && Address(lines[i]) != ""
      ensures exists k :: 0 <= k < |es| && es[k].email == Address(lines[i])
    {
      var f := FirstOf(lines, i);
      FirstLinesComplete(lines, |lines|, f);
      var k :| 0 <= k < |at| && at[k] == f;
      assert es[k].email == Address(lines[i]);
    }
  }

  /** "email", or "email, name". */
  function Line(e: InviteEntry): string {
    if e.displayName == "" then e.email else e.email + [','] + ([' '] + e.displayName)
  }

  function Printed(entries: seq<InviteEntry>): string {
    if entries == [] then "" else Join(Lines(entries), '\n')
  }

  function Lines(entries: seq<InviteEntry>): (r: seq<string>)
    ensures |r| == |entries| && forall k :: 0 <= k < |r| ==> r[k] == Line(entries[k])
  {
    seq(|entries|, k requires 0 <= k < |entries| => Line(entries[k]))
  }

  /** What can be written on one line: the name may contain commas. */
  predicate Writable(e: InviteEntry) {
    && e.email != "" && Trimmed(e.email, IsSpace) && ToLower(e.email) == e.email && ',' !in e.email && '\n' !in e.email
    && Trimmed(e.displayName, IsSpace) && '\n' !in e.displayName
  }

  lemma LineParses(e: InviteEntry)
    requires Writable(e)
    ensures '\n' !in Line(e) && EntryOf(Line(e)) == e
  {
    TrimKeepsTrimmed(e.email, IsSpace);
    if e.displayName == "" {
      CutNowhere(e.email, ',');
    } else {
      var padded := [' '] + e.displayName;
      CutAtFirst(e.email, ',', padded);
      assert padded[1..] == e.displayName;
      assert TrimLeft(padded, IsSpace) == TrimLeft(e.displayName, IsSpace);
      TrimKeepsTrimmed(e.displayName, IsSpace);
    }
  }

  /** Parsing undoes printing. */
  lemma ParsingUndoesPrinting(entries: seq<InviteEntry>)
    requires forall k :: 0 <= k < |entries| ==> Writable(entries[k])
    requires forall k, l :: 0 <= k < l < |entries| ==> entries[k].email != entries[l].email
    ensures Parsed(Split(Printed(entries), '\n')) == entries
  {
    if entries == [] {
      assert Split("", '\n') == [""];
      assert !IsFirst([""], 0);
      assert FirstLines([""], 1) == [];
    } else {
      var lines := Lines(entries);
      forall k | 0 <= k < |lines|
        ensures '\n' !in lines[k] && EntryOf(lines[k]) == entries[k]
      {
        LineParses(entries[k]);
      }
      SplitUndoesJoin(lines, '\n');
      LinesParse(entries, lines);
    }
  }

  // ----- line ends as browsers send them -----

  /** A carriage return at the end of a line makes no difference to it. */
  lemma CarriageReturnIsIgnored(line: string)
    ensures EntryOf(line + ['\r']) == EntryOf(line)
  {
    var c := Cut(line, ',');
    if c.2 {
      CutAtFirst(c.0, ',', c.1 + ['\r']);
      assert c.0 + [','] + (c.1 + ['\r']) == line + ['\r'];
      TrimAppend(c.1, IsSpace, '\r');
    } else {
      CutNowhere(line + ['\r'], ',');
      TrimAppend(line, IsSpace, '\r');
    }
  }

  /** The same lines, some of them with a carriage return at the end. */
  ghost predicate MaybeReturned(lines: seq<string>, returned: seq<string>) {
    |returned| == |lines| && forall i :: 0 <= i < |lines| ==> returned[i] in {lines[i], lines[i] + ['\r']}
  }

  lemma {:induction false} SameEntriesParse(a: seq<string>, b: seq<string>, n: nat)
    requires |a| == |b| && n <= |a| && forall i :: 0 <= i < |a| ==> EntryOf(a[i]) == EntryOf(b[i])
    ensures FirstLines(a, n) == FirstLines(b, n)
  {
    if n > 0 {
      SameEntriesParse(a, b, n - 1);
      assert forall i :: 0 <= i < |a| ==> Address(a[i]) == EntryOf(a[i]).email && Address(b[i]) == EntryOf(b[i]).email;
    }
  }

  lemma ReturnsAreIgnored(lines: seq<string>, returned: seq<string>)
    requires MaybeReturned(lines, returned)
    ensures Parsed(returned) == Parsed(lines)
  {
    forall i | 0 <= i < |lines|
      ensures EntryOf(lines[i]) == EntryOf(returned[i])
    {
      CarriageReturnIsIgnored(lines[i]);
    }
    SameEntriesParse(lines, returned, |lines|);
  }

  /** A text whose lines end in CRLF, all or some of them, means what it means with LF. */
  lemma CrlfMeansLf(lines: seq<string>, returned: seq<string>)
    requires lines != [] && MaybeReturned(lines, returned) && forall i :: 0 <= i < |lines| ==> '\n' !in lines[i]
    ensures Parsed(Split(Join(returned, '\n'), '\n')) == Parsed(Split(Join(lines, '\n'), '\n'))
  {
    SplitUndoesJoin(lines, '\n');
    SplitUndoesJoin(returned, '\n');
    ReturnsAreIgnored(lines, returned);
  }

  /** So parsing undoes printing with CRLF too. */
  lemma ParsingUndoesPrintingCrlf(entries: seq<InviteEntry>, returned: seq<string>)
    requires forall k :: 0 <= k < |entries| ==> Writable(entries[k])
    requires forall k, l :: 0 <= k < l < |entries| ==> entries[k].email != entries[l].email
    requires entries != [] && MaybeReturned(Lines(entries), returned)
    ensures Parsed(Split(Join(returned, '\n'), '\n')) == entries
  {
    var lines := Lines(entries);
    forall k | 0 <= k < |lines|
      ensures '\n' !in lines[k]
    {
      LineParses(entries[k]);
    }
    CrlfMeansLf(lines, returned);
    ParsingUndoesPrinting(entries);
  }

  lemma LinesParse(entries: seq<InviteEntry>, lines: seq<string>)
    requires |lines| == |entries| && forall k :: 0 <= k < |lines| ==>
      EntryOf(lines[k]) == entries[k] && entries[k].email != ""
    requires forall k, l :: 0 <= k < l < |entries| ==> entries[k].email != entries[l].email
    ensures Parsed(lines) == entries
  {
    assert forall k :: 0 <= k < |lines| ==> Address(lines[k]) == EntryOf(lines[k]).email;
    assert forall k :: 0 <= k < |lines| ==> IsFirst(lines, k);
    AllFirst(lines, |lines|);
  }

  lemma {:induction false} AllFirst(lines: seq<string>, n: nat)
    requires n <= |lines| && forall k :: 0 <= k < |lines| ==> IsFirst(lines, k)
    ensures |FirstLines(lines, n)| == n && forall k :: 0 <= k < n ==> FirstLines(lines, n)[k] == k
  {
    if n > 0 { AllFirst(lines, n - 1); }
  }

  // ----- the groups -----

  /** Lexicographic order by code point, which is the order of the UTF-8 bytes. */
  predicate Leq(a: string, b: string) {
    a == "" || (b != "" && (a[0] < b[0] || (a[0] == b[0] && Leq(a[1..], b[1..]))))
  }

  /** The strings agree up to k, and there a has the smaller character. */
  predicate SmallerAt(a: string, b: string, k: int) {
    0 <= k < |a| && k < |b| && a[..k] == b[..k] && a[k] < b[k]
  }

  lemma SmallerFurtherOn(a: string, b: string, k: nat)
    requires a != "" && b != "" && a[0] == b[0]
    ensures SmallerAt(a, b, k + 1) <==> SmallerAt(a[1..], b[1..], k)
  {
    if k < |a| - 1 && k < |b| - 1 {
      assert a[..k + 1] == [a[0]] + a[1..][..k] && b[..k + 1] == [b[0]] + b[1..][..k];
    }
  }

  /** So a comes before b exactly if it is a prefix of b or has the smaller character where they first differ. */
  lemma {:induction false} LeqMeaning(a: string, b: string)
    ensures Leq(a, b) <==> a <= b || exists k :: SmallerAt(a, b, k)
  {
    if a == "" {
    } else if b == "" || a[0] > b[0] {
      DifferAtOnce(a, b);
    } else if a[0] < b[0] {
      assert SmallerAt(a, b, 0);
    } else {
      LeqMeaning(a[1..], b[1..]);
      assert a <= b <==> a[1..] <= b[1..] by { assert a == [a[0]] + a[1..] && b == [b[0]] + b[1..]; }
      SmallerShifts(a, b);
    }
  }

  lemma DifferAtOnce(a: string, b: string)
    requires a != "" && (b == "" || a[0] > b[0])
    ensures !(a <= b) && forall k :: !SmallerAt(a, b, k)
  {
    forall k
      ensures !SmallerAt(a, b, k)
    {
      if k > 0 && k < |a| && k < |b| { assert a[..k][0] != b[..k][0]; }
    }
  }

  lemma SmallerShifts(a: string, b: string)
    requires a != "" && b != "" && a[0] == b[0]
    ensures (exists k :: SmallerAt(a, b, k)) <==> exists k :: SmallerAt(a[1..], b[1..], k)
  {
    if k :| SmallerAt(a, b, k) {
      SmallerFurtherOn(a, b, k - 1);
    }
    if k :| SmallerAt(a[1..], b[1..], k) {
      SmallerFurtherOn(a, b, k);
      assert SmallerAt(a, b, k + 1);
    }
  }

  lemma {:induction false} LeqTotal(a: string, b: string)
    ensures Leq(a, b) || Leq(b, a)
  {
    if a != "" && b != "" && a[0] == b[0] { LeqTotal(a[1..], b[1..]); }
  }

  lemma {:induction false} LeqTransitive(a: string, b: string, c: string)
    requires Leq(a, b) && Leq(b, c)
    ensures Leq(a, c)
  {
    if a != "" && a[0] == b[0] == c[0] { LeqTransitive(a[1..], b[1..], c[1..]); }
  }

  predicate Ordered(s: seq<string>) {
    forall i, j :: 0 <= i < j < |s| ==> Leq(s[i], s[j])
  }

  function InsertSorted(s: seq<string>, x: string): seq<string> {
    if s == [] || Leq(x, s[0]) then [x] + s else [s[0]] + InsertSorted(s[1..], x)
  }

  function Sort(s: seq<string>): seq<string> {
    if s == [] then [] else InsertSorted(Sort(s[1..]), s[0])
  }

  lemma {:induction false} InsertAdds(s: seq<string>, x: string)
    ensures multiset(InsertSorted(s, x)) == multiset(s) + multiset{x}
  {
    if s != [] && !Leq(x, s[0]) {
      InsertAdds(s[1..], x);
      assert s == [s[0]] + s[1..];
    }
  }

  lemma InsertedIsAbove(s: seq<string>, x: string, y: string)
    requires Ordered(s) && s != [] && !Leq(x, s[0]) && y in InsertSorted(s[1..], x)
    ensures Leq(s[0], y)
  {
    InsertAdds(s[1..], x);
    LeqTotal(x, s[0]);
    assert y in multiset(InsertSorted(s[1..], x));
    if y != x { assert y in multiset(s[1..]); }
  }

  lemma {:induction false} InsertKeepsOrder(s: seq<string>, x: string)
    requires Ordered(s)
    ensures Ordered(InsertSorted(s, x))
  {
    if s != [] && !Leq(x, s[0]) {
      InsertKeepsOrder(s[1..], x);
      forall y | y in InsertSorted(s[1..], x)
        ensures Leq(s[0], y)
      {
        InsertedIsAbove(s, x, y);
      }
    } else if s != [] {
      forall j | 0 < j < |s|
        ensures Leq(x, s[j])
      {
        LeqTransitive(x, s[0], s[j]);
      }
    }
  }

  lemma {:induction false} SortSorts(s: seq<string>)
    ensures Ordered(Sort(s)) && multiset(Sort(s)) == multiset(s)
  {
    if s != [] {
      SortSorts(s[1..]);
      InsertKeepsOrder(Sort(s[1..]), s[0]);
      InsertAdds(Sort(s[1..]), s[0]);
      assert s == [s[0]] + s[1..];
    }
  }

  /** The posted groups that are configured, sorted: no unknown group gets through, and none is lost. */
  method SelectedGroups(configured: seq<string>, posted: seq<string>) returns (out: seq<string>)
    ensures Ordered(out)
    ensures forall g :: multiset(out)[g] == if g in configured then multiset(posted)[g] else 0
  {
    var allowed: set<string> := {};
    for i := 0 to |configured|
      invariant forall g :: g in allowed <==> g in configured[..i]
    {
      allowed := allowed + {configured[i]};
    }
    assert configured[..|configured|] == configured;
    out := [];
    for i := 0 to |posted|
      invariant forall g :: multiset(out)[g] == if g in configured then multiset(posted[..i])[g] else 0
    {
      assert posted[..i + 1] == posted[..i] + [posted[i]];
      if posted[i] in allowed { out := out + [posted[i]]; }
    }
    assert posted[..|posted|] == posted;
    SortSorts(out);
    out := Sort(out);
  }

  // ----- one entry -----

  /** displayNameOf stands for the display name that is derived from the local part of an address. */
  datatype Settings = Settings(domains: seq<string>, displayNameOf: string -> string)

  datatype Built = Ready(user: User) | BadAddress | NotAllowed | NameTooLong | NoUsername

  /** The length in bytes of the UTF-8 encoding, which is what the limit on names counts. */
  function Utf8Length(s: string): nat {
    if s == "" then 0
    else
      var c := s[0] as int;
      (if c < 0x80 then 1 else if c < 0x800 then 2 else if c < 0x1_0000 then 3 else 4) + Utf8Length(s[1..])
  }

  /** How many characters of s are at or above this code point. */
  function CountFrom(s: string, point: int): nat {
    if s == "" then 0 else (if s[0] as int >= point then 1 else 0) + CountFrom(s[1..], point)
  }

  /** The bytes that s needs beyond one for each character. */
  function ExtraBytes(s: string): nat {
    CountFrom(s, 0x80) + CountFrom(s, 0x800) + CountFrom(s, 0x1_0000)
  }

  lemma {:induction false} Utf8IsCharactersAndExtra(s: string)
    ensures Utf8Length(s) == |s| + ExtraBytes(s)
  {
    if s != "" { Utf8IsCharactersAndExtra(s[1..]); }
  }

  /**
   The limit is meant for characters and measured in bytes. It does what it says exactly for names that
   are too long either way or whose extra bytes fit into what is left of the hundred.
   */
  lemma LimitIsRightExactlyIf(s: string)
    ensures (Utf8Length(s) <= 100 <==> |s| <= 100) <==> (|s| > 100 || ExtraBytes(s) <= 100 - |s|)
  {
    Utf8IsCharactersAndExtra(s);
  }

  /** The same character over and over. */
  function Repeat(c: char, n: nat): (s: string)
    ensures |s| == n && forall i :: 0 <= i < n ==> s[i] == c
  {
    seq(n, i => c)
  }

  lemma {:induction false} Utf8OfRepeat(c: char, n: nat)
    requires 0x80 <= c as int < 0x800
    ensures Utf8Length(Repeat(c, n)) == 2 * n
  {
    if n > 0 {
      Utf8OfRepeat(c, n - 1);
      assert Repeat(c, n)[1..] == Repeat(c, n - 1);
    }
  }

  predicate HasBlank(s: string) {
    exists i :: 0 <= i < |s| && s[i] in " \t\r\n"
  }

  /** Something before the first @ and something after it, and no blanks. */
  predicate IsAddress(email: string) {
    Cut(email, '@').2 && Cut(email, '@').0 != "" && Cut(email, '@').1 != "" && !HasBlank(email)
  }

  function ShownName(cfg: Settings, email: string, displayName: string): string {
    if displayName == "" then cfg.displayNameOf(Cut(email, '@').0) else displayName
  }

  function BuiltUser(cfg: Settings, email: string, displayName: string, groups: seq<string>): Built {
    if !IsAddress(email) then BadAddress
    else if Cut(email, '@').1 !in cfg.domains then NotAllowed
    else if Utf8Length(ShownName(cfg, email, displayName)) > 100 then NameTooLong
    else if !ValidUsername(Derived(email)) then NoUsername
    else Ready(User(Derived(email), ShownName(cfg, email, displayName), email, groups, false))
  }

  method BuildInviteUser(cfg: Settings, email: string, displayName: string, groups: seq<string>) returns (r: Built)
    ensures r == BuiltUser(cfg, email, displayName, groups)
  {
    var (local, domain, ok) := Cut(email, '@');
    if !ok || local == "" || domain == "" || HasBlank(email) { return BadAddress; }
    var allowed := false;
    for i := 0 to |cfg.domains|
      invariant !allowed && domain !in cfg.domains[..i]
    {
      if domain == cfg.domains[i] {
        allowed := true;
        break;
      }
    }
    assert allowed <==> domain in cfg.domains by { assert cfg.domains[..|cfg.domains|] == cfg.domains; }
    if !allowed { return NotAllowed; }
    var name := if displayName == "" then cfg.displayNameOf(local) else displayName;
    if Utf8Length(name) > 100 { return NameTooLong; }
    var username := DeriveUsername(email);
    if !ValidUsername(username) { return NoUsername; }
    r := Ready(User(username, name, email, groups, false));
  }

  /**
   A user that was built passes the store's check, belongs to an allowed domain, keeps the email and the
   name as entered, has a name of at most 100 bytes, and gets the groups asked for.
   */
  lemma BuiltIsFit(cfg: Settings, email: string, displayName: string, groups: seq<string>)
    requires BuiltUser(cfg, email, displayName, groups).Ready?
    ensures var u := BuiltUser(cfg, email, displayName, groups).user;
            && ValidUsername(u.username) && u.email == email && u.groups == groups && !u.disabled
            && (displayName != "" ==> u.displayName == displayName) && Utf8Length(u.displayName) <= 100
            && exists local, domain ::
              && email == local + ['@'] + domain && local != "" && '@' !in local
              && domain in cfg.domains
  {
    var c := Cut(email, '@');
    assert email == c.0 + ['@'] + c.1;
  }

  /** The name that an account gets: the one entered, or one made from what stands before the @. */
  predicate NameOf(cfg: Settings, local: string, entered: string, name: string) {
    (entered != "" ==> name == entered) && (entered == "" ==> name == cfg.displayNameOf(local))
  }

  /**
   An entry makes a user exactly if its email is something @ an allowed domain, without blanks, its name
   has at most 100 bytes and a username of 1 to 64 characters can be derived; this says which name it is.
   */
  lemma ReadyExactlyIf(cfg: Settings, local: string, domain: string, entered: string, groups: seq<string>, name: string)
    requires '@' !in local && NameOf(cfg, local, entered, name)
    ensures var email := local + ['@'] + domain;
            var b := BuiltUser(cfg, email, entered, groups);
            && (b.Ready? <==>
                  && local != "" && domain != "" && domain in cfg.domains
                  && ' ' !in email && '\t' !in email && '\r' !in email && '\n' !in email
                  && Utf8Length(name) <= 100 && 1 <= |Derived(email)| <= 64)
            && (b.Ready? ==> b.user == User(Derived(email), name, email, groups, false))
  {
    var email := local + ['@'] + domain;
    CutAtFirst(local, '@', domain);
    DerivedIsValid(email);
    forall c | c in " \t\r\n" && c in email
      ensures HasBlank(email)
    {
      var i :| 0 <= i < |email| && email[i] == c;
    }
    assert ' ' in " \t\r\n" && '\t' in " \t\r\n" && '\r' in " \t\r\n" && '\n' in " \t\r\n";
  }

  /** Without an @ there is no user. */
  lemma NoAddressNoUser(cfg: Settings, email: string, entered: string, groups: seq<string>)
    requires '@' !in email
    ensures BuiltUser(cfg, email, entered, groups) == BadAddress
  {
    CutNowhere(email, '@');
  }

  /** A name of 51 characters that is refused as too long. */
  lemma ShortNameIsRefused(cfg: Settings, email: string, groups: seq<string>) returns (name: string)
    requires IsAddress(email) && Cut(email, '@').1 in cfg.domains
    ensures |name| == 51 && BuiltUser(cfg, email, name, groups) == NameTooLong
  {
    name := Repeat('\U{E9}', 51);
    Utf8OfRepeat('\U{E9}', 51);
  }
}
