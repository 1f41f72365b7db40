/** The names files are saved under, told from their text alone: what is left of
    an offered name (internal/receiver/receiver.go:342-357), and which name is
    taken when that one is not free (internal/receiver/receiver.go:513-528). */
module SaveNames {
  import opened Bytes
  import opened Paths
  import opened SavePath

  predicate Blank(s: string) { forall c :: c in s ==> IsSpace(c) }

  predicate OnlySlashes(s: string) { forall c :: c in s ==> c == '/' }

  predicate IsDirectory(d: string) { d == "" || d[|d| - 1] == '/' }

  /** White space, character by character. */
  const SPACES: string :=
    "\t\n\U{000B}\U{000C}\r \U{0085}\U{00A0}\U{1680}\U{2000}\U{2001}\U{2002}\U{2003}\U{2004}\U{2005}\U{2006}"
    + "\U{2007}\U{2008}\U{2009}\U{200A}\U{2028}\U{2029}\U{202F}\U{205F}\U{3000}"

  lemma SpacesAreSpaces(c: char)
    ensures IsSpace(c) <==> c in SPACES
  {
  }

  // ---------- Trimming ----------

  lemma {:induction false} TrimLeftOf(p: string, x: string)
    requires Blank(p) && (x == "" || !IsSpace(x[0]))
    ensures TrimLeft(p + x) == x
  {
    if p == "" {
      assert p + x == x;
    } else {
      assert p[0] in p && (p + x)[1..] == p[1..] + x;
      assert forall c :: c in p[1..] ==> c in p;
      TrimLeftOf(p[1..], x);
    }
  }

  lemma {:induction false} TrimRightOf(x: string, q: string)
    requires Blank(q) && (x == "" || !IsSpace(x[|x| - 1]))
    ensures TrimRight(x + q) == x
    decreases |q|
  {
    if q == "" {
      assert x + q == x;
    } else {
      var n := |q| - 1;
      assert q[n] in q && (x + q)[..|x + q| - 1] == x + q[..n];
      assert forall c :: c in q[..n] ==> c in q;
      TrimRightOf(x, q[..n]);
    }
  }

  lemma TrimSpaceOf(p: string, x: string, q: string)
    requires Blank(p) && Blank(q) && Trimmed(x)
    ensures TrimSpace(p + x + q) == x
  {
    hide TrimLeft, TrimRight, IsSpace;
    if x == "" {
      assert p + x + q == (p + q) + "" && Blank(p + q);
      TrimLeftOf(p + q, "");
      TrimRightOf("", "");
      assert "" + "" == "";
    } else {
      assert p + x + q == p + (x + q) && (x + q)[0] == x[0];
      TrimLeftOf(p, x + q);
      TrimRightOf(x, q);
    }
  }

  lemma {:induction false} LeftIsSpace(s: string, i: nat)
    requires i < |s| - |TrimLeft(s)|
    ensures IsSpace(s[i])
  {
    if i > 0 {
      LeftIsSpace(s[1..], i - 1);
    }
  }

  lemma LeftBlanks(s: string)
    ensures Blank(s[..|s| - |TrimLeft(s)|]) && s == s[..|s| - |TrimLeft(s)|] + TrimLeft(s)
  {
    hide IsSpace, TrimLeft;
    var n := |s| - |TrimLeft(s)|;
    forall c | c in s[..n] ensures IsSpace(c) {
      var i :| 0 <= i < n && s[i] == c;
      LeftIsSpace(s, i);
    }
  }

  lemma {:induction false} RightBlanks(s: string)
    ensures Blank(s[|TrimRight(s)|..]) && s == TrimRight(s) + s[|TrimRight(s)|..]
  {
    if s != "" && IsSpace(s[|s| - 1]) {
      var n := |s| - 1;
      RightBlanks(s[..n]);
      assert s[|TrimRight(s)|..] == s[..n][|TrimRight(s)|..] + [s[n]];
    }
  }

  lemma TrimSpaceIs(s: string)
    ensures TrimSpace(s) == TrimRight(TrimLeft(s))
  {
  }

  /** What trimming takes away is white space. */
  lemma Trimming(s: string) returns (p: string, q: string)
    ensures Blank(p) && Blank(q) && s == p + TrimSpace(s) + q && Trimmed(TrimSpace(s))
  {
    hide TrimLeft, TrimRight, IsSpace;
    TrimSpaceIs(s);
    var left := TrimLeft(s);
    var middle := TrimRight(left);
    LeftBlanks(s);
    RightBlanks(left);
    TrimSpaceTrims(s);
    p, q := s[..|s| - |left|], left[|middle|..];
    hide TrimSpace, Blank, Trimmed;
    assert s == p + left && left == middle + q;
  }

  // ---------- The last component ----------

  lemma {:induction false} TrimSlashesOf(x: string, slashes: string)
    requires OnlySlashes(slashes) && (x == "" || x[|x| - 1] != '/')
    ensures TrimSlashes(x + slashes) == x
    decreases |slashes|
  {
    if slashes == "" {
      assert x + slashes == x;
    } else {
      var n := |slashes| - 1;
      assert slashes[n] in slashes && (x + slashes)[..|x + slashes| - 1] == x + slashes[..n];
      assert forall c :: c in slashes[..n] ==> c in slashes;
      TrimSlashesOf(x, slashes[..n]);
    }
  }

  lemma {:induction false} SlashesTrimmed(s: string)
    ensures OnlySlashes(s[|TrimSlashes(s)|..]) && s == TrimSlashes(s) + s[|TrimSlashes(s)|..]
  {
    if s != "" && s[|s| - 1] == '/' {
      var n := |s| - 1;
      SlashesTrimmed(s[..n]);
      assert s[|TrimSlashes(s)|..] == s[..n][|TrimSlashes(s)|..] + [s[n]];
    }
  }

  lemma {:induction false} LastSlashOf(d: string, last: string)
    requires IsDirectory(d) && Slashless(last)
    ensures AfterLastSlash(d + last) == |d|
    decreases |last|
  {
    if last == "" {
      assert d + last == d;
    } else {
      var n := |last| - 1;
      assert last[n] in last && forall c :: c in last[..n] ==> c in last;
      assert (d + last)[..|d + last| - 1] == d + last[..n];
      LastSlashOf(d, last[..n]);
    }
  }

  lemma BaseOf(d: string, last: string, slashes: string)
    requires IsDirectory(d) && Slashless(last) && last != "" && OnlySlashes(slashes)
    ensures Base(d + last + slashes) == last
  {
    assert last[|last| - 1] in last && (d + last)[|d + last| - 1] == last[|last| - 1];
    TrimSlashesOf(d + last, slashes);
    LastSlashOf(d, last);
    assert (d + last)[|d|..] == last;
  }

  lemma BaseOfSlashes(slashes: string)
    requires OnlySlashes(slashes)
    ensures Base(slashes) == if slashes == "" then "." else "/"
  {
    TrimSlashesOf("", slashes);
    assert "" + slashes == slashes;
  }

  // ---------- Sanitising, exactly ----------

  /** The text of an offered name: white space around a directory, a last
      component with white space around a name, and slashes. Only a text without
      any component has no last one. */
  datatype Text = Text(front: string, dir: string, before: string, name: string, behind: string, slashes: string,
                       back: string)
  {
    function Last(): string { before + name + behind }

    function Core(): string { dir + Last() + slashes }

    function Whole(): string { front + Core() + back }

    predicate Valid() {
      && Blank(front) && Blank(before) && Blank(behind) && Blank(back)
      && Trimmed(Core()) && Trimmed(name)
      && IsDirectory(dir) && Slashless(Last()) && OnlySlashes(slashes)
      && (Last() == "" ==> dir == "")
    }
  }

  predicate AnyForbidden(s: string) { exists c :: c in s && Forbidden(c) }

  /** Every text has this form, ... */
  lemma TextOf(offered: string) returns (t: Text)
    ensures t.Valid() && t.Whole() == offered
  {
    hide TrimSpace, TrimSlashes, IsSpace;
    var front, back := Trimming(offered);
    var core := TrimSpace(offered);
    SlashesTrimmed(core);
    var rest := TrimSlashes(core);
    var n := AfterLastSlash(rest);
    var last := rest[n..];
    var before, behind := Trimming(last);
    t := Text(front, rest[..n], before, TrimSpace(last), behind, core[|rest|..], back);
    assert t.Last() == last && rest == rest[..n] + last && t.Core() == core;
    if last == "" {
      assert n == |rest|;
      assert rest == "";
    }
  }

  /** ... and from it the result can be read off: the name, unless it is none,
      or a forbidden character occurs anywhere. */
  lemma SanitizedExactly(t: Text)
    requires t.Valid()
    ensures SanitizeFilename(t.Whole()) ==
            if AnyForbidden(t.Whole()) || t.name == "" || t.name == "." || t.name == ".." then "" else t.name
  {
    hide TrimSpace, TrimSlashes, IsSpace, Base;
    var core := t.Core();
    TrimSpaceOf(t.front, core, t.back);
    ForbiddenInside(t);
    if t.Last() == "" {
      assert t.name == "" && core == t.slashes;
      BaseOfSlashes(t.slashes);
      assert TrimSpace(".") == "." && TrimSpace("/") == "/" by {
        DotsAreTrimmed();
        TrimSpaceTrims(".");
        TrimSpaceTrims("/");
      }
      assert '/' in "/";
    } else {
      BaseOf(t.dir, t.Last(), t.slashes);
      TrimSpaceOf(t.before, t.name, t.behind);
      assert forall c :: c in t.name ==> c in t.Last();
      assert forall c :: c in t.name ==> c in core by {
        assert forall c :: c in t.Last() ==> c in core;
      }
      assert '\\' in t.name ==> Forbidden('\\') && '\\' in core;
    }
  }

  lemma DotsAreTrimmed()
    ensures Trimmed(".") && Trimmed("/")
  {
  }

  lemma ForbiddenInside(t: Text)
    requires t.Valid()
    ensures AnyForbidden(t.Whole()) <==> AnyForbidden(t.Core())
  {
    if AnyForbidden(t.Whole()) {
      var c :| c in t.Whole() && Forbidden(c);
      assert c in t.front || c in t.Core() || c in t.back;
      assert !IsSpace(c);
    }
    if AnyForbidden(t.Core()) {
      var c :| c in t.Core() && Forbidden(c);
      assert c in t.Whole();
    }
  }

  /** A safe name is found behind any directories and in any white space. */
  lemma PaddedNames(p: string, d: string, n: string, q: string)
    requires Blank(p) && Blank(q) && SafeName(n) && !AnyForbidden(d)
    ensures SanitizeFilename(p + n + q) == n
    ensures SanitizeFilename(p + d + "/" + n + q) == n
  {
    hide TrimLeft, IsSpace, SanitizeFilename;
    SafeAlone(p, n, q);
    LeftBlanks(d);
    var x := TrimLeft(d);
    var blanks := d[..|d| - |x|];
    var t := Text(p + blanks, x + "/", "", n, "", "", q);
    assert t.Last() == n && t.Core() == x + "/" + n;
    SlashIsNoSpace();
    assert t.Whole() == p + d + "/" + n + q;
    SanitizedExactly(t);
    NothingForbidden(t, p, d, n, q);
  }

  lemma SlashIsNoSpace()
    ensures !IsSpace('/')
  {
  }

  lemma SafeAlone(p: string, n: string, q: string)
    requires Blank(p) && Blank(q) && SafeName(n)
    ensures SanitizeFilename(p + n + q) == n
  {
    hide SanitizeFilename, IsSpace;
    var t := Text(p, "", "", n, "", "", q);
    assert t.Last() == n && t.Core() == n && t.Whole() == p + n + q;
    SanitizedExactly(t);
    if AnyForbidden(t.Whole()) {
      ForbiddenInside(t);
    }
  }

  lemma NothingForbidden(t: Text, p: string, d: string, n: string, q: string)
    requires Blank(p) && Blank(q) && SafeName(n) && !AnyForbidden(d) && t.Whole() == p + d + "/" + n + q
    ensures !AnyForbidden(t.Whole())
  {
    forall c | c in t.Whole() ensures !Forbidden(c) {
      assert c in p || c in d || c == '/' || c in n || c in q;
    }
  }

  // ---------- Numbered names ----------

  /** The number a text of digits stands for. */
  function Value(digits: string): nat
    requires AllDigits(digits)
    decreases |digits|
  {
    if digits == "" then 0
    else
      var n := |digits| - 1;
      assert digits[n] in digits && forall c :: c in digits[..n] ==> c in digits;
      10 * Value(digits[..n]) + (digits[n] as int - '0' as int)
  }

  predicate AllDigits(s: string) { forall c :: c in s ==> '0' <= c <= '9' }

  /** The usual way to write a number: no digits but those it needs. */
  predicate Writes(s: string, n: nat) {
    s != "" && AllDigits(s) && Value(s) == n && (s[0] == '0' ==> s == "0")
  }

  lemma {:induction false} DecimalWrites(n: nat)
    ensures Writes(Decimal(n), n) && (n > 0 ==> Decimal(n)[0] != '0')
  {
    if n >= 10 {
      DecimalWrites(n / 10);
      var s := Decimal(n);
      assert s[..|s| - 1] == Decimal(n / 10) && s[|s| - 1] == Digit(n % 10);
    }
  }

  lemma {:induction false} WritesOnce(s: string, n: nat)
    requires Writes(s, n)
    ensures s == Decimal(n)
    decreases |s|
  {
    var last := |s| - 1;
    assert s[last] in s && forall c :: c in s[..last] ==> c in s;
    var digit := s[last] as int - '0' as int;
    if last == 0 {
      assert s[..0] == "";
      assert s == [s[0]] && Digit(n) == s[0];
    } else {
      assert Value(s) == 10 * Value(s[..last]) + digit;
      LeadingDigit(s[..last]);
      WritesOnce(s[..last], n / 10);
      assert s == s[..last] + [s[last]];
    }
  }

  lemma {:induction false} LeadingDigit(s: string)
    requires s != "" && AllDigits(s) && s[0] != '0'
    ensures Value(s) > 0
    decreases |s|
  {
    var n := |s| - 1;
    assert s[n] in s && s[0] in s && forall c :: c in s[..n] ==> c in s;
    if n > 0 {
      LeadingDigit(s[..n]);
    }
  }

  /** The last dot of a name and what follows it, if there is a dot. */
  predicate IsExtension(stem: string, ext: string) {
    if ext == "" then '.' !in stem else ext[0] == '.' && '.' !in ext[1..]
  }

  lemma {:induction false} NoExt(d: string, stem: string)
    requires IsDirectory(d) && Slashless(stem) && '.' !in stem
    ensures Ext(d + stem) == ""
    decreases |stem|
  {
    if stem == "" {
      assert d + stem == d;
    } else {
      var n := |stem| - 1;
      assert stem[n] in stem && forall c :: c in stem[..n] ==> c in stem;
      assert (d + stem)[..|d + stem| - 1] == d + stem[..n];
      NoExt(d, stem[..n]);
    }
  }

  lemma {:induction false} ExtBehind(x: string, tail: string)
    requires x != "" && x[|x| - 1] == '.' && Slashless(tail) && '.' !in tail
    ensures Ext(x + tail) == "." + tail
    decreases |tail|
  {
    hide Ext;
    if tail == "" {
      DotEnds(x);
      assert x + tail == x && "." + tail == ".";
    } else {
      var n := |tail| - 1;
      var front, last := tail[..n], tail[n];
      assert tail == front + [last] && last in tail && forall c :: c in front ==> c in tail;
      ExtBehind(x, front);
      ExtGrows(x + front, last);
      Regroup(x, front, [last]);
      Regroup(".", front, [last]);
    }
  }

  lemma DotEnds(x: string)
    requires x != "" && x[|x| - 1] == '.'
    ensures Ext(x) == "."
  {
  }

  lemma ExtGrows(s: string, c: char)
    requires Ext(s) != "" && c != '/' && c != '.'
    ensures Ext(s + [c]) == Ext(s) + [c]
  {
    assert (s + [c])[..|s + [c]| - 1] == s;
  }

  lemma ExtOf(d: string, stem: string, ext: string)
    requires IsDirectory(d) && Slashless(stem) && Slashless(ext) && IsExtension(stem, ext)
    ensures Ext(d + stem + ext) == ext
  {
    hide Ext;
    if ext == "" {
      NoExt(d, stem);
      assert d + stem + ext == d + stem;
    } else {
      DotSplit(ext);
      Regroup(d + stem, ".", ext[1..]);
      ExtBehind(d + stem + ".", ext[1..]);
    }
  }

  lemma DotSplit(ext: string)
    requires ext != "" && ext[0] == '.' && Slashless(ext)
    ensures ext == "." + ext[1..] && Slashless(ext[1..])
  {
    assert forall c :: c in ext[1..] ==> c in ext;
  }

  lemma Regroup(a: string, b: string, c: string)
    ensures a + (b + c) == a + b + c
  {
  }

  lemma StemOf(d: string, stem: string, ext: string)
    requires IsDirectory(d) && Slashless(stem) && Slashless(ext) && IsExtension(stem, ext) && stem + ext != ""
    ensures Stem(d + stem + ext) == stem
  {
    hide Base, Ext;
    var name := stem + ext;
    assert Slashless(name);
    BaseOf(d, name, "");
    assert d + name + "" == d + stem + ext;
    ExtOf(d, stem, ext);
    assert name[|name| - |ext|..] == ext && name[..|name| - |ext|] == stem;
  }

  /** The path in directory `d` with this last component. */
  function InDirectory(d: string, name: string): string {
    Show(Path(Parse(d).rooted, Parse(d).parts + [name]))
  }

  lemma CandidateIs(d: string, stem: string, ext: string, text: string, n: nat)
    requires IsDirectory(d) && Slashless(stem) && Slashless(ext) && IsExtension(stem, ext) && stem + ext != ""
    requires Writes(text, n)
    ensures Candidate(d + stem + ext, n) == InDirectory(d, stem + "(" + text + ")" + ext)
  {
    hide Base, Ext, Stem, Parse, Decimal, AfterLastSlash, Value;
    var path, tail := d + stem + ext, stem + "(" + text + ")" + ext;
    StemOf(d, stem, ext);
    ExtOf(d, stem, ext);
    WritesOnce(text, n);
    LastSlashOf(d, stem + ext);
    assert d + (stem + ext) == path && path[..|d|] == d;
    assert Dir(path) == Clean(d);
    NumberedIsName(stem, text, ext);
    JoinIsInDirectory(d, tail);
  }

  lemma NumberedIsName(stem: string, text: string, ext: string)
    requires Slashless(stem) && Slashless(ext) && AllDigits(text)
    ensures ProperName(stem + "(" + text + ")" + ext)
  {
    var tail := stem + "(" + text + ")" + ext;
    assert tail[|stem|] == '(';
    forall c | c in tail ensures c != '/' {
      assert c in stem || c == '(' || c in text || c == ')' || c in ext;
    }
  }

  lemma JoinIsInDirectory(d: string, name: string)
    requires ProperName(name)
    ensures Join(Clean(d), name) == InDirectory(d, name)
  {
    hide Parse, Show;
    ParseIsNormal(d);
    ParseShow(Parse(d));
    CleanNotEmpty(d);
    ParseOfJoin(Clean(d), name);
  }

  lemma CleanNotEmpty(d: string)
    ensures Clean(d) != ""
  {
    ParseIsNormal(d);
    if !Parse(d).rooted && Parse(d).parts != [] {
      NormalShowsRelative(Parse(d));
    }
  }

  lemma ParseOfJoin(a: string, name: string)
    requires a != "" && ProperName(name)
    ensures Join(a, name) == Show(Path(Parse(a).rooted, Parse(a).parts + [name]))
  {
    hide Show;
    SplitConcat(a, name);
    SplitOne(name);
    PushAllAppend(Parse(a).rooted, [], Split(a), [name]);
    PushProper(Parse(a).rooted, Parse(a).parts, [name]);
    assert (a + "/" + name)[0] == a[0];
  }

  /** The name that is taken: the one asked for if it is free, else the one with
      the least number behind its stem whose path is free. */
  ghost predicate TakesLeastNumber(existing: set<string>, d: string, stem: string, ext: string, chosen: string) {
    if d + stem + ext !in existing then chosen == d + stem + ext
    else
      exists n: nat, text: string ::
        && n >= 1 && Writes(text, n)
        && chosen == InDirectory(d, stem + "(" + text + ")" + ext) && chosen !in existing
        && AllTaken(existing, d, stem, ext, n)
  }

  /** All smaller numbers have been given out. */
  ghost predicate AllTaken(existing: set<string>, d: string, stem: string, ext: string, n: nat) {
    forall m: nat, text: string ::
      1 <= m < n && Writes(text, m) ==> InDirectory(d, stem + "(" + text + ")" + ext) in existing
  }

  /** What the search for a unique path comes to, in the text of the path. */
  lemma FirstFreeIsNumbered(existing: set<string>, d: string, stem: string, ext: string, chosen: string)
    requires IsDirectory(d) && Slashless(stem) && Slashless(ext) && IsExtension(stem, ext) && stem + ext != ""
    ensures FirstFree(existing, d + stem + ext, chosen) <==> TakesLeastNumber(existing, d, stem, ext, chosen)
  {
    hide Candidate, InDirectory, Writes;
    var path := d + stem + ext;
    if FirstFree(existing, path, chosen) && path in existing {
      var i: nat :| IsFirstFree(existing, path, chosen, i);
      DecimalWrites(i);
      CandidateIs(d, stem, ext, Decimal(i), i);
      forall m: nat, text: string | 1 <= m < i && Writes(text, m)
        ensures InDirectory(d, stem + "(" + text + ")" + ext) in existing
      {
        CandidateIs(d, stem, ext, text, m);
      }
    }
    if TakesLeastNumber(existing, d, stem, ext, chosen) && path in existing {
      var n: nat, text: string :|
        && n >= 1 && Writes(text, n)
        && chosen == InDirectory(d, stem + "(" + text + ")" + ext) && chosen !in existing
        && AllTaken(existing, d, stem, ext, n);
      CandidateIs(d, stem, ext, text, n);
      forall m: nat | 1 <= m < n ensures Candidate(path, m) in existing {
        DecimalWrites(m);
        CandidateIs(d, stem, ext, Decimal(m), m);
      }
      assert IsFirstFree(existing, path, chosen, n);
    }
  }
}
