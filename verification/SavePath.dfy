/** Choosing a name for a received file: sanitising the offered one
    (internal/receiver/receiver.go:342-357) and stepping aside for existing
    files (internal/receiver/receiver.go:513-528). */
module SavePath {
  import opened Paths

  // ---------- Sanitising ----------

  /** `unicode.IsSpace` */
  predicate IsSpace(c: char) {
    var n := c as int;
    0x09 <= n <= 0x0D || n == 0x20 || n == 0x85 || n == 0xA0 || n == 0x1680
    || 0x2000 <= n <= 0x200A || n == 0x2028 || n == 0x2029 || n == 0x202F || n == 0x205F || n == 0x3000
  }

  function TrimLeft(s: string): (r: string)
    ensures |r| <= |s| && r == s[|s| - |r|..]
    ensures r != "" ==> !IsSpace(r[0])
  {
    if s != "" && IsSpace(s[0]) then TrimLeft(s[1..]) else s
  }

  function TrimRight(s: string): (r: string)
    ensures r <= s
    ensures r != "" ==> !IsSpace(r[|r| - 1])
  {
    if s != "" && IsSpace(s[|s| - 1]) then TrimRight(s[..|s| - 1]) else s
  }

  function TrimSpace(s: string): string { TrimRight(TrimLeft(s)) }

  predicate Trimmed(s: string) { s != "" ==> !IsSpace(s[0]) && !IsSpace(s[|s| - 1]) }

  predicate Forbidden(c: char) { c == '\\' || c == ':' || c == '\0' }

  /** The empty string means the name is refused. */
  function SanitizeFilename(offered: string): string {
    var name := TrimSpace(offered);
    if exists c :: c in name && Forbidden(c) then ""
    else
      var base := TrimSpace(Base(name));
      if base == "" || base == "." || base == ".." || '/' in base || '\\' in base then "" else base
  }

  /** A single component that is safe on every system. */
  predicate SafeName(s: string) {
    ProperName(s) && Trimmed(s) && forall c :: c in s ==> !Forbidden(c)
  }

  lemma TrimSpaceTrims(s: string)
    ensures Trimmed(TrimSpace(s))
    ensures forall c :: c in TrimSpace(s) ==> c in s
    ensures Trimmed(s) ==> TrimSpace(s) == s
  {
  }

  lemma {:induction false} TrimSlashesKeeps(s: string)
    ensures forall c :: c in TrimSlashes(s) ==> c in s
  {
  }

  lemma BaseKeeps(s: string)
    requires s != ""
    ensures forall c :: c in Base(s) ==> c in s
  {
    TrimSlashesKeeps(s);
    var t := TrimSlashes(s);
    if t == "" {
      assert s[|s| - 1] == '/';
    }
  }

  lemma BaseOfName(s: string)
    requires s != "" && Slashless(s)
    ensures Base(s) == s
  {
    assert s[|s| - 1] in s;
    assert TrimSlashes(s) == s;
    assert AfterLastSlash(s) == 0;
  }

  /** The non-empty results are exactly the safe names, and sanitising leaves
      those alone. */
  lemma SanitizedIsSafe(offered: string)
    ensures SanitizeFilename(offered) == "" || SafeName(SanitizeFilename(offered))
    ensures SafeName(offered) <==> SanitizeFilename(offered) == offered && offered != ""
  {
    hide TrimSpace, Base, Trimmed;
    var name := TrimSpace(offered);
    TrimSpaceTrims(offered);
    TrimSpaceTrims(Base(name));
    if name == "" {
      NothingHasNoName();
    } else {
      BaseKeeps(name);
      forall c | c in TrimSpace(Base(name))
        ensures c in name
      {
        assert c in Base(name);
      }
    }
    if SafeName(offered) {
      BaseOfName(offered);
    }
  }

  lemma {:induction false} TrimLeftKeeps(s: string, c: char)
    requires c in s && !IsSpace(c)
    ensures c in TrimLeft(s)
  {
    if IsSpace(s[0]) {
      TrimLeftKeeps(s[1..], c);
    }
  }

  lemma {:induction false} TrimRightKeeps(s: string, c: char)
    requires c in s && !IsSpace(c)
    ensures c in TrimRight(s)
  {
    if IsSpace(s[|s| - 1]) {
      TrimRightKeeps(s[..|s| - 1], c);
    }
  }

  /** Names with a backslash, and the parent directory, are refused. */
  lemma RefusedNames(offered: string)
    requires offered == ".." || '\\' in offered
    ensures SanitizeFilename(offered) == ""
  {
    hide TrimLeft, TrimRight, Base, IsSpace;
    if '\\' in offered {
      BackslashIsNoSpace();
      TrimLeftKeeps(offered, '\\');
      TrimRightKeeps(TrimLeft(offered), '\\');
      assert Forbidden('\\');
    } else {
      ParentTrims();
    }
  }

  lemma BackslashIsNoSpace()
    ensures !IsSpace('\\')
  {
  }

  lemma ParentTrims()
    ensures TrimSpace("..") == ".." && Base("..") == ".."
  {
    TrimSpaceTrims("..");
    hide TrimSpace;
    BaseOfName("..");
  }

  lemma NothingHasNoName()
    ensures TrimSpace("") == "" && TrimSpace(Base("")) == "."
  {
    TrimSpaceTrims(".");
  }

  lemma SanitizeIdempotent(offered: string)
    ensures SanitizeFilename(SanitizeFilename(offered)) == SanitizeFilename(offered)
  {
    SanitizedIsSafe(offered);
    var r := SanitizeFilename(offered);
    if r == "" {
      TrimSpaceTrims("");
      TrimSpaceTrims(".");
    } else {
      SanitizedIsSafe(r);
    }
  }

  /** Joining a sanitised name to a directory adds exactly one component. */
  lemma SanitizedAddsOneComponent(dir: string, offered: string)
    requires dir != "" && SanitizeFilename(offered) != ""
    ensures Parse(Join(dir, SanitizeFilename(offered))) ==
            Path(Parse(dir).rooted, Parse(dir).parts + [SanitizeFilename(offered)])
  {
    SanitizedIsSafe(offered);
    JoinName(dir, SanitizeFilename(offered));
  }

  // ---------- Decimal numerals ----------

  function Digit(n: nat): char
    requires n < 10
  {
    ('0' as int + n) as char
  }

  /** `%d` */
  function Decimal(n: nat): (s: string)
    ensures s != "" && Slashless(s)
    ensures |s| == 1 <==> n < 10
  {
    if n < 10 then [Digit(n)] else Decimal(n / 10) + [Digit(n % 10)]
  }

  lemma {:induction false} DecimalInjective(m: nat, n: nat)
    requires Decimal(m) == Decimal(n)
    ensures m == n
  {
    var s := Decimal(m);
    assert s[|s| - 1] == Digit(m % 10) && s[|s| - 1] == Digit(n % 10);
    if |s| > 1 {
      assert Decimal(m / 10) == s[..|s| - 1] == Decimal(n / 10);
      DecimalInjective(m / 10, n / 10);
    }
  }

  // ---------- Unique paths ----------

  function Stem(path: string): string {
    var base, ext := Base(path), Ext(path);
    // strings.TrimSuffix
    if |ext| <= |base| && base[|base| - |ext|..] == ext then base[..|base| - |ext|] else base
  }

  /** The `i`-th alternative: `dir/stem(i).ext`. */
  function Candidate(path: string, i: nat): string {
    Join(Dir(path), Stem(path) + "(" + Decimal(i) + ")" + Ext(path))
  }

  /** Different numbers give different alternatives. */
  lemma CandidatesDiffer(path: string, i: nat, j: nat)
    requires Candidate(path, i) == Candidate(path, j)
    ensures i == j
  {
    hide Candidate, Parse, Dir, Decimal, StemTail, Ext;
    var x, y := NumberedTail(path, i), NumberedTail(path, j);
    CandidateParts(path, i);
    CandidateParts(path, j);
    var above := Parse(Dir(path)).parts;
    assert (above + [x])[|above|] == x && (above + [y])[|above|] == y;
    var head := StemTail(path) + "(";
    assert x == head + Decimal(i) + (")" + Ext(path)) && y == head + Decimal(j) + (")" + Ext(path));
    assert |Decimal(i)| == |Decimal(j)|;
    assert x[|head|..|head| + |Decimal(i)|] == Decimal(i);
    assert y[|head|..|head| + |Decimal(j)|] == Decimal(j);
    DecimalInjective(i, j);
  }

  /** `Base` gives a slash only as the whole of a path of slashes. */
  function StemTail(path: string): string {
    if Slashless(Stem(path)) then Stem(path) else ""
  }

  function NumberedTail(path: string, i: nat): string {
    StemTail(path) + "(" + Decimal(i) + ")" + Ext(path)
  }

  lemma StemIsNameOrSlash(path: string)
    ensures Slashless(Stem(path)) || Stem(path) == "/"
  {
    if path != "" {
      var t := TrimSlashes(path);
      if t == "" {
        assert Base(path) == "/";
      } else {
        assert Slashless(Base(path));
        assert forall c :: c in Stem(path) ==> c in Base(path);
      }
    } else {
      assert Slashless(".");
    }
  }

  lemma NumberedTailIsName(path: string, i: nat)
    ensures ProperName(NumberedTail(path, i))
  {
    var tail := NumberedTail(path, i);
    assert tail[|StemTail(path)|] == '(';
    StemIsNameOrSlash(path);
    forall c | c in tail
      ensures c != '/'
    {
      assert c in StemTail(path) || c == '(' || c in Decimal(i) || c == ')' || c in Ext(path);
    }
  }

  lemma DirNotEmpty(path: string)
    ensures Dir(path) != ""
  {
    var head := path[..AfterLastSlash(path)];
    ParseIsNormal(head);
    if !Parse(head).rooted && Parse(head).parts != [] {
      NormalShowsRelative(Parse(head));
    }
  }

  lemma CandidateParts(path: string, i: nat)
    ensures Parse(Candidate(path, i)) == Path(Parse(Dir(path)).rooted, Parse(Dir(path)).parts + [NumberedTail(path, i)])
  {
    var dir, tail := Dir(path), NumberedTail(path, i);
    var name := Stem(path) + "(" + Decimal(i) + ")" + Ext(path);
    DirNotEmpty(path);
    StemIsNameOrSlash(path);
    NumberedTailIsName(path, i);
    if Slashless(Stem(path)) {
      assert name == tail;
      JoinName(dir, tail);
    } else {
      assert name == "" + "/" + tail;
      ParseJoin(dir, name);
      SplitConcat("", tail);
      SplitOne(tail);
      assert Split(name) == [""] + [tail];
      PushAllAppend(Parse(dir).rooted, Parse(dir).parts, [""], [tail]);
      PushProper(Parse(dir).rooted, Parse(dir).parts, [tail]);
      assert PushAll(Parse(dir).rooted, Parse(dir).parts, [""]) == PushAll(Parse(dir).rooted, Parse(dir).parts, []);
    }
  }

  /** The first free candidate from `i` on. */
  ghost predicate FirstFree(existing: set<string>, path: string, chosen: string) {
    if path !in existing then chosen == path
    else exists i :: IsFirstFree(existing, path, chosen, i)
  }

  ghost predicate IsFirstFree(existing: set<string>, path: string, chosen: string, i: nat) {
    && i >= 1 && chosen == Candidate(path, i) && chosen !in existing
    && forall j :: 1 <= j < i ==> Candidate(path, j) in existing
  }

  function Tried(path: string, i: nat): (s: set<string>)
    ensures forall c :: c in s <==> exists j :: 1 <= j <= i && c == Candidate(path, j)
  {
    set j | 1 <= j <= i :: Candidate(path, j)
  }

  lemma {:induction false} TriedCount(path: string, i: nat)
    ensures |Tried(path, i)| == i
  {
    hide Candidate;
    if i == 0 {
      assert Tried(path, 0) == {};
    } else {
      TriedCount(path, i - 1);
      var c := Candidate(path, i);
      if c in Tried(path, i - 1) {
        var j :| 1 <= j <= i - 1 && c == Candidate(path, j);
        CandidatesDiffer(path, i, j);
      }
      assert Tried(path, i) == Tried(path, i - 1) + {c};
    }
  }

  lemma {:induction false} SubsetSize(a: set<string>, b: set<string>)
    requires a <= b
    ensures |a| <= |b|
  {
    if a != {} {
      var x :| x in a;
      SubsetSize(a - {x}, b - {x});
    }
  }

  /** `uniquePath`: the loop ends, because its candidates are all different and
      only finitely many files exist. */
  method UniquePath(existing: set<string>, path: string) returns (chosen: string, ghost probes: nat)
    ensures chosen !in existing && FirstFree(existing, path, chosen)
    ensures probes <= |existing| + 1
  {
    hide Candidate;
    if path !in existing {
      return path, 1;
    }
    var i := 1;
    probes := 1;
    TriedCount(path, 0);
    while true
      invariant i >= 1 && probes == i
      invariant Tried(path, i - 1) <= existing
      invariant i - 1 <= |existing|
      decreases |existing| - i
    {
      chosen := Candidate(path, i);
      if chosen !in existing {
        assert IsFirstFree(existing, path, chosen, i);
        return;
      }
      assert Tried(path, i) == Tried(path, i - 1) + {chosen};
      TriedCount(path, i);
      SubsetSize(Tried(path, i), existing);
      i := i + 1;
      probes := probes + 1;
    }
  }
}
