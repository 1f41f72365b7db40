/** Slash-separated paths as Go's `path/filepath` treats them on Unix. A path
    string means a `Path`: rooted or not, with a stack of components. */
module Paths {
  datatype Path = Path(rooted: bool, parts: seq<string>)

  // ---------- Components ----------

  function Split(s: string): (cs: seq<string>)
    ensures |cs| > 0
  {
    if s == "" then [""]
    else
      var rest := Split(s[1..]);
      if s[0] == '/' then [""] + rest else [[s[0]] + rest[0]] + rest[1..]
  }

  function JoinSlash(cs: seq<string>): string {
    if cs == [] then "" else if |cs| == 1 then cs[0] else cs[0] + "/" + JoinSlash(cs[1..])
  }

  predicate Slashless(c: string) { '/' !in c }

  predicate AllSlashless(cs: seq<string>) { forall i :: 0 <= i < |cs| ==> Slashless(cs[i]) }

  lemma {:induction false} SplitSlashless(s: string)
    ensures AllSlashless(Split(s))
  {
    if s != "" {
      SplitSlashless(s[1..]);
    }
  }

  lemma {:induction false} SplitConcat(a: string, b: string)
    ensures Split(a + "/" + b) == Split(a) + Split(b)
  {
    if a == "" {
      assert a + "/" + b == "/" + b;
      assert ("/" + b)[1..] == b;
    } else {
      assert (a + "/" + b)[1..] == a[1..] + "/" + b;
      SplitConcat(a[1..], b);
    }
  }

  lemma {:induction false} SplitOne(c: string)
    requires Slashless(c)
    ensures Split(c) == [c]
  {
    if c != "" {
      assert forall x :: x in c[1..] ==> x in c;
      SplitOne(c[1..]);
      assert [c[0]] + c[1..] == c;
    }
  }

  lemma {:induction false} SplitJoined(cs: seq<string>)
    requires cs != [] && AllSlashless(cs)
    ensures Split(JoinSlash(cs)) == cs
  {
    assert Slashless(cs[0]);
    SplitOne(cs[0]);
    if |cs| > 1 {
      assert forall i :: 0 <= i < |cs| - 1 ==> Slashless(cs[1..][i]) by {
        assert forall i :: 0 <= i < |cs| - 1 ==> cs[1..][i] == cs[i + 1];
      }
      SplitJoined(cs[1..]);
      SplitConcat(cs[0], JoinSlash(cs[1..]));
    }
  }

  // ---------- Clean ----------

  /** One component, met from left to right. */
  function Push(rooted: bool, stack: seq<string>, c: string): seq<string> {
    if c == "" || c == "." then stack
    else if c != ".." then stack + [c]
    else if stack != [] && stack[|stack| - 1] != ".." then stack[..|stack| - 1]
    else if rooted then stack
    else stack + [c]
  }

  function PushAll(rooted: bool, stack: seq<string>, cs: seq<string>): seq<string>
    decreases |cs|
  {
    if cs == [] then stack else PushAll(rooted, Push(rooted, stack, cs[0]), cs[1..])
  }

  function Parse(s: string): Path {
    var rooted := s != "" && s[0] == '/';
    Path(rooted, PushAll(rooted, [], Split(s)))
  }

  function Show(p: Path): string {
    if p.rooted then "/" + JoinSlash(p.parts)
    else if p.parts == [] then "."
    else JoinSlash(p.parts)
  }

  function Clean(s: string): string { Show(Parse(s)) }

  /** `filepath.Join` of two elements; empty ones are ignored. */
  function Join(a: string, b: string): string {
    if a == "" then (if b == "" then "" else Clean(b)) else Clean(a + "/" + b)
  }

  /** A name that stands for itself: not empty, `.` or `..`, and no slash. */
  predicate ProperName(c: string) {
    c != "" && c != "." && c != ".." && Slashless(c)
  }

  predicate ProperNames(cs: seq<string>) { forall i :: 0 <= i < |cs| ==> ProperName(cs[i]) }

  /** `..` may only lead, and only in a relative path. */
  ghost predicate Normal(p: Path) {
    exists k :: Leading(p, k)
  }

  predicate Leading(p: Path, k: nat) {
    && k <= |p.parts|
    && (p.rooted ==> k == 0)
    && (forall i :: 0 <= i < k ==> p.parts[i] == "..")
    && ProperNames(p.parts[k..])
  }

  lemma PushKeepsNormal(p: Path, c: string)
    requires Normal(p) && Slashless(c)
    ensures Normal(Path(p.rooted, Push(p.rooted, p.parts, c)))
  {
    var k: nat :| Leading(p, k);
    var q := Path(p.rooted, Push(p.rooted, p.parts, c));
    if c == "" || c == "." {
      assert q == p;
    } else if c != ".." {
      assert q.parts[k..] == p.parts[k..] + [c];
      assert Leading(q, k);
    } else if k < |p.parts| {
      assert p.parts[k..][|p.parts| - k - 1] == p.parts[|p.parts| - 1];
      assert q.parts[k..] == p.parts[k..][..|p.parts| - k - 1];
      assert Leading(q, k);
    } else if p.rooted {
      assert q == p;
    } else {
      assert Leading(q, k + 1);
    }
  }

  lemma {:induction false} PushAllKeepsNormal(p: Path, cs: seq<string>)
    requires Normal(p) && AllSlashless(cs)
    ensures Normal(Path(p.rooted, PushAll(p.rooted, p.parts, cs)))
    decreases |cs|
  {
    hide Push, Normal;
    if cs != [] {
      assert Slashless(cs[0]);
      PushKeepsNormal(p, cs[0]);
      assert forall i :: 0 <= i < |cs| - 1 ==> cs[1..][i] == cs[i + 1];
      PushAllKeepsNormal(Path(p.rooted, Push(p.rooted, p.parts, cs[0])), cs[1..]);
    }
  }

  /** The result of cleaning is in normal form. */
  lemma ParseIsNormal(s: string)
    ensures Normal(Parse(s))
  {
    var rooted := s != "" && s[0] == '/';
    assert Leading(Path(rooted, []), 0);
    SplitSlashless(s);
    PushAllKeepsNormal(Path(rooted, []), Split(s));
  }

  lemma {:induction false} PushAllAppend(rooted: bool, stack: seq<string>, a: seq<string>, b: seq<string>)
    ensures PushAll(rooted, stack, a + b) == PushAll(rooted, PushAll(rooted, stack, a), b)
    decreases |a|
  {
    hide Push;
    if a == [] {
      assert a + b == b;
    } else {
      assert (a + b)[1..] == a[1..] + b;
      PushAllAppend(rooted, Push(rooted, stack, a[0]), a[1..], b);
    }
  }

  /** Proper names are pushed as they are. */
  lemma {:induction false} PushProper(rooted: bool, stack: seq<string>, cs: seq<string>)
    requires ProperNames(cs)
    ensures PushAll(rooted, stack, cs) == stack + cs
    decreases |cs|
  {
    if cs != [] {
      assert ProperName(cs[0]);
      assert forall i :: 0 <= i < |cs| - 1 ==> cs[1..][i] == cs[i + 1];
      PushProper(rooted, stack + [cs[0]], cs[1..]);
      assert stack + [cs[0]] + cs[1..] == stack + cs;
    }
  }

  lemma {:induction false} PushDots(stack: seq<string>, cs: seq<string>)
    requires forall i :: 0 <= i < |stack| ==> stack[i] == ".."
    requires forall i :: 0 <= i < |cs| ==> cs[i] == ".."
    ensures PushAll(false, stack, cs) == stack + cs
    decreases |cs|
  {
    if cs != [] {
      PushDots(stack + [cs[0]], cs[1..]);
      assert stack + [cs[0]] + cs[1..] == stack + cs;
    }
  }

  lemma PushNormal(p: Path)
    requires Normal(p)
    ensures PushAll(p.rooted, [], p.parts) == p.parts
    ensures AllSlashless(p.parts)
  {
    var k: nat :| Leading(p, k);
    assert p.parts == p.parts[..k] + p.parts[k..];
    PushAllAppend(p.rooted, [], p.parts[..k], p.parts[k..]);
    if k > 0 {
      PushDots([], p.parts[..k]);
      assert [] + p.parts[..k] == p.parts[..k];
    }
    PushProper(p.rooted, p.parts[..k], p.parts[k..]);
    forall i | 0 <= i < |p.parts|
      ensures Slashless(p.parts[i])
    {
      if i >= k {
        assert ProperName(p.parts[k..][i - k]);
      }
    }
  }

  /** Printing a normal form and reading it back gives the same path. */
  lemma ParseShow(p: Path)
    requires Normal(p)
    ensures Parse(Show(p)) == p
  {
    PushNormal(p);
    if p.parts == [] {
      if p.rooted {
        assert Show(p) == "/" && Split("/") == ["", ""];
      } else {
        SplitOne(".");
      }
    } else {
      SplitJoined(p.parts);
      if p.rooted {
        assert Show(p)[1..] == JoinSlash(p.parts);
        assert Split(Show(p)) == [""] + p.parts;
        assert ([""] + p.parts)[1..] == p.parts;
      } else {
        NormalShowsRelative(p);
      }
    }
  }

  lemma NormalShowsRelative(p: Path)
    requires Normal(p) && !p.rooted && p.parts != []
    ensures Show(p) != "" && Show(p)[0] != '/'
  {
    var k: nat :| Leading(p, k);
    if k == 0 {
      assert ProperName(p.parts[k..][0]);
    }
    var c := p.parts[0];
    assert c != "" && c[0] in c && Slashless(c);
    assert Show(p)[0] == c[0];
  }

  lemma CleanIdempotent(s: string)
    ensures Clean(Clean(s)) == Clean(s)
  {
    ParseIsNormal(s);
    ParseShow(Parse(s));
  }

  /** Joining continues the stack of the first element with the components of
      the second. */
  lemma ParseJoin(a: string, b: string)
    requires a != ""
    ensures Parse(Join(a, b)) == Path(Parse(a).rooted, PushAll(Parse(a).rooted, Parse(a).parts, Split(b)))
  {
    var s := a + "/" + b;
    ParseIsNormal(s);
    ParseShow(Parse(s));
    SplitConcat(a, b);
    assert s[0] == a[0];
    PushAllAppend(Parse(a).rooted, [], Split(a), Split(b));
  }

  lemma JoinName(a: string, name: string)
    requires a != "" && ProperName(name)
    ensures Parse(Join(a, name)) == Path(Parse(a).rooted, Parse(a).parts + [name])
  {
    ParseJoin(a, name);
    SplitOne(name);
    PushProper(Parse(a).rooted, Parse(a).parts, [name]);
  }

  /** Whether cleaning leaves the path by its top. */
  predicate Escapes(p: Path) { p.parts != [] && p.parts[0] == ".." }

  lemma NormalWithoutDots(p: Path)
    requires Normal(p) && !Escapes(p)
    ensures ProperNames(p.parts)
  {
    var k: nat :| Leading(p, k);
    assert k == 0;
    assert p.parts[0..] == p.parts;
  }

  /** Joining a cleaned path that does not escape puts its components behind
      those of the first element. */
  lemma JoinCleaned(a: string, b: string)
    requires a != "" && !Escapes(Parse(b))
    ensures Parse(Join(a, Clean(b))) == Path(Parse(a).rooted, Parse(a).parts + Parse(b).parts)
  {
    var q := Parse(b);
    ParseIsNormal(b);
    NormalWithoutDots(q);
    ParseJoin(a, Clean(b));
    if q.parts == [] {
      assert PushAll(Parse(a).rooted, Parse(a).parts, Split(Show(q))) == Parse(a).parts by {
        if q.rooted {
          assert Split("/") == ["", ""];
        } else {
          SplitOne(".");
        }
      }
    } else {
      ShowSplit(q);
      PushProper(Parse(a).rooted, Parse(a).parts, q.parts);
    }
  }

  lemma ShowSplit(q: Path)
    requires ProperNames(q.parts) && q.parts != []
    ensures Split(Show(q)) == if q.rooted then [""] + q.parts else q.parts
  {
    assert AllSlashless(q.parts) by {
      forall i | 0 <= i < |q.parts| ensures Slashless(q.parts[i]) {
        assert ProperName(q.parts[i]);
      }
    }
    SplitJoined(q.parts);
    if q.rooted {
      assert Show(q)[1..] == JoinSlash(q.parts);
    }
  }

  // ---------- Dir, Base, Ext ----------

  /** The position behind the last slash, or 0. */
  function AfterLastSlash(s: string): (n: nat)
    ensures n <= |s|
    ensures Slashless(s[n..])
    ensures n > 0 ==> s[n - 1] == '/'
    ensures n == 0 ==> Slashless(s)
  {
    if s == "" then 0
    else if s[|s| - 1] == '/' then |s|
    else
      var n := AfterLastSlash(s[..|s| - 1]);
      assert s[n..] == s[..|s| - 1][n..] + [s[|s| - 1]];
      assert n == 0 ==> s == s[n..];
      n
  }

  function Dir(s: string): string { Clean(s[..AfterLastSlash(s)]) }

  function TrimSlashes(s: string): (r: string)
    ensures r == "" || r[|r| - 1] != '/'
    ensures r <= s
  {
    if s != "" && s[|s| - 1] == '/' then TrimSlashes(s[..|s| - 1]) else s
  }

  function Base(s: string): string {
    if s == "" then "."
    else
      var t := TrimSlashes(s);
      if t == "" then "/" else t[AfterLastSlash(t)..]
  }

  /** The suffix from the last dot of the last component. */
  function Ext(s: string): (e: string)
    ensures |e| <= |s| && s[|s| - |e|..] == e
    ensures Slashless(e)
  {
    if s == "" || s[|s| - 1] == '/' then ""
    else if s[|s| - 1] == '.' then "."
    else
      var e := Ext(s[..|s| - 1]);
      if e == "" then "" else e + [s[|s| - 1]]
  }
}
