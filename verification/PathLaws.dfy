/** What cleaning does to a path's text (`filepath.Clean`): the laws by which
    components cancel, and an independent reading from right to left. */
module PathLaws {
  import opened Paths
  import opened Archive

  // ---------- The laws ----------

  lemma ParseParts(a: string, b: string)
    ensures Parse(a + "/" + b).rooted == (a == "" || a[0] == '/')
    ensures var rooted := a == "" || a[0] == '/';
            Parse(a + "/" + b).parts == PushAll(rooted, PushAll(rooted, [], Split(a)), Split(b))
  {
    var s := a + "/" + b;
    assert s != "" && (a == "" ==> s[0] == '/') && (a != "" ==> s[0] == a[0]);
    SplitConcat(a, b);
    PushAllAppend(Parse(s).rooted, [], Split(a), Split(b));
  }

  lemma PushTwo(rooted: bool, stack: seq<string>, cs: seq<string>, ds: seq<string>)
    ensures PushAll(rooted, stack, cs + ds) == PushAll(rooted, PushAll(rooted, stack, cs), ds)
  {
    PushAllAppend(rooted, stack, cs, ds);
  }

  lemma SplitNameUp(c: string, b: string)
    requires ProperName(c)
    ensures c + "/../" + b == c + "/" + (".." + "/" + b)
    ensures Split(c + "/../" + b) == [c, ".."] + Split(b)
  {
    hide Split;
    assert c + "/../" + b == c + "/" + (".." + "/" + b);
    SplitConcat(c, ".." + "/" + b);
    SplitConcat("..", b);
    SplitOne(c);
    SplitOne("..");
    assert [c] + ([".."] + Split(b)) == [c, ".."] + Split(b);
  }

  /** A name and the `..` behind it cancel, anywhere in a path. */
  lemma NameCancels(a: string, c: string, b: string)
    requires ProperName(c)
    ensures Clean(a + "/" + c + "/../" + b) == Clean(a + "/" + b)
  {
    hide Push, Show, Split;
    SplitNameUp(c, b);
    assert a + "/" + c + "/../" + b == a + "/" + (c + "/../" + b);
    ParseParts(a, c + "/../" + b);
    ParseParts(a, b);
    var rooted := a == "" || a[0] == '/';
    var stack := PushAll(rooted, [], Split(a));
    PushAllAppend(rooted, stack, [c, ".."], Split(b));
    NameThenUp(rooted, stack, c);
  }

  lemma NameThenUp(rooted: bool, stack: seq<string>, c: string)
    requires c != "" && c != "." && c != ".."
    ensures PushAll(rooted, stack, [c, ".."]) == stack
  {
    assert PushAll(rooted, stack, [c, ".."]) == PushAll(rooted, Push(rooted, stack, c), [".."]);
    var one := stack + [c];
    assert PushAll(rooted, one, [".."]) == PushAll(rooted, Push(rooted, one, ".."), []);
    assert one[..|one| - 1] == stack;
  }

  /** The same at the front of a relative path. */
  lemma LeadingNameCancels(c: string, b: string)
    requires ProperName(c) && b != "" && b[0] != '/'
    ensures Clean(c + "/../" + b) == Clean(b)
  {
    hide Push, Show, Split;
    SplitNameUp(c, b);
    PushAllAppend(false, [], [c, ".."], Split(b));
    NameThenUp(false, [], c);
    assert c[0] in c;
  }

  /** Empty and `.` components mean nothing. */
  lemma EmptyMeansNothing(a: string, b: string)
    ensures Clean(a + "//" + b) == Clean(a + "/" + b)
    ensures Clean(a + "/./" + b) == Clean(a + "/" + b)
    ensures a != "" ==> Clean(a + "/") == Clean(a) && Clean(a + "/.") == Clean(a)
    ensures b != "" && b[0] != '/' ==> Clean("./" + b) == Clean(b)
  {
    hide Push, Show;
    SplitConcat("", b);
    SplitConcat(".", b);
    SplitOne(".");
    ParseParts(a, b);
    ParseParts(a, "" + "/" + b);
    ParseParts(a, "." + "/" + b);
    ParseParts(a, "");
    ParseParts(a, ".");
    assert a + "//" + b == a + "/" + ("" + "/" + b);
    assert a + "/./" + b == a + "/" + ("." + "/" + b);
    assert a + "/" + "" == a + "/" && a + "/" + "." == a + "/.";
    var rooted := a == "" || a[0] == '/';
    var stack := PushAll(rooted, [], Split(a));
    NothingPushed(rooted, stack, Split(b));
    NothingPushed(rooted, stack, []);
    NothingPushed(false, [], Split(b));
    assert [""] + [] == [""] && ["."] + [] == ["."];
    assert "./" + b == "." + "/" + b;
  }

  /** Joining puts a slash between two elements and cleans; an empty element does
      not count, and nothing joined with nothing is nothing. */
  lemma JoinIsClean(a: string, b: string)
    ensures Join(a, b) == if a == "" && b == "" then "" else if a == "" then Clean(b)
                          else if b == "" then Clean(a) else Clean(a + "/" + b)
  {
    if a != "" && b == "" {
      EmptyMeansNothing(a, b);
      assert a + "/" + b == a + "/";
    }
  }

  lemma NothingPushed(rooted: bool, stack: seq<string>, cs: seq<string>)
    ensures PushAll(rooted, stack, [""] + cs) == PushAll(rooted, stack, cs)
    ensures PushAll(rooted, stack, ["."] + cs) == PushAll(rooted, stack, cs)
  {
    assert ([""] + cs)[1..] == cs && (["."] + cs)[1..] == cs;
  }

  /** Above the root there is nothing. */
  lemma RootHasNoParent(b: string)
    ensures Clean("/../" + b) == Clean("/" + b)
  {
    hide Push, Show;
    assert "/../" + b == "" + "/" + (".." + "/" + b);
    assert "/" + b == "" + "/" + b;
    SplitConcat("..", b);
    SplitOne("..");
    ParseParts("", ".." + "/" + b);
    ParseParts("", b);
    TopStays(Split(b));
  }

  lemma TopStays(cs: seq<string>)
    ensures PushAll(true, PushAll(true, [], [""]), [".."] + cs) == PushAll(true, PushAll(true, [], [""]), cs)
  {
    assert PushAll(true, [], [""]) == PushAll(true, Push(true, [], ""), []) == [];
    assert ([".."] + cs)[1..] == cs;
  }

  // ---------- From right to left ----------

  datatype Reading = Reading(ups: nat, names: seq<string>)

  /** Reading the components from the last one on: a `..` takes away the next
      name in front of it; what is left over climbs out. `ups` are those that
      wait for a name. */
  function FromRight(cs: seq<string>, ups: nat): Reading
    decreases |cs|
  {
    if cs == [] then Reading(ups, [])
    else
      var before, c := cs[..|cs| - 1], cs[|cs| - 1];
      if c == "" || c == "." then FromRight(before, ups)
      else if c == ".." then FromRight(before, ups + 1)
      else if ups > 0 then FromRight(before, ups - 1)
      else
        var r := FromRight(before, 0);
        r.(names := r.names + [c])
  }

  function Ups(n: nat): (cs: seq<string>)
    ensures |cs| == n && forall i :: 0 <= i < n ==> cs[i] == ".."
  {
    seq(n, _ => "..")
  }

  lemma {:induction false} RightIsLeft(rooted: bool, cs: seq<string>, ups: nat)
    ensures PushAll(rooted, [], cs + Ups(ups)) ==
            (if rooted then [] else Ups(FromRight(cs, ups).ups)) + FromRight(cs, ups).names
    decreases |cs|
  {
    if cs == [] {
      assert cs + Ups(ups) == Ups(ups);
      OnlyUps(rooted, ups);
    } else {
      var before, c := cs[..|cs| - 1], cs[|cs| - 1];
      assert cs + Ups(ups) == before + ([c] + Ups(ups));
      PushAllAppend(rooted, [], before, [c] + Ups(ups));
      var stack := PushAll(rooted, [], before);
      hide Push, PushAll;
      if c == "" || c == "." {
        NothingPushed(rooted, stack, Ups(ups));
        PushAllAppend(rooted, [], before, Ups(ups));
        RightIsLeft(rooted, before, ups);
      } else if c == ".." {
        assert [c] + Ups(ups) == Ups(ups + 1);
        PushAllAppend(rooted, [], before, Ups(ups + 1));
        RightIsLeft(rooted, before, ups + 1);
      } else if ups > 0 {
        assert [c] + Ups(ups) == [c, ".."] + Ups(ups - 1);
        PushAllAppend(rooted, stack, [c, ".."], Ups(ups - 1));
        NameThenUp(rooted, stack, c);
        PushAllAppend(rooted, [], before, Ups(ups - 1));
        RightIsLeft(rooted, before, ups - 1);
      } else {
        assert [c] + Ups(0) == [c] && before + Ups(0) == before;
        OneName(rooted, stack, c);
        RightIsLeft(rooted, before, 0);
      }
    }
  }

  lemma OneName(rooted: bool, stack: seq<string>, c: string)
    requires c != "" && c != "." && c != ".."
    ensures PushAll(rooted, stack, [c]) == stack + [c]
  {
    assert PushAll(rooted, stack, [c]) == PushAll(rooted, stack + [c], []);
  }

  lemma {:induction false} OnlyUps(rooted: bool, n: nat)
    ensures PushAll(rooted, [], Ups(n)) == if rooted then [] else Ups(n)
  {
    if rooted {
      if n > 0 {
        assert Ups(n)[1..] == Ups(n - 1);
        OnlyUps(rooted, n - 1);
      }
    } else {
      PushDots([], Ups(n));
      assert [] + Ups(n) == Ups(n);
    }
  }

  /** Cleaning, exactly: the names no later `..` takes away, behind those `..`
      that found none, unless the path is rooted. */
  lemma CleanFromRight(s: string)
    ensures var rooted, r := s != "" && s[0] == '/', FromRight(Split(s), 0);
            Parse(s) == Path(rooted, (if rooted then [] else Ups(r.ups)) + r.names)
  {
    RightIsLeft(s != "" && s[0] == '/', Split(s), 0);
    assert Split(s) + Ups(0) == Split(s);
  }

  // ---------- Counting ----------

  /** How far a list of components climbs: `..` less names. */
  function Climb(cs: seq<string>): int
    decreases |cs|
  {
    if cs == [] then 0
    else
      var c := cs[|cs| - 1];
      Climb(cs[..|cs| - 1]) + if c == "" || c == "." then 0 else if c == ".." then 1 else -1
  }

  ghost predicate ClimbsOut(cs: seq<string>) { exists j :: 0 <= j <= |cs| && Climb(cs[..j]) > 0 }

  lemma {:induction false} ClimbExactly(cs: seq<string>, ups: nat)
    ensures FromRight(cs, ups).ups > 0 <==> ClimbsOut(cs) || Climb(cs) + ups > 0
    decreases |cs|
  {
    if cs == [] {
      assert Climb(cs[..0]) == 0;
    } else {
      var n := |cs| - 1;
      var before, c := cs[..n], cs[n];
      assert forall j :: 0 <= j <= n ==> before[..j] == cs[..j];
      assert cs[..|cs|] == cs;
      assert ClimbsOut(cs) <==> ClimbsOut(before) || Climb(cs) > 0 by {
        if ClimbsOut(before) {
          var j :| 0 <= j <= n && Climb(before[..j]) > 0;
          assert Climb(cs[..j]) > 0;
        }
        if ClimbsOut(cs) {
          var j :| 0 <= j <= |cs| && Climb(cs[..j]) > 0;
          assert j <= n ==> Climb(before[..j]) > 0;
        }
        assert Climb(cs) > 0 ==> Climb(cs[..|cs|]) > 0;
      }
      hide ClimbsOut;
      if c == "" || c == "." {
        ClimbExactly(before, ups);
      } else if c == ".." {
        ClimbExactly(before, ups + 1);
      } else if ups > 0 {
        ClimbExactly(before, ups - 1);
      } else {
        ClimbExactly(before, 0);
        WholeClimbs(before);
      }
    }
  }

  lemma WholeClimbs(cs: seq<string>)
    ensures Climb(cs) > 0 ==> ClimbsOut(cs)
  {
    assert cs[..|cs|] == cs;
  }

  /** An entry is refused exactly if what follows the first separator is a
      relative path some prefix of which has more `..` than names. */
  lemma RefusedByCounting(root: string, entryName: string)
    ensures EntryTarget(root, entryName).Illegal? <==>
              var rest := AfterFirstSlash(ToSlashes(entryName));
              rest.Some? && rest.value != "" && rest.value[0] != '/' && ClimbsOut(Split(rest.value))
  {
    hide EntryTarget, ToSlashes, AfterFirstSlash, Split, Parse, FromRight, ClimbsOut;
    RefusedExactly(root, entryName);
    var rest := AfterFirstSlash(ToSlashes(entryName));
    if rest.Some? {
      var cs := Split(rest.value);
      CleanFromRight(rest.value);
      ClimbExactly(cs, 0);
      WholeClimbs(cs);
      NamesAreNoUps(cs, 0);
    }
  }

  lemma {:induction false} NamesAreNoUps(cs: seq<string>, ups: nat)
    ensures forall i :: 0 <= i < |FromRight(cs, ups).names| ==> FromRight(cs, ups).names[i] != ".."
    decreases |cs|
  {
    if cs != [] {
      var before, c := cs[..|cs| - 1], cs[|cs| - 1];
      if c == "" || c == "." {
        NamesAreNoUps(before, ups);
      } else if c == ".." {
        NamesAreNoUps(before, ups + 1);
      } else {
        NamesAreNoUps(before, if ups > 0 then ups - 1 else 0);
      }
    }
  }

  // ---------- The text of a clean path ----------

  /** What stands before the last component of a clean path below `p`. */
  function Front(p: Path): string {
    if p.parts == [] then (if p.rooted then "/" else "") else Show(p) + "/"
  }

  lemma {:induction false} JoinedSnoc(cs: seq<string>, name: string)
    requires cs != []
    ensures JoinSlash(cs + [name]) == JoinSlash(cs) + "/" + name
  {
    if |cs| == 1 {
      assert cs + [name] == [cs[0], name] && [cs[0], name][1..] == [name];
    } else {
      assert (cs + [name])[1..] == cs[1..] + [name] && (cs + [name])[0] == cs[0];
      JoinedSnoc(cs[1..], name);
      var rest := JoinSlash(cs[1..]);
      assert cs[0] + "/" + (rest + "/" + name) == (cs[0] + "/" + rest) + "/" + name;
    }
  }

  lemma ShowBehind(p: Path, name: string)
    ensures Show(Path(p.rooted, p.parts + [name])) == Front(p) + name
  {
    if p.parts == [] {
      assert p.parts + [name] == [name];
    } else {
      JoinedSnoc(p.parts, name);
      hide JoinSlash;
      var joined := JoinSlash(p.parts);
      assert p.rooted ==> "/" + (joined + "/" + name) == ("/" + joined) + "/" + name;
    }
  }

  lemma FrontParses(p: Path)
    requires Normal(p)
    ensures Parse(Front(p)) == p
    ensures Front(p) == "" || Front(p)[|Front(p)| - 1] == '/'
  {
    if p.parts == [] {
      assert Split("/") == ["", ""] && Split("") == [""];
    } else {
      ParseShow(p);
      ShowNotEmpty(p);
      ParseParts(Show(p), "");
      NothingPushed(p.rooted, p.parts, []);
      assert Show(p) + "/" + "" == Show(p) + "/" && [""] + [] == [""];
    }
  }

  /** Texts in which nothing can be taken away are left as they are. */
  lemma CleanTexts(n: nat, names: seq<string>)
    requires ProperNames(names)
    ensures names != [] ==> Clean("/" + JoinSlash(names)) == "/" + JoinSlash(names)
    ensures Ups(n) + names != [] ==> Clean(JoinSlash(Ups(n) + names)) == JoinSlash(Ups(n) + names)
    ensures Clean("") == "." && Clean("/") == "/"
  {
    var rooted, free := Path(true, names), Path(false, Ups(n) + names);
    assert names[0..] == names;
    assert Leading(rooted, 0);
    assert (Ups(n) + names)[n..] == names;
    assert Leading(free, n);
    ParseShow(rooted);
    ParseShow(free);
    hide PushAll, JoinSlash;
    EmptyTexts();
  }

  lemma EmptyTexts()
    ensures Clean("") == "." && Clean("/") == "/"
  {
    assert Split("/") == ["", ""] && Split("") == [""];
  }
}
