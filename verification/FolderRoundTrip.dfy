/** Restoring a packed folder gives the folder back. */
module FolderRoundTrip {
  import opened Bytes
  import opened Paths
  import opened FolderTree
  import opened Archive

  // ---------- Names of entries ----------

  predicate Plain(c: string) { '\\' !in c }

  predicate AllPlain(cs: seq<string>) { forall i :: 0 <= i < |cs| ==> Plain(cs[i]) }

  lemma PlainIsItsOwnSlashForm(s: string)
    requires Plain(s)
    ensures ToSlashes(s) == s
  {
    assert forall i :: 0 <= i < |s| ==> s[i] in s;
  }

  lemma {:induction false} JoinedIsPlain(cs: seq<string>)
    requires AllPlain(cs)
    ensures Plain(JoinSlash(cs))
  {
    if cs != [] {
      assert Plain(cs[0]);
      assert forall i :: 0 <= i < |cs| - 1 ==> cs[1..][i] == cs[i + 1];
      JoinedIsPlain(cs[1..]);
    }
  }

  lemma {:induction false} CutAtFirstSlash(head: string, tail: string)
    requires Slashless(head)
    ensures AfterFirstSlash(head + "/" + tail) == Some(tail)
  {
    var s := head + "/" + tail;
    if head == "" {
      assert s == "/" + tail && s[1..] == tail;
    } else {
      assert head[0] in head;
      assert s[1..] == head[1..] + "/" + tail;
      assert forall c :: c in head[1..] ==> c in head;
      CutAtFirstSlash(head[1..], tail);
    }
  }

  lemma {:induction false} NothingToCut(s: string)
    requires Slashless(s)
    ensures AfterFirstSlash(s) == None
  {
    if s != "" {
      assert s[0] in s;
      assert forall c :: c in s[1..] ==> c in s;
      NothingToCut(s[1..]);
    }
  }

  lemma {:induction false} JoinedEndsInName(cs: seq<string>)
    requires cs != [] && ProperNames(cs)
    ensures JoinSlash(cs) != "" && JoinSlash(cs)[0] != '/' && JoinSlash(cs)[|JoinSlash(cs)| - 1] != '/'
  {
    assert ProperName(cs[0]) && cs[0][0] in cs[0] && cs[0][|cs[0]| - 1] in cs[0];
    if |cs| > 1 {
      assert forall i :: 0 <= i < |cs| - 1 ==> cs[1..][i] == cs[i + 1];
      JoinedEndsInName(cs[1..]);
    }
  }

  function Slash(dir: bool): string { if dir then "/" else "" }

  /** A joined list of names, with or without a slash behind it, parses to
      these names. */
  lemma ParseJoined(cs: seq<string>, dir: bool)
    requires cs != [] && ProperNames(cs)
    ensures Parse(JoinSlash(cs) + Slash(dir)) == Path(false, cs)
  {
    var s := JoinSlash(cs);
    JoinedEndsInName(cs);
    forall i | 0 <= i < |cs|
      ensures Slashless(cs[i])
    {
      assert ProperName(cs[i]);
    }
    SplitJoined(cs);
    PushProper(false, [], cs);
    assert [] + cs == cs;
    if dir {
      assert s + "/" == s + "/" + "";
      SplitConcat(s, "");
      PushAllAppend(false, [], cs, [""]);
      PushLast(false, cs, "");
    } else {
      assert s + "" == s;
    }
  }

  lemma LastPartOfJoin(head: string, last: string)
    requires Slashless(last)
    ensures LastPart(head + "/" + last) == last
  {
    var s := head + "/" + last;
    assert s[|head|] == '/';
    assert AfterLastSlash(s) == |head| + 1;
    assert s[|head| + 1..] == last;
  }

  lemma {:induction false} JoinedSnoc(cs: seq<string>, last: string)
    requires cs != []
    ensures JoinSlash(cs + [last]) == JoinSlash(cs) + "/" + last
  {
    assert (cs + [last])[1..] == cs[1..] + [last];
    if |cs| == 1 {
      assert JoinSlash([last]) == last;
    } else {
      JoinedSnoc(cs[1..], last);
    }
  }

  /** The last part of a printed path is its last component. */
  lemma LastPartOfShow(p: Path)
    requires Normal(p) && p.parts != [] && ProperName(p.parts[|p.parts| - 1])
    ensures LastPart(Show(p)) == p.parts[|p.parts| - 1]
  {
    var last := p.parts[|p.parts| - 1];
    var before := p.parts[..|p.parts| - 1];
    assert p.parts == before + [last];
    if before == [] {
      if p.rooted {
        assert Show(p) == "" + "/" + last;
        LastPartOfJoin("", last);
      } else {
        assert AfterLastSlash(last) == 0;
      }
    } else {
      JoinedSnoc(before, last);
      if p.rooted {
        assert Show(p) == ("/" + JoinSlash(before)) + "/" + last;
        LastPartOfJoin("/" + JoinSlash(before), last);
      } else {
        LastPartOfJoin(JoinSlash(before), last);
      }
    }
  }

  // ---------- Targets ----------

  /** A root whose last component is a name, as `TargetRoot` gives for a
      sanitised target name. */
  ghost predicate NamedRoot(root: string) {
    && root != "" && Parse(root).parts != []
    && ProperName(Parse(root).parts[|Parse(root).parts| - 1])
  }

  function Under(root: string, at: seq<string>): Path {
    Path(Parse(root).rooted, Parse(root).parts + at)
  }

  lemma TargetRootIsNamed(dest: string, targetName: string)
    requires ProperName(targetName)
    ensures NamedRoot(TargetRoot(dest, targetName))
  {
    ParseIsNormal(dest);
    ShowNotEmpty(Parse(dest));
    JoinName(Clean(dest), targetName);
    JoinNotEmpty(Clean(dest), targetName);
  }

  /** Entries land strictly below such a root or on it, and their directory is
      the path without its last component. */
  lemma TargetParent(root: string, entryName: string)
    requires NamedRoot(root) && EntryTarget(root, entryName).At?
    ensures Parse(EntryTarget(root, entryName).path).parts != []
    ensures Above(Parse(root), Parse(EntryTarget(root, entryName).path))
    ensures Parse(Dir(EntryTarget(root, entryName).path)) == Parent(Parse(EntryTarget(root, entryName).path))
  {
    TargetIsContained(root, entryName);
    var path := EntryTarget(root, entryName).path;
    var p := Parse(path);
    var n := |Parse(root).parts|;
    if |p.parts| > n {
      assert ProperName(p.parts[n..][|p.parts| - n - 1]);
    } else {
      assert p.parts == Parse(root).parts;
    }
    TargetIsShown(root, entryName);
    ParseIsNormal(path);
    LastPartOfShow(p);
    JoinNotEmpty(root, Clean(AfterFirstSlash(ToSlashes(entryName)).value));
    DirIsAbove(path);
    assert p.parts == Parse(Dir(path)).parts + [p.parts[|p.parts| - 1]];
  }

  lemma TargetIsShown(root: string, entryName: string)
    requires root != "" && EntryTarget(root, entryName).At?
    ensures Show(Parse(EntryTarget(root, entryName).path)) == EntryTarget(root, entryName).path
  {
    CleanIdempotent(root + "/" + Clean(AfterFirstSlash(ToSlashes(entryName)).value));
  }

  /** Packing and then naming the target: below the folder's own name every
      entry goes back to where it was. */
  lemma GoodEntry(root: string, dir: string, f: Found)
    requires NamedRoot(root) && Packable(dir) && ProperName(LastPart(dir)) && Plain(LastPart(dir))
    requires ProperNames(f.at) && AllPlain(f.at) && (f.at == [] ==> f.node.DirNode?)
    ensures var target := EntryTarget(root, EntryName(dir, f));
            if f.at == [] then target == Skip
            else target.At? && target.dir == f.node.DirNode? && Parse(target.path) == Under(root, f.at)
  {
    hide Parse, Clean, Join, ToSlashes, AfterFirstSlash, Dir, LastPart, WalkPath;
    var own, isDir := LastPart(dir), f.node.DirNode?;
    var name := EntryName(dir, f);
    WalkStaysBelow(dir, f.at);
    assert OwnName(dir) == [own];
    assert AllPlain([own] + f.at);
    JoinedIsPlain([own] + f.at);
    assert name == JoinSlash([own] + f.at) + Slash(isDir);
    PlainIsItsOwnSlashForm(name);
    if f.at == [] {
      assert [own] + f.at == [own];
      assert name == own + "/" + "";
      CutAtFirstSlash(own, "");
    } else {
      assert ([own] + f.at)[1..] == f.at;
      var rel := JoinSlash(f.at) + Slash(isDir);
      assert name == own + "/" + rel;
      CutAtFirstSlash(own, rel);
      TargetOfNames(root, name, f.at, isDir);
    }
  }

  lemma TargetOfNames(root: string, name: string, at: seq<string>, isDir: bool)
    requires NamedRoot(root) && at != [] && ProperNames(at)
    requires ToSlashes(name) == name && AfterFirstSlash(name) == Some(JoinSlash(at) + Slash(isDir))
    requires name != "" && exists head :: name == head + (JoinSlash(at) + Slash(isDir))
    ensures var target := EntryTarget(root, name);
            target.At? && target.dir == isDir && Parse(target.path) == Under(root, at)
  {
    hide Parse, Clean, Join, JoinSlash, ToSlashes, AfterFirstSlash;
    var rel := JoinSlash(at) + Slash(isDir);
    ParseJoined(at, isDir);
    JoinedEndsInName(at);
    assert ProperName(at[0]);
    EscapeTest(rel);
    JoinCleaned(root, rel);
    assert name[|name| - 1] == rel[|rel| - 1];
  }

  /** If the folder's path does not end in a name, the first component of
      every relative path is lost. */
  lemma BadEntry(root: string, dir: string, f: Found)
    requires NamedRoot(root) && Packable(dir) && !ProperName(LastPart(dir))
    requires ProperNames(f.at) && AllPlain(f.at) && (f.at == [] ==> f.node.DirNode?)
    ensures var target := EntryTarget(root, EntryName(dir, f));
            if |f.at| <= 1 then target == Skip
            else target.At? && Parse(target.path) == Under(root, f.at[1..])
  {
    hide Parse, Clean, Join, ToSlashes, AfterFirstSlash, Dir, LastPart, WalkPath;
    var isDir := f.node.DirNode?;
    var name := EntryName(dir, f);
    WalkStaysBelow(dir, f.at);
    assert [] + f.at == f.at;
    if f.at == [] {
      assert name == "." + "/" + "";
      PlainIsItsOwnSlashForm(name);
      CutAtFirstSlash(".", "");
    } else {
      JoinedIsPlain(f.at);
      assert name == JoinSlash(f.at) + Slash(isDir);
      PlainIsItsOwnSlashForm(name);
      FirstNameIsLost(root, name, f.at, isDir);
    }
  }

  lemma FirstNameIsLost(root: string, name: string, at: seq<string>, isDir: bool)
    requires NamedRoot(root) && at != [] && ProperNames(at)
    requires ToSlashes(name) == name == JoinSlash(at) + Slash(isDir)
    ensures var target := EntryTarget(root, name);
            if |at| <= 1 then target == Skip
            else target.At? && Parse(target.path) == Under(root, at[1..])
  {
    hide Parse, Clean, Join, ToSlashes, AfterFirstSlash;
    var first := at[0];
    assert ProperName(first);
    if |at| == 1 {
      if isDir {
        assert name == first + "/" + "";
        CutAtFirstSlash(first, "");
      } else {
        assert name == first;
        NothingToCut(first);
      }
    } else {
      var rel := JoinSlash(at[1..]) + Slash(isDir);
      assert name == (first + "/") + rel;
      assert name == first + "/" + rel;
      CutAtFirstSlash(first, rel);
      assert forall i :: 0 <= i < |at| - 1 ==> at[1..][i] == at[i + 1];
      TargetOfNames(root, name, at[1..], isDir);
    }
  }

  // ---------- What extraction creates ----------

  /** Some entry's target lies at or below the path. */
  ghost predicate Touched(root: string, es: seq<Entry>, q: Path) {
    exists i :: 0 <= i < |es| && TouchedBy(root, es[i], q)
  }

  predicate TouchedBy(root: string, e: Entry, q: Path) {
    EntryTarget(root, e.name).At? && Above(q, Parse(EntryTarget(root, e.name).path))
  }

  lemma TouchedSnoc(root: string, es: seq<Entry>, q: Path)
    requires es != []
    ensures Touched(root, es, q) <==> Touched(root, es[..|es| - 1], q) || TouchedBy(root, es[|es| - 1], q)
  {
    hide TouchedBy;
    if Touched(root, es[..|es| - 1], q) {
      var i :| 0 <= i < |es| - 1 && TouchedBy(root, es[..|es| - 1][i], q);
      assert TouchedBy(root, es[i], q);
    }
    if Touched(root, es, q) {
      var i :| 0 <= i < |es| && TouchedBy(root, es[i], q);
      if i < |es| - 1 {
        assert TouchedBy(root, es[..|es| - 1][i], q);
      }
    }
  }

  /** One entry: what is neither at nor above its target stays, and what is
      new is at or above it. */
  lemma EntryCreates(fs: Files, root: string, e: Entry, q: Path)
    requires NamedRoot(root)
    ensures !TouchedBy(root, e, q) ==> (q in fs <==> q in ExtractEntry(fs, root, e).fs)
    ensures !TouchedBy(root, e, q) && q in fs ==> ExtractEntry(fs, root, e).fs[q] == fs[q]
  {
    hide EntryTarget, NamedRoot, MkdirAll, Dir, Parse;
    var target := EntryTarget(root, e.name);
    if target.At? {
      TargetParent(root, e.name);
      var p := Parse(target.path);
      var made := MkdirAll(fs, if target.dir then p else Parse(Dir(target.path)));
      if made.Some? {
        MkdirAllAdds(fs, if target.dir then p else Parent(p), q);
      }
    }
  }

  lemma {:induction false} ExtractionCreates(fs: Files, root: string, es: seq<Entry>, q: Path)
    requires NamedRoot(root) && q !in fs && q in ExtractAll(fs, root, es).fs
    ensures Touched(root, es, q)
    decreases |es|
  {
    hide ExtractEntry, NamedRoot, TouchedBy, Touched;
    if es != [] {
      var before := ExtractAll(fs, root, es[..|es| - 1]);
      TouchedSnoc(root, es, q);
      if q in before.fs {
        ExtractionCreates(fs, root, es[..|es| - 1], q);
      } else {
        EntryCreates(before.fs, root, es[|es| - 1], q);
      }
    }
  }

  // ---------- The invariant of a restoring extraction ----------

  /** Every path lies in a directory. */
  ghost predicate Closed(fs: Files) {
    forall q :: q in fs ==> q.parts != [] && IsDir(fs, Parent(q))
  }

  /** The target does not exist yet; the directory for it does. */
  ghost predicate Fresh(fs: Files, root: Path) {
    && root.parts != [] && Closed(fs) && IsDir(fs, Parent(root))
    && forall q :: q in fs ==> !Above(root, q)
  }

  function Rest(root: Path, q: Path): seq<string>
    requires Above(root, q)
  {
    q.parts[|root.parts|..]
  }

  /** Below the root there is exactly the touched part of the folder; nothing
      else has changed. */
  ghost predicate PartlyRestored(before: Files, fs: Files, root: string, t: Tree, es: seq<Entry>) {
    && Closed(fs)
    && forall q :: RestoredAt(before, fs, root, t, es, q)
  }

  ghost predicate RestoredAt(before: Files, fs: Files, root: string, t: Tree, es: seq<Entry>, q: Path) {
    if Above(Parse(root), q) && Touched(root, es, q) then
      q in fs && Lookup(t, Rest(Parse(root), q)) == Some(fs[q])
    else
      (q in fs <==> q in before) && (q in fs ==> fs[q] == before[q])
  }

  /** The entry is skipped or goes back to where the folder holds it. */
  ghost predicate Faithful(root: string, t: Tree, e: Entry) {
    var target := EntryTarget(root, e.name);
    && !target.Illegal?
    && (target.At? ==>
          && Above(Parse(root), Parse(target.path))
          && match Lookup(t, Rest(Parse(root), Parse(target.path)))
             case None => false
             case Some(DirNode) => target.dir
             case Some(FileNode(data)) => !target.dir && data == e.data)
  }

  lemma AncestorsExist(fs: Files, p: Path, q: Path)
    requires Closed(fs) && IsDir(fs, p) && Above(q, p)
    ensures IsDir(fs, q)
    decreases |p.parts|
  {
    if |q.parts| < |p.parts| {
      AncestorsExist(fs, Parent(p), q);
    } else {
      assert q == p;
    }
  }

  lemma {:induction false} MkdirAllSucceeds(fs: Files, p: Path)
    requires forall q :: q in fs && Above(q, p) ==> IsDir(fs, q)
    ensures MkdirAll(fs, p).Some?
    decreases |p.parts|
  {
    if p.parts != [] && p !in fs {
      MkdirAllSucceeds(fs, Parent(p));
    }
  }

  lemma {:induction false} MkdirAllKeepsClosed(fs: Files, p: Path)
    requires Closed(fs) && MkdirAll(fs, p).Some?
    ensures Closed(MkdirAll(fs, p).value)
    decreases |p.parts|
  {
    if p.parts != [] && p !in fs {
      MkdirAllKeepsClosed(fs, Parent(p));
      MkdirAllAdds(fs, Parent(p), Parent(p));
    }
  }

  lemma RestAbove(root: Path, q: Path, p: Path)
    requires Above(root, q) && Above(q, p)
    ensures Above(root, p) && Rest(root, q) <= Rest(root, p)
  {
    assert p.parts[..|q.parts|] == q.parts;
    assert Rest(root, p)[..|Rest(root, q)|] == Rest(root, q);
  }

  /** On the way to a directory the folder holds, everything present is a
      directory. */
  lemma WayIsClear(before: Files, fs: Files, root: string, t: Tree, es: seq<Entry>, p: Path, q: Path)
    requires Fresh(before, Parse(root)) && PartlyRestored(before, fs, root, t, es)
    requires Above(Parse(root), p) && Lookup(t, Rest(Parse(root), p)) == Some(DirNode)
    requires q in fs && Above(q, p)
    ensures IsDir(fs, q)
  {
    hide Touched, Lookup, Parse;
    var r := Parse(root);
    assert RestoredAt(before, fs, root, t, es, q);
    if Above(r, q) {
      RestAbove(r, q, p);
      if |q.parts| < |p.parts| {
        AncestorsAreDirs(t, Rest(r, p), |Rest(r, q)|);
        assert Rest(r, p)[..|Rest(r, q)|] == Rest(r, q);
      } else {
        assert q == p;
      }
    } else {
      assert q.parts <= Parent(r).parts by {
        assert q.parts == p.parts[..|q.parts|] && r.parts == p.parts[..|r.parts|];
      }
      AncestorsExist(before, Parent(r), q);
    }
  }

  /** An entry that belongs to the folder extends the restored part by itself
      and what lies above it. */
  lemma FaithfulEntryRestores(before: Files, fs: Files, root: string, t: Tree, es: seq<Entry>)
    requires es != [] && NamedRoot(root) && Fresh(before, Parse(root)) && t.Folder?
    requires PartlyRestored(before, fs, root, t, es[..|es| - 1]) && Faithful(root, t, es[|es| - 1])
    ensures ExtractEntry(fs, root, es[|es| - 1]).ok
    ensures PartlyRestored(before, ExtractEntry(fs, root, es[|es| - 1]).fs, root, t, es)
  {
    hide EntryTarget, NamedRoot, Dir, Parse, Touched, TouchedBy, RestoredAt, Lookup, Fresh;
    var e, done := es[|es| - 1], es[..|es| - 1];
    var target := EntryTarget(root, e.name);
    var after := ExtractEntry(fs, root, e);
    if target.At? {
      TargetParent(root, e.name);
      if target.dir {
        DirectoryRestores(before, fs, root, t, done, e);
      } else {
        FileRestores(before, fs, root, t, done, e);
      }
    }
    forall q | true
      ensures RestoredAt(before, after.fs, root, t, es, q)
    {
      PathRestores(before, fs, root, t, es, q);
    }
  }

  lemma DirectoryRestores(before: Files, fs: Files, root: string, t: Tree, done: seq<Entry>, e: Entry)
    requires NamedRoot(root) && Fresh(before, Parse(root)) && PartlyRestored(before, fs, root, t, done)
    requires Faithful(root, t, e) && EntryTarget(root, e.name).At? && EntryTarget(root, e.name).dir
    ensures ExtractEntry(fs, root, e).ok && Closed(ExtractEntry(fs, root, e).fs)
  {
    hide EntryTarget, NamedRoot, Dir, Parse, Touched, RestoredAt, Lookup, Fresh, PartlyRestored, MkdirAll, Closed;
    var p := Parse(EntryTarget(root, e.name).path);
    forall q | q in fs && Above(q, p)
      ensures IsDir(fs, q)
    {
      WayIsClear(before, fs, root, t, done, p, q);
    }
    MkdirAllSucceeds(fs, p);
    PartlyRestoredIsClosed(before, fs, root, t, done);
    MkdirAllKeepsClosed(fs, p);
  }

  lemma PartlyRestoredIsClosed(before: Files, fs: Files, root: string, t: Tree, es: seq<Entry>)
    requires PartlyRestored(before, fs, root, t, es)
    ensures Closed(fs)
  {
  }

  lemma FileRestores(before: Files, fs: Files, root: string, t: Tree, done: seq<Entry>, e: Entry)
    requires NamedRoot(root) && Fresh(before, Parse(root)) && PartlyRestored(before, fs, root, t, done)
    requires t.Folder? && Faithful(root, t, e) && EntryTarget(root, e.name).At? && !EntryTarget(root, e.name).dir
    ensures ExtractEntry(fs, root, e).ok && Closed(ExtractEntry(fs, root, e).fs)
  {
    hide EntryTarget, NamedRoot, Dir, Parse, Touched, Lookup, Fresh, MkdirAll, Closed;
    TargetParent(root, e.name);
    var r, p := Parse(root), Parse(EntryTarget(root, e.name).path);
    var at := Rest(r, p);
    FolderIsNoFile(t, at);
    AncestorsAreDirs(t, at, |at| - 1);
    assert Above(r, Parent(p)) && Rest(r, Parent(p)) == at[..|at| - 1];
    forall q | q in fs && Above(q, Parent(p))
      ensures IsDir(fs, q)
    {
      WayIsClear(before, fs, root, t, done, Parent(p), q);
    }
    MkdirAllSucceeds(fs, Parent(p));
    var made := MkdirAll(fs, Parent(p)).value;
    MkdirAllKeepsClosed(fs, Parent(p));
    MkdirAllAdds(fs, Parent(p), p);
    assert RestoredAt(before, fs, root, t, done, p);
    FreshHasNothing(before, r, p);
    assert !IsDir(made, p);
    WriteKeepsClosed(made, p, e.data);
  }

  lemma FolderIsNoFile(t: Tree, at: seq<string>)
    requires t.Folder? && Lookup(t, at).Some? && Lookup(t, at).value.FileNode?
    ensures at != []
  {
  }

  lemma FreshHasNothing(fs: Files, root: Path, q: Path)
    requires Fresh(fs, root) && Above(root, q)
    ensures q !in fs && q.parts != []
  {
  }

  lemma WriteKeepsClosed(fs: Files, p: Path, data: seq<byte>)
    requires Closed(fs) && p.parts != [] && !IsDir(fs, p) && IsDir(fs, Parent(p))
    ensures WriteFile(fs, p, data).Some? && Closed(WriteFile(fs, p, data).value)
  {
    var written := WriteFile(fs, p, data).value;
    forall q | q in written
      ensures q.parts != [] && IsDir(written, Parent(q))
    {
      assert Parent(q) != p || q !in fs;
    }
  }

  /** The effect of one faithful entry, path by path. */
  lemma PathRestores(before: Files, fs: Files, root: string, t: Tree, es: seq<Entry>, q: Path)
    requires es != [] && NamedRoot(root) && Fresh(before, Parse(root))
    requires PartlyRestored(before, fs, root, t, es[..|es| - 1]) && Faithful(root, t, es[|es| - 1])
    requires ExtractEntry(fs, root, es[|es| - 1]).ok && Closed(ExtractEntry(fs, root, es[|es| - 1]).fs)
    ensures RestoredAt(before, ExtractEntry(fs, root, es[|es| - 1]).fs, root, t, es, q)
  {
    hide EntryTarget, NamedRoot, Dir, Parse, Touched, Lookup, Fresh, MkdirAll, Closed, ExtractEntry;
    var e, done := es[|es| - 1], es[..|es| - 1];
    var after := ExtractEntry(fs, root, e).fs;
    TouchedSnoc(root, es, q);
    assert RestoredAt(before, fs, root, t, done, q);
    if TouchedBy(root, e, q) {
      TargetParent(root, e.name);
      var p := Parse(EntryTarget(root, e.name).path);
      if Above(Parse(root), q) {
        EntryReaches(before, fs, root, t, done, e, q);
      } else {
        AboveRootStays(before, fs, root, t, done, e, q);
      }
    } else {
      EntryCreates(fs, root, e, q);
    }
  }

  /** Above the root everything exists already. */
  lemma AboveRootStays(before: Files, fs: Files, root: string, t: Tree, done: seq<Entry>, e: Entry, q: Path)
    requires NamedRoot(root) && Fresh(before, Parse(root)) && PartlyRestored(before, fs, root, t, done)
    requires TouchedBy(root, e, q) && !Above(Parse(root), q)
    ensures q in fs <==> q in ExtractEntry(fs, root, e).fs
    ensures q in fs ==> ExtractEntry(fs, root, e).fs[q] == fs[q]
  {
    hide EntryTarget, NamedRoot, Dir, Parse, Touched, Lookup, MkdirAll, Closed;
    TargetParent(root, e.name);
    var r, target := Parse(root), EntryTarget(root, e.name);
    var p := Parse(target.path);
    assert q.parts == p.parts[..|q.parts|] && r.parts == p.parts[..|r.parts|];
    assert q.parts <= Parent(r).parts;
    AncestorsExist(before, Parent(r), q);
    assert RestoredAt(before, fs, root, t, done, q);
    var made := MkdirAll(fs, if target.dir then p else Parent(p));
    if made.Some? {
      MkdirAllAdds(fs, if target.dir then p else Parent(p), q);
      if q.parts == [] {
        EmptyIsNoKey(before, fs, root, t, done, if target.dir then p else Parent(p), q);
      }
    }
  }

  lemma EmptyIsNoKey(before: Files, fs: Files, root: string, t: Tree, done: seq<Entry>, p: Path, q: Path)
    requires Fresh(before, Parse(root)) && PartlyRestored(before, fs, root, t, done)
    requires MkdirAll(fs, p).Some? && q.parts == []
    ensures q !in fs && q !in MkdirAll(fs, p).value
  {
    hide Touched, Lookup, Parse;
    assert Closed(fs);
    MkdirAllKeepsClosed(fs, p);
  }

  /** Below the root the entry puts what the folder holds. */
  lemma EntryReaches(before: Files, fs: Files, root: string, t: Tree, done: seq<Entry>, e: Entry, q: Path)
    requires NamedRoot(root) && Fresh(before, Parse(root)) && PartlyRestored(before, fs, root, t, done)
    requires Faithful(root, t, e) && TouchedBy(root, e, q) && Above(Parse(root), q)
    requires ExtractEntry(fs, root, e).ok && Closed(ExtractEntry(fs, root, e).fs)
    ensures q in ExtractEntry(fs, root, e).fs
    ensures Lookup(t, Rest(Parse(root), q)) == Some(ExtractEntry(fs, root, e).fs[q])
  {
    hide *;
    TouchedIsAbove(root, e, q);
    TargetParent(root, e.name);
    var r, target, after := Parse(root), EntryTarget(root, e.name), ExtractEntry(fs, root, e).fs;
    var p := Parse(target.path);
    if |q.parts| == |p.parts| {
      EntryLands(before, fs, root, t, done, e);
    } else {
      WayIsHeld(root, t, e, q);
      EntryHasParent(fs, root, e);
      AncestorsExist(after, Parent(p), q);
      DirIsKey(after, q);
    }
  }

  lemma TouchedIsAbove(root: string, e: Entry, q: Path)
    requires TouchedBy(root, e, q)
    ensures EntryTarget(root, e.name).At? && Above(q, Parse(EntryTarget(root, e.name).path))
    ensures |q.parts| <= |Parse(EntryTarget(root, e.name).path).parts|
    ensures |q.parts| == |Parse(EntryTarget(root, e.name).path).parts| ==> q == Parse(EntryTarget(root, e.name).path)
    ensures |q.parts| < |Parse(EntryTarget(root, e.name).path).parts| ==>
            Above(q, Parent(Parse(EntryTarget(root, e.name).path)))
  {
    hide EntryTarget, Parse;
  }

  lemma DirIsKey(fs: Files, q: Path)
    requires Closed(fs) && IsDir(fs, q) && q.parts != []
    ensures q in fs && fs[q] == DirNode
  {
  }

  lemma WayIsHeld(root: string, t: Tree, e: Entry, q: Path)
    requires NamedRoot(root) && Faithful(root, t, e) && TouchedBy(root, e, q) && Above(Parse(root), q)
    requires EntryTarget(root, e.name).At? && |q.parts| < |Parse(EntryTarget(root, e.name).path).parts|
    ensures Lookup(t, Rest(Parse(root), q)) == Some(DirNode) && q.parts != []
  {
    hide EntryTarget, Parse, Lookup;
    var r, p := Parse(root), Parse(EntryTarget(root, e.name).path);
    RestAbove(r, q, p);
    AncestorsAreDirs(t, Rest(r, p), |Rest(r, q)|);
    assert Rest(r, p)[..|Rest(r, q)|] == Rest(r, q);
  }

  lemma EntryHasParent(fs: Files, root: string, e: Entry)
    requires NamedRoot(root) && EntryTarget(root, e.name).At? && ExtractEntry(fs, root, e).ok
    requires Closed(ExtractEntry(fs, root, e).fs)
    ensures Parse(EntryTarget(root, e.name).path).parts != []
    ensures IsDir(ExtractEntry(fs, root, e).fs, Parent(Parse(EntryTarget(root, e.name).path)))
  {
    hide EntryTarget, NamedRoot, Dir, Parse, MkdirAll;
    TargetParent(root, e.name);
    var target := EntryTarget(root, e.name);
    if target.dir {
      MkdirAllAdds(fs, Parse(target.path), Parse(target.path));
    }
  }

  lemma EntryLands(before: Files, fs: Files, root: string, t: Tree, done: seq<Entry>, e: Entry)
    requires NamedRoot(root) && Fresh(before, Parse(root)) && PartlyRestored(before, fs, root, t, done)
    requires Faithful(root, t, e) && EntryTarget(root, e.name).At? && ExtractEntry(fs, root, e).ok
    ensures var p := Parse(EntryTarget(root, e.name).path);
            && p in ExtractEntry(fs, root, e).fs
            && Lookup(t, Rest(Parse(root), p)) == Some(ExtractEntry(fs, root, e).fs[p])
  {
    hide EntryTarget, NamedRoot, Dir, Parse, Touched, Lookup, MkdirAll, Fresh, Closed;
    TargetParent(root, e.name);
    var target := EntryTarget(root, e.name);
    var p := Parse(target.path);
    FreshHasNothing(before, Parse(root), p);
    if target.dir {
      MkdirAllAdds(fs, p, p);
    }
  }

  /** Faithful entries, however many and in whatever order, restore what they
      touch. */
  lemma {:induction false} FaithfulEntriesRestore(before: Files, root: string, t: Tree, es: seq<Entry>)
    requires NamedRoot(root) && Fresh(before, Parse(root)) && t.Folder?
    requires forall i :: 0 <= i < |es| ==> Faithful(root, t, es[i])
    ensures ExtractAll(before, root, es).ok
    ensures PartlyRestored(before, ExtractAll(before, root, es).fs, root, t, es)
    decreases |es|
  {
    hide NamedRoot, Faithful, ExtractEntry, Lookup, Parse;
    if es != [] {
      FaithfulEntriesRestore(before, root, t, es[..|es| - 1]);
      FaithfulEntryRestores(before, ExtractAll(before, root, es[..|es| - 1]).fs, root, t, es);
    }
  }

  // ---------- The round trip ----------

  /** The folder, links left out, stands at the root; all else is as before. */
  ghost predicate Restored(before: Files, after: Files, root: Path, t: Tree) {
    forall q :: PathRestored(before, after, root, t, q)
  }

  ghost predicate PathRestored(before: Files, after: Files, root: Path, t: Tree, q: Path) {
    if Above(root, q) then
      match Lookup(t, Rest(root, q))
      case None => q !in after
      case Some(n) => q in after && after[q] == n
    else
      (q in after <==> q in before) && (q in after ==> after[q] == before[q])
  }

  /** At least one child is not a link. */
  ghost predicate HasContents(t: Tree) { exists name :: Lookup(t, [name]).Some? }

  ghost predicate NamesArePlain(t: Tree) { forall at :: Lookup(t, at).Some? ==> AllPlain(at) }

  /** The entries of a folder walked as such, in any order. */
  ghost predicate ArchiveOf(dir: string, t: Tree, es: seq<Entry>) {
    && Packable(dir) && Valid(t) && t.Folder? && AllProper(Walk(t, []))
    && multiset(es) == multiset(ToEntries(dir, Walk(t, [])))
  }

  lemma EntryHasOrigin(dir: string, t: Tree, es: seq<Entry>, i: nat) returns (f: Found)
    requires ArchiveOf(dir, t, es) && i < |es|
    ensures ProperNames(f.at) && es[i] == ToEntry(dir, f) && Lookup(t, f.at) == Some(f.node)
    ensures f.at == [] ==> f.node.DirNode?
  {
    hide ToEntry, Lookup, Valid, ProperNames;
    var w := Walk(t, []);
    assert es[i] in multiset(ToEntries(dir, w));
    var j :| 0 <= j < |w| && ToEntries(dir, w)[j] == es[i];
    f := w[j];
    WalkSound(t, [], f);
    assert f.at[0..] == f.at;
    FolderAtTop(t, f);
  }

  lemma FolderAtTop(t: Tree, f: Found)
    requires t.Folder? && Lookup(t, f.at) == Some(f.node)
    ensures f.at == [] ==> f.node.DirNode?
  {
  }

  lemma HeldIsPacked(dir: string, t: Tree, es: seq<Entry>, at: seq<string>) returns (i: nat)
    requires ArchiveOf(dir, t, es) && Lookup(t, at).Some?
    ensures ProperNames(at)
    ensures i < |es| && es[i] == ToEntry(dir, Found(at, Lookup(t, at).value))
  {
    hide ToEntry, Lookup, Valid, ProperNames;
    var w := Walk(t, []);
    WalkComplete(t, [], at);
    assert [] + at == at;
    var f := Found(at, Lookup(t, at).value);
    var j :| 0 <= j < |w| && w[j] == f;
    assert ToEntries(dir, w)[j] == ToEntry(dir, f);
    assert ToEntry(dir, f) in multiset(es);
    i :| 0 <= i < |es| && es[i] == ToEntry(dir, f);
  }

  lemma GoodEntryIsFaithful(root: string, dir: string, t: Tree, f: Found)
    requires NamedRoot(root) && Packable(dir) && ProperName(LastPart(dir)) && Plain(LastPart(dir))
    requires ProperNames(f.at) && AllPlain(f.at) && (f.at == [] ==> f.node.DirNode?) && Lookup(t, f.at) == Some(f.node)
    ensures Faithful(root, t, ToEntry(dir, f))
  {
    hide EntryTarget, NamedRoot, LastPart, EntryName, Parse, Lookup;
    GoodEntry(root, dir, f);
    assert Rest(Parse(root), Under(root, f.at)) == f.at;
  }

  /** Whenever the path ends in a name, the folder is not empty and no name in
      it contains a backslash, it comes back, whatever the entry order. */
  lemma RoundTripWorks(before: Files, dir: string, t: Tree, es: seq<Entry>, root: string)
    requires ArchiveOf(dir, t, es) && NamedRoot(root) && Fresh(before, Parse(root))
    requires ProperName(LastPart(dir)) && Plain(LastPart(dir)) && HasContents(t) && NamesArePlain(t)
    ensures ExtractAll(before, root, es).ok
    ensures Restored(before, ExtractAll(before, root, es).fs, Parse(root), t)
  {
    hide Touched, Fresh, ExtractAll, Parse, LastPart, ProperName, Plain, ArchiveOf;
    ArchiveIsOfFolder(dir, t, es);
    forall i | 0 <= i < |es|
      ensures Faithful(root, t, es[i])
    {
      var f := EntryHasOrigin(dir, t, es, i);
      GoodEntryIsFaithful(root, dir, t, f);
    }
    FaithfulEntriesRestore(before, root, t, es);
    var after := ExtractAll(before, root, es).fs;
    forall q | true
      ensures PathRestored(before, after, Parse(root), t, q)
    {
      assert RestoredAt(before, after, root, t, es, q);
      if Above(Parse(root), q) {
        FreshHasNothing(before, Parse(root), q);
        if Lookup(t, Rest(Parse(root), q)).Some? {
          HeldIsTouched(dir, t, es, root, q);
        }
      }
    }
  }

  lemma ArchiveIsOfFolder(dir: string, t: Tree, es: seq<Entry>)
    requires ArchiveOf(dir, t, es)
    ensures t.Folder? && Packable(dir) && Lookup(t, []) == Some(DirNode)
  {
  }

  lemma HeldIsTouched(dir: string, t: Tree, es: seq<Entry>, root: string, q: Path)
    requires ArchiveOf(dir, t, es) && NamedRoot(root)
    requires ProperName(LastPart(dir)) && Plain(LastPart(dir)) && HasContents(t) && NamesArePlain(t)
    requires Above(Parse(root), q) && Lookup(t, Rest(Parse(root), q)).Some?
    ensures Touched(root, es, q)
  {
    hide EntryTarget, NamedRoot, LastPart, EntryName, Parse, Lookup, ArchiveOf, ProperName;
    ArchiveIsOfFolder(dir, t, es);
    var at := Rest(Parse(root), q);
    if at == [] {
      var name :| Lookup(t, [name]).Some?;
      at := [name];
    }
    var i := HeldIsPacked(dir, t, es, at);
    GoodEntry(root, dir, Found(at, Lookup(t, at).value));
    assert Above(q, Under(root, at));
    assert TouchedBy(root, es[i], q);
  }

  /** What is restored must have been created, hence touched. */
  lemma RestoredIsTouched(before: Files, t: Tree, es: seq<Entry>, root: string, at: seq<string>)
    requires NamedRoot(root) && Fresh(before, Parse(root)) && Lookup(t, at).Some?
    requires Restored(before, ExtractAll(before, root, es).fs, Parse(root), t)
    ensures Touched(root, es, Under(root, at))
  {
    hide ExtractAll, Touched, Lookup, Parse, NamedRoot;
    var q := Under(root, at);
    assert Rest(Parse(root), q) == at;
    assert PathRestored(before, ExtractAll(before, root, es).fs, Parse(root), t, q);
    FreshHasNothing(before, Parse(root), q);
    ExtractionCreates(before, root, es, q);
  }

  /** An empty folder is not restored: nothing makes its root. */
  lemma EmptyFolderIsLost(before: Files, dir: string, t: Tree, es: seq<Entry>, root: string)
    requires ArchiveOf(dir, t, es) && NamedRoot(root) && Fresh(before, Parse(root)) && Plain(LastPart(dir))
    requires Restored(before, ExtractAll(before, root, es).fs, Parse(root), t)
    ensures HasContents(t)
  {
    hide ExtractAll, EntryTarget, Lookup, Parse, NamedRoot, ArchiveOf, LastPart, EntryName, ProperName, Restored, Fresh;
    ArchiveIsOfFolder(dir, t, es);
    RestoredIsTouched(before, t, es, root, []);
    var i :| 0 <= i < |es| && TouchedBy(root, es[i], Under(root, []));
    var f := EntryHasOrigin(dir, t, es, i);
    if f.at == [] {
      if ProperName(LastPart(dir)) {
        GoodEntry(root, dir, f);
      } else {
        BadEntry(root, dir, f);
      }
    } else {
      TopIsHeld(t, f.at);
    }
  }

  lemma TopIsHeld(t: Tree, at: seq<string>)
    requires at != [] && Lookup(t, at).Some?
    ensures HasContents(t)
  {
    if |at| > 1 {
      AncestorsAreDirs(t, at, 1);
    }
    assert at[..1] == [at[0]];
    assert |at| == 1 ==> at == [at[0]];
    assert Lookup(t, [at[0]]).Some?;
  }

  // Backslashes become separators, so no created name contains one.

  lemma {:induction false} SplitIsPlain(s: string)
    requires Plain(s)
    ensures AllPlain(Split(s))
  {
    if s != "" {
      assert s[0] in s && forall c :: c in s[1..] ==> c in s;
      SplitIsPlain(s[1..]);
    }
  }

  lemma {:induction false} PushAllIsPlain(rooted: bool, stack: seq<string>, cs: seq<string>)
    requires AllPlain(stack) && AllPlain(cs)
    ensures AllPlain(PushAll(rooted, stack, cs))
    decreases |cs|
  {
    if cs != [] {
      assert Plain(cs[0]);
      assert forall i :: 0 <= i < |cs| - 1 ==> cs[1..][i] == cs[i + 1];
      PushAllIsPlain(rooted, Push(rooted, stack, cs[0]), cs[1..]);
    }
  }

  lemma {:induction false} CutIsPlain(s: string)
    requires Plain(s)
    ensures AfterFirstSlash(s).Some? ==> Plain(AfterFirstSlash(s).value)
  {
    if s != "" {
      assert forall c :: c in s[1..] ==> c in s;
      CutIsPlain(s[1..]);
    }
  }

  lemma TargetIsPlain(root: string, entryName: string)
    requires root != "" && EntryTarget(root, entryName).At?
    ensures Above(Parse(root), Parse(EntryTarget(root, entryName).path))
    ensures AllPlain(Rest(Parse(root), Parse(EntryTarget(root, entryName).path)))
  {
    var name := ToSlashes(entryName);
    assert Plain(name);
    CutIsPlain(name);
    var rel := AfterFirstSlash(name).value;
    SplitIsPlain(rel);
    PushAllIsPlain(rel != "" && rel[0] == '/', [], Split(rel));
    EscapeTest(rel);
    JoinCleaned(root, rel);
    assert Parse(EntryTarget(root, entryName).path).parts == Parse(root).parts + Parse(rel).parts;
  }

  /** Names with a backslash are not restored. */
  lemma BackslashIsLost(before: Files, t: Tree, es: seq<Entry>, root: string, at: seq<string>)
    requires NamedRoot(root) && Fresh(before, Parse(root)) && Lookup(t, at).Some?
    requires Restored(before, ExtractAll(before, root, es).fs, Parse(root), t)
    ensures AllPlain(at)
  {
    hide ExtractAll, EntryTarget, Lookup, Parse, Plain, Restored, Fresh;
    RestoredIsTouched(before, t, es, root, at);
    var i :| 0 <= i < |es| && TouchedBy(root, es[i], Under(root, at));
    TargetIsPlain(root, es[i].name);
    var r, p := Parse(root), Parse(EntryTarget(root, es[i].name).path);
    RestAbove(r, Under(root, at), p);
    assert Rest(r, Under(root, at)) == at;
    assert forall k :: 0 <= k < |at| ==> at[k] == Rest(r, p)[k];
  }

  // Without a name of its own the folder loses its outermost components.

  lemma {:induction false} Deepest(w: seq<Found>) returns (d: nat)
    requires w != []
    ensures d < |w| && forall i :: 0 <= i < |w| ==> |w[i].at| <= |w[d].at|
  {
    if |w| == 1 {
      d := 0;
    } else {
      var n := |w| - 1;
      d := Deepest(w[..n]);
      assert forall i :: 0 <= i < n ==> w[..n][i] == w[i];
      if |w[d].at| < |w[n].at| {
        d := n;
      }
    }
  }

  lemma DeepestHeld(dir: string, t: Tree, es: seq<Entry>) returns (at: seq<string>)
    requires ArchiveOf(dir, t, es)
    ensures Lookup(t, at).Some?
    ensures forall other :: Lookup(t, other).Some? ==> |other| <= |at|
  {
    hide Lookup, Valid, AllProper, ToEntries;
    var w := Walk(t, []);
    var d := Deepest(w);
    WalkSound(t, [], w[d]);
    at := w[d].at;
    assert at[0..] == at;
    forall other | Lookup(t, other).Some?
      ensures |other| <= |at|
    {
      WalkComplete(t, [], other);
      assert [] + other == other;
      var i :| 0 <= i < |w| && w[i] == Found(other, Lookup(t, other).value);
    }
  }

  lemma NamelessIsLost(before: Files, dir: string, t: Tree, es: seq<Entry>, root: string)
    requires ArchiveOf(dir, t, es) && NamedRoot(root) && Fresh(before, Parse(root)) && NamesArePlain(t)
    requires Restored(before, ExtractAll(before, root, es).fs, Parse(root), t)
    ensures ProperName(LastPart(dir))
  {
    hide ExtractAll, EntryTarget, Lookup, Parse, NamedRoot, ArchiveOf, LastPart, EntryName, ProperName, Restored, Fresh,
        AllPlain;
    if !ProperName(LastPart(dir)) {
      ArchiveIsOfFolder(dir, t, es);
      var at := DeepestHeld(dir, t, es);
      RestoredIsTouched(before, t, es, root, at);
      var i :| 0 <= i < |es| && TouchedBy(root, es[i], Under(root, at));
      var f := EntryHasOrigin(dir, t, es, i);
      BadEntry(root, dir, f);
      assert false;
    }
  }

  /** The archive made of an offered folder, which the path may be a link to:
      the host accepts both as folders. */
  ghost predicate Offered(dir: string, t: Tree, linked: bool, es: seq<Entry>) {
    && Packable(dir) && Valid(t) && t.Folder? && AllProper(Walk(AtStart(dir, t, linked), []))
    && multiset(es) == multiset(ToEntries(dir, Walk(AtStart(dir, t, linked), [])))
  }

  lemma OfferedIsArchive(dir: string, t: Tree, linked: bool, es: seq<Entry>)
    requires Offered(dir, t, linked, es)
    ensures if linked && ProperName(LastPart(dir)) then es == [] else ArchiveOf(dir, t, es)
  {
    hide ProperName, LastPart, ToEntry, Valid;
    if linked && ProperName(LastPart(dir)) {
      assert multiset(es) == multiset{};
      assert |multiset(es)| == |es|;
    }
  }

  /** Behind a link nothing is packed, nothing is restored, and no error shows. */
  lemma LinkIsLost(before: Files, dir: string, t: Tree, es: seq<Entry>, root: string)
    requires Offered(dir, t, true, es) && ProperName(LastPart(dir)) && NamedRoot(root) && Fresh(before, Parse(root))
    ensures es == [] && ExtractAll(before, root, es) == Extraction(before, true)
    ensures !Restored(before, ExtractAll(before, root, es).fs, Parse(root), t)
  {
    hide ProperName, LastPart, ToEntry, Valid, Fresh, Parse, NamedRoot;
    OfferedIsArchive(dir, t, true, es);
    var q := Parse(root);
    FreshHasNothing(before, q, q);
    assert Rest(q, q) == [] && Lookup(t, []) == Some(DirNode);
    assert !PathRestored(before, before, q, t, q);
  }

  /** The exact condition. For any folder whose own name has no backslash
      (others are refused as offers), offered under any path that does not end
      in `..`, with the archive's entries in any order, into a fresh target:
      extraction restores it if and only if the path ends in a name (and not in
      a slash or a dot) that is not a link, some child is not a link, and no
      name inside contains a backslash. */
  lemma FolderRoundTrip(before: Files, dir: string, t: Tree, linked: bool, es: seq<Entry>, dest: string,
                        targetName: string)
    requires Offered(dir, t, linked, es) && Plain(LastPart(dir)) && ProperName(targetName)
    requires Fresh(before, Parse(TargetRoot(dest, targetName)))
    ensures var result := ExtractAll(before, TargetRoot(dest, targetName), es);
            result.ok && Restored(before, result.fs, Parse(TargetRoot(dest, targetName)), t)
            <==>
            ProperName(LastPart(dir)) && !linked && HasContents(t) && NamesArePlain(t)
  {
    hide ExtractAll, Lookup, Parse, NamedRoot, ArchiveOf, LastPart, ProperName, Restored, Fresh, AllPlain, TargetRoot,
        Plain, Offered;
    var root := TargetRoot(dest, targetName);
    TargetRootIsNamed(dest, targetName);
    OfferedIsArchive(dir, t, linked, es);
    if linked && ProperName(LastPart(dir)) {
      LinkIsLost(before, dir, t, es, root);
    } else {
      if ProperName(LastPart(dir)) && HasContents(t) && NamesArePlain(t) {
        RoundTripWorks(before, dir, t, es, root);
      }
      if Restored(before, ExtractAll(before, root, es).fs, Parse(root), t) {
        forall at | Lookup(t, at).Some?
          ensures AllPlain(at)
        {
          BackslashIsLost(before, t, es, root, at);
        }
        EmptyFolderIsLost(before, dir, t, es, root);
        NamelessIsLost(before, dir, t, es, root);
      }
    }
  }

  // ---------- When an entry can be written ----------

  lemma {:induction false} MkdirBlocked(fs: Files, p: Path, q: Path)
    requires Closed(fs) && q in fs && fs[q].FileNode? && Above(q, p)
    ensures MkdirAll(fs, p) == None
    decreases |p.parts|
  {
    if p in fs {
      if |q.parts| < |p.parts| {
        AncestorsExist(fs, Parent(p), q);
      } else {
        assert q == p;
      }
    } else {
      assert q != p && (|q.parts| == |p.parts| ==> q.parts == p.parts);
      assert q.parts == p.parts[..|q.parts|] == Parent(p).parts[..|q.parts|];
      MkdirBlocked(fs, Parent(p), q);
    }
  }

  /** An entry can be written exactly if it is not refused, no file is in the way
      of its directories, and no directory in its own place. */
  lemma EntryWorksExactly(fs: Files, root: string, e: Entry)
    requires NamedRoot(root) && Closed(fs)
    ensures ExtractEntry(fs, root, e).ok <==>
              match EntryTarget(root, e.name)
              case Illegal => false
              case Skip => true
              case At(path, dir) =>
                var p := Parse(path);
                && p.parts != []
                && (forall q :: q in fs && fs[q].FileNode? ==> !Above(q, if dir then p else Parent(p)))
                && (!dir ==> !(p in fs && fs[p].DirNode?))
  {
    hide EntryTarget, NamedRoot, Parse, Dir, MkdirAll;
    var target := EntryTarget(root, e.name);
    if target.At? {
      TargetParent(root, e.name);
      var p := Parse(target.path);
      var made := if target.dir then p else Parent(p);
      if forall q :: q in fs && fs[q].FileNode? ==> !Above(q, made) {
        MkdirAllSucceeds(fs, made);
        MkdirAllAdds(fs, made, p);
        MkdirAllAdds(fs, made, made);
      } else {
        var q :| q in fs && fs[q].FileNode? && Above(q, made);
        MkdirBlocked(fs, made, q);
      }
    }
  }

  // ---------- What stands elsewhere ----------

  /** What is not at or below the root is not touched, even by an extraction
      that fails. */
  lemma {:induction false} ElsewhereStays(fs: Files, root: string, es: seq<Entry>, q: Path)
    requires root != "" && q in fs && !Above(Parse(root), q)
    ensures q in ExtractAll(fs, root, es).fs && ExtractAll(fs, root, es).fs[q] == fs[q]
    decreases |es|
  {
    hide ExtractEntry, Parse;
    if es != [] {
      ElsewhereStays(fs, root, es[..|es| - 1], q);
      EntryLeaves(ExtractAll(fs, root, es[..|es| - 1]).fs, root, es[|es| - 1], q);
    }
  }

  lemma EntryLeaves(fs: Files, root: string, e: Entry, q: Path)
    requires root != "" && q in fs && !Above(Parse(root), q)
    ensures q in ExtractEntry(fs, root, e).fs && ExtractEntry(fs, root, e).fs[q] == fs[q]
  {
    hide EntryTarget, Parse, Dir, MkdirAll;
    TargetIsContained(root, e.name);
    var target := EntryTarget(root, e.name);
    if target.At? {
      var made := Parse(if target.dir then target.path else Dir(target.path));
      if MkdirAll(fs, made).Some? {
        MkdirAllAdds(fs, made, q);
      }
    }
  }

  /** Something that stands elsewhere can be taken away before and after. */
  lemma RestoredWithout(before: Files, after: Files, root: Path, t: Tree, gone: Path)
    requires gone in before && !Above(root, gone) && gone in after && after[gone] == before[gone]
    ensures Restored(before, after, root, t) <==> Restored(before - {gone}, after - {gone}, root, t)
  {
    hide Lookup;
    if Restored(before, after, root, t) {
      forall q | true ensures PathRestored(before - {gone}, after - {gone}, root, t, q) {
        assert PathRestored(before, after, root, t, q);
      }
    }
    if Restored(before - {gone}, after - {gone}, root, t) {
      forall q | true ensures PathRestored(before, after, root, t, q) {
        assert PathRestored(before - {gone}, after - {gone}, root, t, q);
      }
    }
  }
}
