/** Packing a folder on the host and restoring it at a receiver
    (internal/host/archive.go, internal/receiver/archive.go). An archive is
    the list of its entries: names as in section 4.4.17.1 of the PKWARE
    APPNOTE, and contents. */
module Archive {
  import opened Bytes
  import opened Paths
  import opened FolderTree

  datatype Entry = Entry(name: string, data: seq<byte>)

  // ---------- Packing ----------

  /** The text behind the last slash of the path as it was given. */
  function LastPart(path: string): string { path[AfterLastSlash(path)..] }

  /** `filepath.Rel` for a path at or below the base directory. */
  function Rel(base: string, path: string): string
    requires Above(Parse(base), Parse(path))
  {
    var rest := Parse(path).parts[|Parse(base).parts|..];
    if rest == [] then "." else JoinSlash(rest)
  }

  /** The path under which the walk visits something in the folder. */
  function WalkPath(dir: string, at: seq<string>): string
    decreases |at|
  {
    if at == [] then dir else Join(WalkPath(dir, at[..|at| - 1]), at[|at| - 1])
  }

  predicate Packable(dir: string) { dir != "" && LastPart(dir) != ".." }

  function EntryName(dir: string, f: Found): string
    requires Packable(dir) && ProperNames(f.at)
  {
    WalkStaysBelow(dir, f.at);
    Rel(Dir(dir), WalkPath(dir, f.at)) + (if f.node.DirNode? then "/" else "")
  }

  function ToEntry(dir: string, f: Found): Entry
    requires Packable(dir) && ProperNames(f.at)
  {
    Entry(EntryName(dir, f), if f.node.DirNode? then [] else f.node.data)
  }

  ghost predicate AllProper(fs: seq<Found>) {
    forall i :: 0 <= i < |fs| ==> ProperNames(fs[i].at)
  }

  function ToEntries(dir: string, fs: seq<Found>): (es: seq<Entry>)
    requires Packable(dir) && forall i :: 0 <= i < |fs| ==> ProperNames(fs[i].at)
    ensures |es| == |fs| && forall i :: 0 <= i < |fs| ==> es[i] == ToEntry(dir, fs[i])
  {
    if fs == [] then [] else [ToEntry(dir, fs[0])] + ToEntries(dir, fs[1..])
  }

  /** The components the entry names start with: the folder's own name, or
      nothing if the path does not end in a name. */
  function OwnName(dir: string): seq<string> {
    if ProperName(LastPart(dir)) then [LastPart(dir)] else []
  }

  lemma ShowNotEmpty(p: Path)
    requires Normal(p)
    ensures Show(p) != ""
  {
    if !p.rooted && p.parts != [] {
      NormalShowsRelative(p);
    }
  }

  lemma JoinNotEmpty(a: string, b: string)
    requires a != ""
    ensures Join(a, b) != ""
  {
    ParseIsNormal(a + "/" + b);
    ShowNotEmpty(Parse(a + "/" + b));
  }

  /** A path lies below its `Dir` by its last part. */
  lemma DirIsAbove(dir: string)
    requires Packable(dir)
    ensures Parse(dir) == Path(Parse(Dir(dir)).rooted, Parse(Dir(dir)).parts + OwnName(dir))
    ensures Dir(dir) != ""
  {
    var n := AfterLastSlash(dir);
    var head, last := dir[..n], LastPart(dir);
    ParseIsNormal(head);
    ParseShow(Parse(head));
    ShowNotEmpty(Parse(head));
    SplitOne(last);
    assert dir == head + last;
    if n == 0 {
      assert dir == last && Split("") == [""];
      assert last[0] in last;
      PushLast(false, [], last);
    } else {
      var front := dir[..n - 1];
      assert head == front + "/" + "" && dir == front + "/" + last;
      SplitConcat(front, "");
      SplitConcat(front, last);
      var rooted := dir[0] == '/';
      PushAllAppend(rooted, [], Split(front), [""]);
      PushAllAppend(rooted, [], Split(front), [last]);
      PushLast(rooted, PushAll(rooted, [], Split(front)), last);
    }
  }

  lemma PushLast(rooted: bool, stack: seq<string>, last: string)
    requires Slashless(last) && last != ".."
    ensures PushAll(rooted, stack, [last]) == stack + if ProperName(last) then [last] else []
    ensures PushAll(rooted, stack, [""]) == stack
  {
    assert PushAll(rooted, stack, [last]) == PushAll(rooted, Push(rooted, stack, last), []);
    assert PushAll(rooted, stack, [""]) == PushAll(rooted, stack, []);
  }

  lemma {:induction false} WalkPathParts(dir: string, at: seq<string>)
    requires dir != "" && ProperNames(at)
    ensures WalkPath(dir, at) != ""
    ensures Parse(WalkPath(dir, at)) == Path(Parse(dir).rooted, Parse(dir).parts + at)
    decreases |at|
  {
    if at == [] {
      assert Parse(dir).parts + [] == Parse(dir).parts;
    } else {
      var before, name := at[..|at| - 1], at[|at| - 1];
      WalkPathParts(dir, before);
      JoinName(WalkPath(dir, before), name);
      JoinNotEmpty(WalkPath(dir, before), name);
      assert Parse(dir).parts + before + [name] == Parse(dir).parts + at;
    }
  }

  lemma WalkStaysBelow(dir: string, at: seq<string>)
    requires Packable(dir) && ProperNames(at)
    ensures Above(Parse(Dir(dir)), Parse(WalkPath(dir, at)))
    ensures Parse(WalkPath(dir, at)).parts[|Parse(Dir(dir)).parts|..] == OwnName(dir) + at
  {
    hide Parse, WalkPath, Dir, OwnName, ProperNames;
    DirIsAbove(dir);
    WalkPathParts(dir, at);
  }

  class ZipWriter {
    var entries: seq<Entry>

    constructor ()
      ensures entries == []
    {
      entries := [];
    }
  }

  /** The walk callback, directory by directory. */
  method WalkInto(zip: ZipWriter, dir: string, path: string, t: Tree, ghost at: seq<string>)
    requires Valid(t) && Packable(dir) && ProperNames(at) && path == WalkPath(dir, at)
    modifies zip
    ensures AllProper(Walk(t, at))
    ensures zip.entries == old(zip.entries) + ToEntries(dir, Walk(t, at))
    decreases t, 1
  {
    hide *;
    OwnEntries(dir, t, at);
    match t
    case Symlink =>
    case File(data) =>
      zip.entries := zip.entries + [Entry(Rel(Dir(dir), path), data)];
    case Folder(kids) =>
      zip.entries := zip.entries + [Entry(Rel(Dir(dir), path) + "/", [])];
      WalkKidsInto(zip, dir, path, kids, at);
  }

  lemma OwnEntries(dir: string, t: Tree, at: seq<string>)
    requires Valid(t) && Packable(dir) && ProperNames(at)
    ensures AllProper(Walk(t, at)) && Above(Parse(Dir(dir)), Parse(WalkPath(dir, at)))
    ensures t.Symlink? ==> ToEntries(dir, Walk(t, at)) == []
    ensures t.File? ==> ToEntries(dir, Walk(t, at)) == [Entry(Rel(Dir(dir), WalkPath(dir, at)), t.data)]
    ensures t.Folder? ==> ValidKids(t.kids) && AllProper(WalkKids(t.kids, at))
    ensures t.Folder? ==>
              ToEntries(dir, Walk(t, at)) ==
                  [Entry(Rel(Dir(dir), WalkPath(dir, at)) + "/", [])] + ToEntries(dir, WalkKids(t.kids, at))
  {
    hide Rel, Dir, WalkPath, Packable, ProperName;
    WalkIsProper(t, at);
    WalkStaysBelow(dir, at);
    var here := Rel(Dir(dir), WalkPath(dir, at));
    assert here + "" == here;
    match t
    case Symlink =>
    case File(_) =>
    case Folder(kids) =>
      WalkKidsAreProper(kids, at);
      assert Walk(t, at)[1..] == WalkKids(kids, at);
  }

  method WalkKidsInto(zip: ZipWriter, dir: string, path: string, kids: seq<Kid>, ghost at: seq<string>)
    requires ValidKids(kids) && Packable(dir) && ProperNames(at) && path == WalkPath(dir, at)
    modifies zip
    ensures AllProper(WalkKids(kids, at))
    ensures zip.entries == old(zip.entries) + ToEntries(dir, WalkKids(kids, at))
    decreases kids, 0
  {
    hide *;
    WalkKidsAreProper(kids, at);
    if kids == [] {
      NoEntries(dir, at);
      return;
    }
    KidEntries(dir, kids, at);
    ghost var below := at + [kids[0].name];
    WalkInto(zip, dir, Join(path, kids[0].name), kids[0].tree, below);
    WalkKidsInto(zip, dir, path, kids[1..], at);
  }

  lemma NoEntries(dir: string, at: seq<string>)
    requires Packable(dir) && AllProper(WalkKids([], at))
    ensures ToEntries(dir, WalkKids([], at)) == []
  {
  }

  lemma KidEntries(dir: string, kids: seq<Kid>, at: seq<string>)
    requires kids != [] && ValidKids(kids) && Packable(dir) && ProperNames(at)
    ensures Valid(kids[0].tree) && ValidKids(kids[1..])
    ensures ProperNames(at + [kids[0].name])
    ensures WalkPath(dir, at + [kids[0].name]) == Join(WalkPath(dir, at), kids[0].name)
    ensures AllProper(Walk(kids[0].tree, at + [kids[0].name])) && AllProper(WalkKids(kids[1..], at))
            && AllProper(WalkKids(kids, at))
    ensures ToEntries(dir, WalkKids(kids, at))
         == ToEntries(dir, Walk(kids[0].tree, at + [kids[0].name])) + ToEntries(dir, WalkKids(kids[1..], at))
  {
    hide ToEntry, Join, Packable;
    var below := at + [kids[0].name];
    assert below[..|at|] == at;
    WalkIsProper(kids[0].tree, below);
    WalkKidsAreProper(kids[1..], at);
    ToEntriesAppend(dir, Walk(kids[0].tree, below), WalkKids(kids[1..], at));
  }

  lemma ToEntriesAppend(dir: string, a: seq<Found>, b: seq<Found>)
    requires Packable(dir) && AllProper(a) && AllProper(b)
    ensures AllProper(a + b) && ToEntries(dir, a + b) == ToEntries(dir, a) + ToEntries(dir, b)
  {
    hide ToEntry;
  }

  lemma WalkIsProper(t: Tree, at: seq<string>)
    requires Valid(t) && ProperNames(at)
    ensures AllProper(Walk(t, at))
  {
    forall i | 0 <= i < |Walk(t, at)|
      ensures ProperNames(Walk(t, at)[i].at)
    {
      var f := Walk(t, at)[i];
      WalkSound(t, at, f);
      HeldNamesAreProper(t, f.at[|at|..]);
      assert f.at == at + f.at[|at|..];
    }
  }

  lemma WalkKidsAreProper(kids: seq<Kid>, at: seq<string>)
    requires ValidKids(kids) && ProperNames(at)
    ensures AllProper(WalkKids(kids, at))
  {
    WalkIsProper(Folder(kids), at);
    var w := Walk(Folder(kids), at);
    assert w[1..] == WalkKids(kids, at);
    assert forall i :: 0 <= i < |w| - 1 ==> w[1..][i] == w[i + 1];
  }

  /** What `Lstat` says at the start of the walk: a path that ends in the name
      of a link is a link, with a slash or a dot behind it the folder. */
  function AtStart(dir: string, t: Tree, linked: bool): Tree {
    if linked && ProperName(LastPart(dir)) then Symlink else t
  }

  /** `createArchive`, for a folder or a link to one. */
  method CreateArchive(dir: string, t: Tree, linked: bool) returns (entries: seq<Entry>)
    requires Valid(t) && Packable(dir)
    ensures AllProper(Walk(AtStart(dir, t, linked), []))
    ensures entries == ToEntries(dir, Walk(AtStart(dir, t, linked), []))
  {
    var zip := new ZipWriter();
    WalkInto(zip, dir, dir, AtStart(dir, t, linked), []);
    entries := zip.entries;
  }

  // ---------- Unpacking ----------

  function ToSlashes(s: string): (r: string)
    ensures |r| == |s| && forall i :: 0 <= i < |s| ==> r[i] == if s[i] == '\\' then '/' else s[i]
  {
    if s == "" then "" else [if s[0] == '\\' then '/' else s[0]] + ToSlashes(s[1..])
  }

  /** `strings.Cut(s, "/")`: what follows the first slash. */
  function AfterFirstSlash(s: string): Option<string> {
    if s == "" then None else if s[0] == '/' then Some(s[1..]) else AfterFirstSlash(s[1..])
  }

  datatype Target = Skip | Illegal | At(path: string, dir: bool)

  /** Where an entry of that name goes. */
  function EntryTarget(root: string, entryName: string): Target {
    var name := ToSlashes(entryName);
    var isDir := name != "" && name[|name| - 1] == '/';
    match AfterFirstSlash(name)
    case None => Skip
    case Some(rel) =>
      if rel == "" then Skip
      else
        var cleanRel := Clean(rel);
        if cleanRel == ".." || "../" <= cleanRel then Illegal
        else At(Join(root, cleanRel), isDir)
  }

  datatype Extraction = Extraction(fs: Files, ok: bool)

  function ExtractEntry(fs: Files, root: string, e: Entry): Extraction {
    match EntryTarget(root, e.name)
    case Skip => Extraction(fs, true)
    case Illegal => Extraction(fs, false)
    case At(path, true) =>
      (match MkdirAll(fs, Parse(path))
       case None => Extraction(fs, false)
       case Some(made) => Extraction(made, true))
    case At(path, false) =>
      match MkdirAll(fs, Parse(Dir(path)))
      case None => Extraction(fs, false)
      case Some(made) =>
        match WriteFile(made, Parse(path), e.data)
        case None => Extraction(made, false)
        case Some(written) => Extraction(written, true)
  }

  function ExtractAll(fs: Files, root: string, es: seq<Entry>): Extraction
    decreases |es|
  {
    if es == [] then Extraction(fs, true)
    else
      var before := ExtractAll(fs, root, es[..|es| - 1]);
      if before.ok then ExtractEntry(before.fs, root, es[|es| - 1]) else before
  }

  function TargetRoot(dest: string, targetName: string): string {
    Join(Clean(dest), targetName)
  }

  class FileTree {
    var nodes: Files

    constructor (nodes: Files)
      ensures this.nodes == nodes
    {
      this.nodes := nodes;
    }
  }

  /** `extractFolder`: entry by entry, stopping at the first error. */
  method ExtractFolder(tree: FileTree, archive: seq<Entry>, dest: string, targetName: string) returns (ok: bool)
    modifies tree
    ensures Extraction(tree.nodes, ok) == ExtractAll(old(tree.nodes), TargetRoot(dest, targetName), archive)
  {
    var root := Join(Clean(dest), targetName);
    for i := 0 to |archive|
      invariant Extraction(tree.nodes, true) == ExtractAll(old(tree.nodes), root, archive[..i])
    {
      var e := archive[i];
      assert archive[..i + 1][..i] == archive[..i];
      ghost var stop := ExtractAll(old(tree.nodes), root, archive[..i + 1]);
      assert stop == ExtractEntry(tree.nodes, root, e);
      match EntryTarget(root, e.name)
      case Skip =>
      case Illegal =>
        StoppedExtraction(old(tree.nodes), root, archive, i + 1);
        return false;
      case At(path, isDir) =>
        var made := MkdirAll(tree.nodes, Parse(if isDir then path else Dir(path)));
        if made == None {
          StoppedExtraction(old(tree.nodes), root, archive, i + 1);
          return false;
        }
        tree.nodes := made.value;
        if !isDir {
          var written := WriteFile(tree.nodes, Parse(path), e.data);
          if written == None {
            StoppedExtraction(old(tree.nodes), root, archive, i + 1);
            return false;
          }
          tree.nodes := written.value;
        }
    }
    assert archive[..|archive|] == archive;
    ok := true;
  }

  lemma {:induction false} StoppedExtraction(fs: Files, root: string, es: seq<Entry>, n: nat)
    requires n <= |es| && !ExtractAll(fs, root, es[..n]).ok
    ensures ExtractAll(fs, root, es) == ExtractAll(fs, root, es[..n])
    decreases |es|
  {
    if n == |es| {
      assert es[..n] == es;
    } else {
      assert es[..|es| - 1][..n] == es[..n];
      StoppedExtraction(fs, root, es[..|es| - 1], n);
    }
  }

  // ---------- Containment ----------

  lemma EscapeTest(rel: string)
    ensures (Clean(rel) == ".." || "../" <= Clean(rel)) <==> Escapes(Parse(rel))
  {
    var p, shown := Parse(rel), Clean(rel);
    ParseIsNormal(rel);
    if p.rooted {
      RootedStays(p);
      assert shown[0] == '/';
    } else if p.parts != [] {
      PushNormal(p);
      SplitJoined(p.parts);
      if shown == ".." {
        SplitOne("..");
      } else if "../" <= shown {
        assert shown == ".." + "/" + shown[3..];
        SplitConcat("..", shown[3..]);
        SplitOne("..");
      }
    }
  }

  lemma RootedStays(p: Path)
    requires Normal(p) && p.rooted
    ensures !Escapes(p)
  {
    var k: nat :| Leading(p, k);
    if p.parts != [] {
      assert ProperName(p.parts[0..][0]);
    }
  }

  /** Every entry name is skipped, refused, or lands at or below the root: its
      components are the root's followed by proper names. */
  lemma TargetIsContained(root: string, entryName: string)
    requires root != ""
    ensures match EntryTarget(root, entryName)
            case Skip => true
            case Illegal => true
            case At(path, _) =>
              && Above(Parse(root), Parse(path))
              && ProperNames(Parse(path).parts[|Parse(root).parts|..])
  {
    var rest := AfterFirstSlash(ToSlashes(entryName));
    if rest.Some? && EntryTarget(root, entryName).At? {
      EscapeTest(rest.value);
      JoinCleaned(root, rest.value);
      ParseIsNormal(rest.value);
      NormalWithoutDots(Parse(rest.value));
    }
  }

  /** Refused exactly when the part behind the first separator climbs out. */
  lemma RefusedExactly(root: string, entryName: string)
    ensures EntryTarget(root, entryName).Illegal? <==>
              var rest := AfterFirstSlash(ToSlashes(entryName));
              rest.Some? && rest.value != "" && Escapes(Parse(rest.value))
  {
    var rest := AfterFirstSlash(ToSlashes(entryName));
    if rest.Some? {
      EscapeTest(rest.value);
    }
  }
}
