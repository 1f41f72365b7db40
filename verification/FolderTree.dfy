/** Folders as trees, the walk over them, and a file system of cleaned paths. */
module FolderTree {
  import opened Bytes
  import opened Paths

  datatype Node = DirNode | FileNode(data: seq<byte>)

  datatype Tree = File(data: seq<byte>) | Folder(kids: seq<Kid>) | Symlink
  datatype Kid = Kid(name: string, tree: Tree)

  /** Names are proper and distinct within a directory. */
  ghost predicate Valid(t: Tree) {
    t.Folder? ==> ValidKids(t.kids)
  }

  ghost predicate ValidKids(kids: seq<Kid>) {
    kids != [] ==>
      && ProperName(kids[0].name)
      && KidNamed(kids[1..], kids[0].name) == None
      && Valid(kids[0].tree)
      && ValidKids(kids[1..])
  }

  function KidNamed(kids: seq<Kid>, name: string): (r: Option<Tree>)
    ensures r.Some? ==> exists i :: 0 <= i < |kids| && kids[i].tree == r.value
  {
    if kids == [] then None
    else if kids[0].name == name then Some(kids[0].tree)
    else
      var r := KidNamed(kids[1..], name);
      assert r.Some? ==> exists i :: 0 <= i < |kids| && kids[i].tree == r.value by {
        if r.Some? {
          var j :| 0 <= j < |kids[1..]| && kids[1..][j].tree == r.value;
          assert kids[j + 1].tree == r.value;
        }
      }
      r
  }

  /** What the folder holds at a relative path, symbolic links left out. */
  function Lookup(t: Tree, at: seq<string>): Option<Node>
    decreases |at|
  {
    match t
    case Symlink => None
    case File(data) => if at == [] then Some(FileNode(data)) else None
    case Folder(kids) =>
      if at == [] then Some(DirNode)
      else
        match KidNamed(kids, at[0])
        case None => None
        case Some(kid) => Lookup(kid, at[1..])
  }

  // ---------- The walk ----------

  datatype Found = Found(at: seq<string>, node: Node)

  /** `filepath.Walk` without the links: a directory before its contents. */
  function Walk(t: Tree, at: seq<string>): seq<Found>
    decreases t, 1
  {
    match t
    case Symlink => []
    case File(data) => [Found(at, FileNode(data))]
    case Folder(kids) => [Found(at, DirNode)] + WalkKids(kids, at)
  }

  function WalkKids(kids: seq<Kid>, at: seq<string>): seq<Found>
    decreases kids, 0
  {
    if kids == [] then []
    else Walk(kids[0].tree, at + [kids[0].name]) + WalkKids(kids[1..], at)
  }

  /** The walk finds exactly what the folder holds. */
  lemma {:induction false} WalkSound(t: Tree, at: seq<string>, f: Found)
    requires Valid(t) && f in Walk(t, at)
    ensures at <= f.at && Lookup(t, f.at[|at|..]) == Some(f.node)
    decreases t, 1
  {
    match t
    case File(_) =>
    case Folder(kids) =>
      if f != Found(at, DirNode) {
        WalkKidsSound(kids, at, f);
      }
  }

  lemma {:induction false} WalkKidsSound(kids: seq<Kid>, at: seq<string>, f: Found)
    requires ValidKids(kids) && f in WalkKids(kids, at)
    ensures at < f.at && Lookup(Folder(kids), f.at[|at|..]) == Some(f.node)
    decreases kids, 0
  {
    var name := kids[0].name;
    if f in Walk(kids[0].tree, at + [name]) {
      WalkSound(kids[0].tree, at + [name], f);
      assert f.at[|at|] == (at + [name])[|at|] == name;
      assert f.at[|at|..][1..] == f.at[|at + [name]|..];
    } else {
      WalkKidsSound(kids[1..], at, f);
      assert KidNamed(kids[1..], f.at[|at|..][0]).Some?;
    }
  }

  lemma {:induction false} WalkComplete(t: Tree, at: seq<string>, rel: seq<string>)
    requires Lookup(t, rel).Some?
    ensures Found(at + rel, Lookup(t, rel).value) in Walk(t, at)
    decreases t, 1
  {
    assert at + [] == at;
    match t
    case File(_) =>
    case Folder(kids) =>
      if rel != [] {
        WalkKidsComplete(kids, at, rel);
      }
  }

  lemma {:induction false} WalkKidsComplete(kids: seq<Kid>, at: seq<string>, rel: seq<string>)
    requires rel != [] && Lookup(Folder(kids), rel).Some?
    ensures Found(at + rel, Lookup(Folder(kids), rel).value) in WalkKids(kids, at)
    decreases kids, 0
  {
    if kids[0].name == rel[0] {
      WalkComplete(kids[0].tree, at + [rel[0]], rel[1..]);
      assert at + [rel[0]] + rel[1..] == at + rel;
    } else {
      WalkKidsComplete(kids[1..], at, rel);
    }
  }

  /** The walk visits everything once, and a directory before what is in it. */
  lemma WalkOrder(t: Tree, at: seq<string>, i: nat, j: nat)
    requires Valid(t) && i < |Walk(t, at)| && j < |Walk(t, at)|
    ensures Walk(t, at)[i].at == Walk(t, at)[j].at ==> i == j
    ensures Walk(t, at)[i].at < Walk(t, at)[j].at ==> i < j
  {
    WalkOrdered(t, at);
    var w := Walk(t, at);
    if j < i {
      assert Before(w, j, i);
    }
    if i < j {
      assert Before(w, i, j);
    }
  }

  predicate Before(w: seq<Found>, i: nat, j: nat)
    requires i < j < |w|
  {
    !(w[j].at <= w[i].at)
  }

  /** Nothing comes behind what it is above, or the same as. */
  ghost predicate Ordered(w: seq<Found>) { forall i, j :: 0 <= i < j < |w| ==> Before(w, i, j) }

  lemma {:induction false} WalkOrdered(t: Tree, at: seq<string>)
    requires Valid(t)
    ensures Ordered(Walk(t, at))
    decreases t, 1
  {
    match t
    case File(_) =>
    case Symlink =>
    case Folder(kids) =>
      WalkKidsOrdered(kids, at);
      var w, rest := Walk(t, at), WalkKids(kids, at);
      forall i, j | 0 <= i < j < |w| ensures Before(w, i, j) {
        WalkKidsSound(kids, at, rest[j - 1]);
        if i > 0 {
          assert Before(rest, i - 1, j - 1);
        }
      }
  }

  lemma {:induction false} WalkKidsOrdered(kids: seq<Kid>, at: seq<string>)
    requires ValidKids(kids)
    ensures Ordered(WalkKids(kids, at))
    decreases kids, 0
  {
    if kids != [] {
      var below := at + [kids[0].name];
      var first, rest := Walk(kids[0].tree, below), WalkKids(kids[1..], at);
      WalkOrdered(kids[0].tree, below);
      WalkKidsOrdered(kids[1..], at);
      var w := WalkKids(kids, at);
      forall i, j | 0 <= i < j < |w| ensures Before(w, i, j) {
        if j < |first| {
          assert Before(first, i, j);
        } else if i >= |first| {
          assert Before(rest, i - |first|, j - |first|);
        } else {
          WalkSound(kids[0].tree, below, first[i]);
          WalkKidsSound(kids[1..], at, rest[j - |first|]);
          OtherKid(kids, at, first[i].at, rest[j - |first|].at);
        }
      }
    }
  }

  /** What is found under one kid is not above what is found under another. */
  lemma OtherKid(kids: seq<Kid>, at: seq<string>, x: seq<string>, y: seq<string>)
    requires kids != [] && ValidKids(kids)
    requires at + [kids[0].name] <= x && at < y && Lookup(Folder(kids[1..]), y[|at|..]).Some?
    ensures !(y <= x)
  {
    assert x[|at|] == (at + [kids[0].name])[|at|];
    assert y[|at|..][0] == y[|at|] && KidNamed(kids[1..], y[|at|]).Some?;
  }

  /** What lies above something held by the folder is a directory. */
  lemma {:induction false} AncestorsAreDirs(t: Tree, at: seq<string>, k: nat)
    requires k < |at| && Lookup(t, at).Some?
    ensures Lookup(t, at[..k]) == Some(DirNode)
    decreases |at|
  {
    if k > 0 {
      AncestorsAreDirs(KidNamed(t.kids, at[0]).value, at[1..], k - 1);
      assert at[..k][1..] == at[1..][..k - 1];
    }
  }

  /** Relative paths inside a valid folder consist of proper names. */
  lemma {:induction false} HeldNamesAreProper(t: Tree, at: seq<string>)
    requires Valid(t) && Lookup(t, at).Some?
    ensures ProperNames(at)
    decreases |at|
  {
    if at != [] {
      KidIsValid(t.kids, at[0]);
      HeldNamesAreProper(KidNamed(t.kids, at[0]).value, at[1..]);
      assert forall i :: 0 < i < |at| ==> at[i] == at[1..][i - 1];
    }
  }

  lemma {:induction false} KidIsValid(kids: seq<Kid>, name: string)
    requires ValidKids(kids) && KidNamed(kids, name).Some?
    ensures ProperName(name) && Valid(KidNamed(kids, name).value)
  {
    if kids[0].name != name {
      KidIsValid(kids[1..], name);
    }
  }

  // ---------- File system ----------

  type Files = map<Path, Node>

  function Parent(p: Path): Path
    requires p.parts != []
  {
    p.(parts := p.parts[..|p.parts| - 1])
  }

  predicate IsDir(fs: Files, p: Path) {
    p.parts == [] || (p in fs && fs[p].DirNode?)
  }

  /** `os.MkdirAll` */
  function MkdirAll(fs: Files, p: Path): Option<Files>
    decreases |p.parts|
  {
    if p.parts == [] then Some(fs)
    else if p in fs then (if fs[p].DirNode? then Some(fs) else None)
    else
      match MkdirAll(fs, Parent(p))
      case None => None
      case Some(above) => Some(above[p := DirNode])
  }

  /** `os.Create` and a copy of the data */
  function WriteFile(fs: Files, p: Path, data: seq<byte>): Option<Files> {
    if IsDir(fs, p) || !IsDir(fs, Parent(p)) then None else Some(fs[p := FileNode(data)])
  }

  predicate Above(q: Path, p: Path) {
    q.rooted == p.rooted && q.parts <= p.parts
  }

  /** Only missing directories at and above the path are added. */
  lemma {:induction false} MkdirAllAdds(fs: Files, p: Path, q: Path)
    requires MkdirAll(fs, p).Some?
    ensures q in fs ==> q in MkdirAll(fs, p).value && MkdirAll(fs, p).value[q] == fs[q]
    ensures q !in fs && q in MkdirAll(fs, p).value ==> MkdirAll(fs, p).value[q] == DirNode && Above(q, p)
    ensures IsDir(MkdirAll(fs, p).value, p)
    decreases |p.parts|
  {
    if p.parts != [] && p !in fs {
      MkdirAllAdds(fs, Parent(p), q);
    }
  }
}
