/**
 The archive, the extraction and the manifest check of internal/backup/backup.go.

 A directory tree is a `Forest` of named entries in the order in which a directory walk visits them;
 what has been written on disk is a map from paths to nodes. The tar and gzip layers hand the headers
 on unchanged, and a digest is taken as injective, so it is given by the bytes it was computed from.
 */
module Backup {
  import opened Strings
  import opened Wrappers

  /** A path relative to the root, by its components. */
  type Path = seq<string>

  datatype Node = DirNode | FileNode(data: string) | LinkNode(target: string)

  datatype Tree = Dir(entries: Forest) | File(bytes: string) | Link(to: string)

  datatype Forest = Nil | Cons(name: string, tree: Tree, rest: Forest)

  type Disk = map<Path, Node>

  datatype Visit = Visit(path: Path, node: Node)

  datatype Header = Header(name: string, node: Node)

  datatype Manifest = Manifest(format: int, files: map<string, string>)

  /** encoding/json for the manifest. */
  datatype Json = Json(encode: Manifest -> string, decode: string -> Option<Manifest>)

  const ManifestName := "backup-manifest.json"
  const DatabaseName := "controller.db"
  const Included: seq<string> := ["config", "tls", "acme", "migration"]

  // ----- Names and paths

  function Split(s: string): (parts: seq<string>)
    ensures parts != []
  {
    if s == "" then [""]
    else
      var tail := Split(s[1..]);
      if s[0] == '/' then [""] + tail else [[s[0]] + tail[0]] + tail[1..]
  }

  function Join(p: Path): string {
    if p == [] then "" else if |p| == 1 then p[0] else p[0] + "/" + Join(p[1..])
  }

  predicate ValidName(n: string) {
    n != "" && n != "." && n != ".." && '/' !in n
  }

  predicate ValidPath(p: Path) {
    p != [] && forall i | 0 <= i < |p| :: ValidName(p[i])
  }

  lemma {:induction false} SplitPlain(s: string)
    requires '/' !in s
    ensures Split(s) == [s]
  {
    if s != "" {
      SplitPlain(s[1..]);
      assert [s[0]] + s[1..] == s;
    }
  }

  lemma {:induction false} SplitAtSlash(s: string, rest: string)
    requires '/' !in s
    ensures Split(s + "/" + rest) == [s] + Split(rest)
  {
    var all := s + "/" + rest;
    if s == "" {
      assert all[1..] == rest;
    } else {
      SplitAtSlash(s[1..], rest);
      assert all[1..] == s[1..] + "/" + rest;
      assert [s[0]] + s[1..] == s;
    }
  }

  /** The components of a joined path come back. */
  lemma {:induction false} SplitJoined(p: Path)
    requires ValidPath(p)
    ensures Split(Join(p)) == p
  {
    if |p| == 1 {
      SplitPlain(p[0]);
      assert p == [p[0]];
    } else {
      forall i | 0 <= i < |p| - 1
        ensures ValidName(p[1..][i])
      {
        assert p[1..][i] == p[i + 1];
      }
      SplitJoined(p[1..]);
      SplitAtSlash(p[0], Join(p[1..]));
      assert [p[0]] + p[1..] == p;
    }
  }

  /**
   `filepath.Clean` on components, with what is kept so far in `kept`. The empty result stands for "."
   (or "/" when rooted); a cleaned name is ".." or starts with "../" exactly when its first component
   is "..".
   */
  function CleanOnto(kept: Path, parts: Path, rooted: bool): Path
    decreases parts
  {
    if parts == [] then kept
    else if parts[0] == "" || parts[0] == "." then CleanOnto(kept, parts[1..], rooted)
    else if parts[0] != ".." then CleanOnto(kept + [parts[0]], parts[1..], rooted)
    else if kept != [] && kept[|kept| - 1] != ".." then CleanOnto(kept[..|kept| - 1], parts[1..], rooted)
    else CleanOnto(if rooted then kept else kept + [".."], parts[1..], rooted)
  }

  predicate Absolute(name: string) {
    name != "" && name[0] == '/'
  }

  function Clean(name: string): Path {
    CleanOnto([], Split(name), Absolute(name))
  }

  predicate StartsUp(p: Path) {
    p != [] && p[0] == ".."
  }

  function SafePath(name: string): Result<Path> {
    var clean := Clean(name);
    if clean == [] || Absolute(name) || StartsUp(clean) then Err else Ok(clean)
  }

  /** The check made on a link before it is created: the link's own depth plays no part. */
  predicate LinkAccepted(target: string) {
    !Absolute(target) && !StartsUp(Clean(target))
  }

  /** Following `parts` one at a time from a directory `depth` levels below the root leaves the root. */
  predicate Leaves(parts: Path, depth: int) {
    depth < 0 || (parts != [] && Leaves(parts[1..], depth + Weight(parts[0])))
  }

  function Weight(part: string): int {
    if part == "" || part == "." then 0 else if part == ".." then -1 else 1
  }

  /** How far below its start a walk ends. */
  function Level(parts: Path): int {
    if parts == [] then 0 else Weight(parts[0]) + Level(parts[1..])
  }

  lemma {:induction false} UpStays(kept: Path, parts: Path)
    requires StartsUp(kept) && (forall i | 0 <= i < |kept| :: kept[i] == ".." || ValidName(kept[i]))
    requires forall i | 0 <= i < |parts| :: '/' !in parts[i]
    ensures StartsUp(CleanOnto(kept, parts, false))
    decreases parts
  {
    if parts != [] {
      var rest := parts[1..];
      if Weight(parts[0]) == 0 {
        UpStays(kept, rest);
      } else if parts[0] != ".." {
        UpStays(kept + [parts[0]], rest);
      } else if kept[|kept| - 1] != ".." {
        UpStays(kept[..|kept| - 1], rest);
      } else {
        UpStays(kept + [".."], rest);
      }
    }
  }

  /** A cleaned relative name climbs exactly when walking it leaves the root; otherwise only plain names are left. */
  lemma {:induction false} CleanClimbs(kept: Path, parts: Path)
    requires forall i | 0 <= i < |kept| :: ValidName(kept[i])
    requires forall i | 0 <= i < |parts| :: '/' !in parts[i]
    ensures StartsUp(CleanOnto(kept, parts, false)) <==> Leaves(parts, |kept|)
    ensures !Leaves(parts, |kept|) ==> |CleanOnto(kept, parts, false)| == |kept| + Level(parts)
    ensures !Leaves(parts, |kept|) ==>
              forall i | 0 <= i < |CleanOnto(kept, parts, false)| :: ValidName(CleanOnto(kept, parts, false)[i])
    decreases parts
  {
    if parts != [] {
      var rest := parts[1..];
      if Weight(parts[0]) == 0 {
        CleanClimbs(kept, rest);
      } else if parts[0] != ".." {
        CleanClimbs(kept + [parts[0]], rest);
      } else if kept != [] {
        CleanClimbs(kept[..|kept| - 1], rest);
      } else {
        UpStays([".."], rest);
        assert kept + [".."] == [".."];
        assert Leaves(rest, -1);
      }
    }
  }

  lemma {:induction false} SplitHasNoSlash(s: string)
    ensures forall i | 0 <= i < |Split(s)| :: '/' !in Split(s)[i]
  {
    if s != "" {
      SplitHasNoSlash(s[1..]);
    }
  }

  /**
   The entry names that are accepted, decided without cleaning: relative, never above the root on the
   way, and not the root itself. What is accepted is a path below the root.
   */
  lemma SafePathExact(name: string)
    ensures SafePath(name).Ok? <==> !Absolute(name) && !Leaves(Split(name), 0) && Level(Split(name)) != 0
    ensures SafePath(name).Ok? ==> ValidPath(SafePath(name).value)
  {
    SplitHasNoSlash(name);
    if !Absolute(name) {
      CleanClimbs([], Split(name));
    }
  }

  lemma LinkAcceptedExact(target: string)
    ensures LinkAccepted(target) <==> !Absolute(target) && !Leaves(Split(target), 0)
  {
    SplitHasNoSlash(target);
    if !Absolute(target) {
      CleanClimbs([], Split(target));
    }
  }

  lemma {:induction false} CleanKeeps(kept: Path, parts: Path)
    requires forall i | 0 <= i < |parts| :: ValidName(parts[i])
    ensures CleanOnto(kept, parts, false) == kept + parts
    decreases parts
  {
    if parts != [] {
      CleanKeeps(kept + [parts[0]], parts[1..]);
      assert kept + [parts[0]] + parts[1..] == kept + parts;
    }
  }

  lemma JoinedIsRelative(p: Path)
    requires ValidPath(p)
    ensures !Absolute(Join(p))
  {
    assert ValidName(p[0]);
    assert Join(p)[0] == p[0][0] && p[0][0] in p[0];
  }

  /** A path that a walk reports is accepted as it stands. */
  lemma SafePathJoined(p: Path)
    requires ValidPath(p)
    ensures SafePath(Join(p)) == Ok(p)
  {
    SplitJoined(p);
    JoinedIsRelative(p);
    CleanKeeps([], p);
    assert [] + p == p && ValidName(p[0]);
  }

  // ----- Trees

  function NodeOf(t: Tree): Node {
    match t
    case Dir(_) => DirNode
    case File(d) => FileNode(d)
    case Link(to) => LinkNode(to)
  }

  /** The node at a path. */
  function Find(f: Forest, p: Path): Option<Node> {
    match f
    case Nil => None
    case Cons(n, t, rest) =>
      if p == [] then None
      else if p[0] != n then Find(rest, p)
      else if |p| == 1 then Some(NodeOf(t))
      else if t.Dir? then Find(t.entries, p[1..])
      else None
  }

  /** Valid names, ascending in every directory. */
  ghost predicate Proper(f: Forest) {
    match f
    case Nil => true
    case Cons(n, t, rest) =>
      ValidName(n) && (rest.Nil? || Less(n, rest.name)) && Proper(rest) && (t.Dir? ==> Proper(t.entries))
  }

  lemma {:induction false} NameFresh(f: Forest, n: string, p: Path)
    requires Proper(f) && (f.Cons? ==> Less(n, f.name))
    requires p != [] && p[0] == n
    ensures Find(f, p) == None
  {
    if f.Cons? {
      LessIrreflexive(n);
      if f.rest.Cons? {
        LessTransitive(n, f.name, f.rest.name);
      }
      NameFresh(f.rest, n, p);
    }
  }

  lemma {:induction false} FoundValid(f: Forest, p: Path)
    requires Proper(f) && Find(f, p).Some?
    ensures ValidPath(p)
  {
    if p[0] != f.name {
      FoundValid(f.rest, p);
    } else if |p| > 1 {
      FoundValid(f.tree.entries, p[1..]);
      forall i | 0 <= i < |p|
        ensures ValidName(p[i])
      {
        assert i > 0 ==> p[i] == p[1..][i - 1];
      }
    }
  }

  /** What `filepath.Walk` and `filepath.WalkDir` visit below the directory `at`: each directory before its entries. */
  function Walk(f: Forest, at: Path): seq<Visit> {
    match f
    case Nil => []
    case Cons(n, t, rest) => WalkTree(t, at + [n]) + Walk(rest, at)
  }

  function WalkTree(t: Tree, path: Path): seq<Visit> {
    [Visit(path, NodeOf(t))] + if t.Dir? then Walk(t.entries, path) else []
  }

  /** A walk visits exactly the paths that are there. */
  lemma {:induction false} WalkVisits(f: Forest, at: Path, v: Visit)
    requires Proper(f)
    ensures v in Walk(f, at) <==> |at| <= |v.path| && v.path[..|at|] == at && Find(f, v.path[|at|..]) == Some(v.node)
  {
    if f.Cons? {
      var path, below := at + [f.name], v.path[if |at| <= |v.path| then |at| else 0..];
      WalkVisits(f.rest, at, v);
      if f.tree.Dir? {
        WalkVisits(f.tree.entries, path, v);
      }
      if |at| < |v.path| && v.path[..|at|] == at {
        if below[0] == f.name {
          NameFresh(f.rest, f.name, below);
          assert v.path[..|path|] == path;
          assert v.path[|path|..] == below[1..];
          assert |below| == 1 ==> v.path == path;
        }
      }
      assert v in Walk(f, at) <==>
             || v == Visit(path, NodeOf(f.tree))
             || (f.tree.Dir? && v in Walk(f.tree.entries, path))
             || v in Walk(f.rest, at);
      if |path| <= |v.path| && v.path[..|path|] == path {
        assert v.path[..|at|] == path[..|at|] == at;
        assert below[0] == v.path[|at|] == path[|at|];
      }
    }
  }

  // ----- Writing a tree

  function Get(d: Disk, p: Path): Option<Node> {
    if p in d then Some(d[p]) else None
  }

  /** `os.MkdirAll`: directories that exist are left alone, anything else in the way is an error. */
  function MkdirAll(d: Disk, p: Path): Result<Disk> {
    if p == [] || Get(d, p) == Some(DirNode) then Ok(d)
    else if p in d then Err
    else
      var above := MkdirAll(d, p[..|p| - 1]);
      if above.Err? then Err else Ok(above.value[p := DirNode])
  }

  /** A directory is made unless it is there; a file or a link must not be there yet. */
  function Place(d: Disk, p: Path, n: Node): Result<Disk>
    requires p != []
  {
    if n.DirNode? then MkdirAll(d, p)
    else
      var above := MkdirAll(d, p[..|p| - 1]);
      if above.Err? || p in above.value then Err else Ok(above.value[p := n])
  }

  predicate Placeable(vs: seq<Visit>) {
    forall i | 0 <= i < |vs| :: vs[i].path != []
  }

  function PlaceAll(d: Disk, vs: seq<Visit>): Result<Disk>
    requires Placeable(vs)
    decreases vs
  {
    if vs == [] then Ok(d)
    else
      var r := Place(d, vs[0].path, vs[0].node);
      if r.Err? then Err else PlaceAll(r.value, vs[1..])
  }

  lemma {:induction false} PlaceAllConcat(d: Disk, a: seq<Visit>, b: seq<Visit>)
    requires Placeable(a) && Placeable(b)
    ensures PlaceAll(d, a + b) ==
            var r := PlaceAll(d, a); if r.Err? then Err else PlaceAll(r.value, b)
    decreases a
  {
    if a == [] {
      assert a + b == b;
    } else {
      var r := Place(d, a[0].path, a[0].node);
      assert (a + b)[1..] == a[1..] + b;
      if r.Ok? {
        PlaceAllConcat(r.value, a[1..], b);
      }
    }
  }

  lemma {:induction false} WalkPlaceable(f: Forest, at: Path)
    ensures Placeable(Walk(f, at))
  {
    if f.Cons? {
      WalkPlaceable(f.rest, at);
      if f.tree.Dir? {
        WalkPlaceable(f.tree.entries, at + [f.name]);
      }
    }
  }

  /** `after` is `before` with the forest added below `at`, and nothing else. */
  ghost predicate Grown(before: Disk, after: Disk, f: Forest, at: Path) {
    forall p :: Get(after, p) == GrownAt(before, f, at, p)
  }

  function GrownAt(before: Disk, f: Forest, at: Path, p: Path): Option<Node> {
    if |at| <= |p| && p[..|at|] == at && Find(f, p[|at|..]).Some? then Find(f, p[|at|..]) else Get(before, p)
  }

  ghost predicate Vacant(d: Disk, f: Forest, at: Path) {
    forall q | Find(f, q).Some? :: at + q !in d
  }

  predicate IsDirectory(d: Disk, p: Path) {
    p == [] || Get(d, p) == Some(DirNode)
  }

  /** Replaying the visits of a walk adds exactly the tree, with no path in the way of another. */
  lemma {:induction false} WalkPlaces(d: Disk, f: Forest, at: Path)
    requires Proper(f) && IsDirectory(d, at) && Vacant(d, f, at)
    ensures Placeable(Walk(f, at)) && PlaceAll(d, Walk(f, at)).Ok?
    ensures Grown(d, PlaceAll(d, Walk(f, at)).value, f, at)
    decreases f, 1
  {
    WalkPlaceable(f, at);
    if f.Cons? {
      var own := WalkTree(f.tree, at + [f.name]);
      WalkPlaceable(f.rest, at);
      TreePlaces(d, f, at);
      PlaceAllConcat(d, own, Walk(f.rest, at));
      var d2 := PlaceAll(d, own).value;
      assert GrownByFirst(d, d2, f, at);
      RestVacant(d, d2, f, at);
      WalkPlaces(d2, f.rest, at);
      var d3 := PlaceAll(d2, Walk(f.rest, at)).value;
      forall p
        ensures Get(d3, p) == GrownAt(d, f, at, p)
      {
        assert Get(d3, p) == GrownAt(d2, f.rest, at, p);
        assert Get(d2, p) == FirstAt(d, f, at, p);
        if |at| < |p| && p[|at|] == f.name && p[..|at|] == at {
          NameFresh(f.rest, f.name, p[|at|..]);
        }
      }
    }
  }

  /** As `GrownAt`, for the first tree of the forest alone. */
  function FirstAt(before: Disk, f: Forest, at: Path, p: Path): Option<Node>
    requires f.Cons?
  {
    if |at| < |p| && p[..|at|] == at && p[|at|] == f.name && Find(f, p[|at|..]).Some?
    then Find(f, p[|at|..]) else Get(before, p)
  }

  ghost predicate GrownByFirst(before: Disk, after: Disk, f: Forest, at: Path)
    requires f.Cons?
  {
    forall p :: Get(after, p) == FirstAt(before, f, at, p)
  }

  lemma {:induction false} TreePlaces(d: Disk, f: Forest, at: Path)
    requires f.Cons? && Proper(f) && IsDirectory(d, at) && Vacant(d, f, at)
    ensures Placeable(WalkTree(f.tree, at + [f.name])) && PlaceAll(d, WalkTree(f.tree, at + [f.name])).Ok?
    ensures GrownByFirst(d, PlaceAll(d, WalkTree(f.tree, at + [f.name])).value, f, at)
    decreases f, 0
  {
    var path := at + [f.name];
    var node := NodeOf(f.tree);
    assert Find(f, [f.name]).Some?;
    assert path[..|path| - 1] == at;
    var d1 := d[path := node];
    assert path !in d && MkdirAll(d, at) == Ok(d);
    assert Place(d, path, node) == Ok(d1);
    var vs := WalkTree(f.tree, path);
    if f.tree.Dir? {
      var es := f.tree.entries;
      assert vs[1..] == Walk(es, path);
      forall q | Find(es, q).Some?
        ensures path + q !in d1
      {
        assert Find(f, [f.name] + q) == Find(es, q) by {
          assert ([f.name] + q)[1..] == q;
        }
        assert at + ([f.name] + q) == path + q;
        assert q != [];
      }
      WalkPlaces(d1, es, path);
      FirstGrown(d, d1, PlaceAll(d1, Walk(es, path)).value, f, at);
    } else {
      assert vs[1..] == [];
      forall p
        ensures Get(d1, p) == FirstAt(d, f, at, p)
      {
        if |at| < |p| && p[..|at|] == at && p[|at|] == f.name {
          assert |p| == |path| ==> p == path;
          assert p[|at|..][0] == f.name;
        }
      }
    }
  }

  lemma FirstGrown(d: Disk, d1: Disk, d2: Disk, f: Forest, at: Path)
    requires f.Cons? && f.tree.Dir? && d1 == d[at + [f.name] := DirNode]
    requires Grown(d1, d2, f.tree.entries, at + [f.name])
    ensures GrownByFirst(d, d2, f, at)
  {
    var path := at + [f.name];
    forall p
      ensures Get(d2, p) == FirstAt(d, f, at, p)
    {
      assert Get(d2, p) == GrownAt(d1, f.tree.entries, path, p);
      if |at| < |p| && p[..|at|] == at && p[|at|] == f.name {
        assert p[..|path|] == path;
        assert p[|at|..][0] == f.name && p[|at|..][1..] == p[|path|..];
        assert |p| == |path| ==> p == path;
        assert p[|path|..] == [] ==> |p| == |path|;
        assert Find(f.tree.entries, []) == None;
      } else {
        NotBelow(at, f.name, p);
      }
    }
  }

  lemma NotBelow(at: Path, name: string, p: Path)
    requires !(|at| < |p| && p[..|at|] == at && p[|at|] == name)
    ensures |at| < |p| ==> p[..|at| + 1] != at + [name]
  {
    if |at| < |p| {
      var q := p[..|at| + 1];
      assert q[..|at|] == p[..|at|] && q[|at|] == p[|at|];
      assert (at + [name])[..|at|] == at && (at + [name])[|at|] == name;
    }
  }

  lemma RestVacant(d: Disk, d2: Disk, f: Forest, at: Path)
    requires f.Cons? && Proper(f) && IsDirectory(d, at) && Vacant(d, f, at) && GrownByFirst(d, d2, f, at)
    ensures IsDirectory(d2, at) && Vacant(d2, f.rest, at)
  {
    assert Get(d2, at) == FirstAt(d, f, at, at);
    forall q | Find(f.rest, q).Some?
      ensures at + q !in d2
    {
      if q[0] == f.name {
        NameFresh(f.rest, f.name, q);
      }
      assert Find(f, q) == Find(f.rest, q);
      assert (at + q)[|at|] == q[0];
      assert Get(d2, at + q) == FirstAt(d, f, at, at + q);
    }
  }

  // ----- Copying, archiving and extracting

  /** `copyTree`: links and files are created exclusively, directories as needed. */
  method CopyTree(d: Disk, vs: seq<Visit>) returns (s: Status, made: Disk)
    requires Placeable(vs)
    ensures PlaceAll(d, vs) == if s.Done? then Ok(made) else Err
  {
    made := d;
    for i := 0 to |vs|
      invariant PlaceAll(d, vs) == PlaceAll(made, vs[i..])
    {
      var r := Place(made, vs[i].path, vs[i].node);
      assert vs[i..][1..] == vs[i + 1..];
      if r.Err? {
        return Failed, made;
      }
      made := r.value;
    }
    s := Done;
  }

  function HeaderOf(v: Visit): Header {
    Header(Join(v.path), v.node)
  }

  function HeadersOf(vs: seq<Visit>): (hs: seq<Header>)
    ensures |hs| == |vs|
  {
    seq(|vs|, i requires 0 <= i < |vs| => HeaderOf(vs[i]))
  }

  method Archive(f: Forest) returns (hs: seq<Header>)
    ensures hs == HeadersOf(Walk(f, []))
  {
    var vs := Walk(f, []);
    hs := [];
    for i := 0 to |vs|
      invariant hs == HeadersOf(vs[..i])
    {
      hs := hs + [Header(Join(vs[i].path), vs[i].node)];
    }
    assert vs[..|vs|] == vs;
  }

  function Unpack(d: Disk, h: Header): Result<Disk> {
    var path := SafePath(h.name);
    if path.Err? || (h.node.LinkNode? && !LinkAccepted(h.node.target)) then Err
    else Place(d, path.value, h.node)
  }

  function UnpackAll(d: Disk, hs: seq<Header>): Result<Disk>
    decreases hs
  {
    if hs == [] then Ok(d)
    else
      var r := Unpack(d, hs[0]);
      if r.Err? then Err else UnpackAll(r.value, hs[1..])
  }

  method Extract(hs: seq<Header>) returns (s: Status, made: Disk)
    ensures UnpackAll(map[], hs) == if s.Done? then Ok(made) else Err
  {
    made := map[];
    for i := 0 to |hs|
      invariant UnpackAll(map[], hs) == UnpackAll(made, hs[i..])
    {
      var h := hs[i];
      assert hs[i..][1..] == hs[i + 1..];
      var path := SafePath(h.name);
      if path.Err? {
        return Failed, made;
      }
      if h.node.LinkNode? && !LinkAccepted(h.node.target) {
        return Failed, made;
      }
      SafePathExact(h.name);
      var r := Place(made, path.value, h.node);
      if r.Err? {
        return Failed, made;
      }
      made := r.value;
    }
    s := Done;
  }

  predicate LinksAccepted(vs: seq<Visit>) {
    forall i | 0 <= i < |vs| && vs[i].node.LinkNode? :: LinkAccepted(vs[i].node.target)
  }

  predicate PathsValid(vs: seq<Visit>) {
    forall i | 0 <= i < |vs| :: ValidPath(vs[i].path)
  }

  /** Unpacking what a walk archived places the same nodes, unless a link is refused. */
  lemma {:induction false} UnpackIsPlace(d: Disk, vs: seq<Visit>)
    requires PathsValid(vs) && Placeable(vs)
    ensures LinksAccepted(vs) ==> UnpackAll(d, HeadersOf(vs)) == PlaceAll(d, vs)
    ensures !LinksAccepted(vs) ==> UnpackAll(d, HeadersOf(vs)).Err?
    decreases vs
  {
    if vs != [] {
      SafePathJoined(vs[0].path);
      assert HeadersOf(vs)[1..] == HeadersOf(vs[1..]);
      var r := Place(d, vs[0].path, vs[0].node);
      if r.Ok? {
        UnpackIsPlace(r.value, vs[1..]);
      }
      assert LinksAccepted(vs) ==> LinksAccepted(vs[1..]);
      assert forall i | 0 < i < |vs| :: vs[i] == vs[1..][i - 1];
    }
  }

  /** The disk holds the tree and nothing else. */
  ghost predicate Holds(d: Disk, f: Forest) {
    forall p :: Get(d, p) == Find(f, p)
  }

  /** Every link of the tree, walked from the root, stays inside: the link's own place plays no part. */
  ghost predicate LinksStayBelow(f: Forest) {
    forall p | Find(f, p).Some? && Find(f, p).value.LinkNode? ::
      var to := Find(f, p).value.target;
      !Absolute(to) && !Leaves(Split(to), 0)
  }

  lemma WalkIsValid(f: Forest)
    requires Proper(f)
    ensures PathsValid(Walk(f, [])) && Placeable(Walk(f, []))
    ensures LinksAccepted(Walk(f, [])) <==> LinksStayBelow(f)
  {
    var vs := Walk(f, []);
    forall i | 0 <= i < |vs|
      ensures Find(f, vs[i].path) == Some(vs[i].node)
      ensures ValidPath(vs[i].path)
      ensures vs[i].node.LinkNode? ==>
                (LinkAccepted(vs[i].node.target) <==>
                 !Absolute(vs[i].node.target) && !Leaves(Split(vs[i].node.target), 0))
    {
      assert vs[i] in vs && vs[i].path[0..] == vs[i].path;
      WalkVisits(f, [], vs[i]);
      FoundValid(f, vs[i].path);
      if vs[i].node.LinkNode? {
        LinkAcceptedExact(vs[i].node.target);
      }
    }
    if LinksAccepted(vs) {
      forall p | Find(f, p).Some? && Find(f, p).value.LinkNode?
        ensures var to := Find(f, p).value.target; !Absolute(to) && !Leaves(Split(to), 0)
      {
        var v := Visit(p, Find(f, p).value);
        assert p[0..] == p && p[..0] == [];
        WalkVisits(f, [], v);
        LinkAcceptedExact(v.node.target);
      }
    }
  }

  lemma WalkHeld(f: Forest)
    requires Proper(f)
    ensures Placeable(Walk(f, [])) && PlaceAll(map[], Walk(f, [])).Ok?
    ensures Holds(PlaceAll(map[], Walk(f, [])).value, f)
  {
    WalkPlaces(map[], f, []);
    forall p
      ensures Get(PlaceAll(map[], Walk(f, [])).value, p) == Find(f, p)
    {
      assert p[0..] == p && p[..0] == [];
      assert Get(PlaceAll(map[], Walk(f, [])).value, p) == GrownAt(map[], f, [], p);
    }
  }

  /**
   Extracting the archive of a tree gives the tree back, exactly when every link, read from the root,
   stays inside; otherwise the extraction fails.
   */
  lemma ArchiveRoundTrip(f: Forest)
    requires Proper(f)
    ensures UnpackAll(map[], HeadersOf(Walk(f, []))).Ok? <==> LinksStayBelow(f)
    ensures LinksStayBelow(f) ==> Holds(UnpackAll(map[], HeadersOf(Walk(f, []))).value, f)
  {
    WalkIsValid(f);
    WalkHeld(f);
    UnpackIsPlace(map[], Walk(f, []));
  }

  /** A link at `p` whose target, walked from the directory of the link, stays in the tree. */
  predicate InTree(p: Path, target: string)
    requires p != []
  {
    !Absolute(target) && !Leaves(Split(target), |p| - 1)
  }

  lemma UpTarget()
    ensures Split("../a") == ["..", "a"]
    ensures Leaves(Split("../a"), 0) && !Leaves(Split("../a"), 1) && !Absolute("../a")
  {
    SplitAtSlash("..", "a");
    SplitPlain("a");
    assert ".." + "/" + "a" == "../a";
    assert ["..", "a"][1..] == ["a"] && ["a"][1..] == [];
    assert Leaves(["a"], -1) && !Leaves([], 1) && !Leaves(["a"], 0);
  }

  lemma OnlyLink(f: Forest, p: Path)
    requires f == Cons("a", File(""), Cons("b", Dir(Cons("l", Link("../a"), Nil)), Nil))
    requires Find(f, p).Some? && Find(f, p).value.LinkNode?
    ensures |p| == 2 && Find(f, p).value.target == "../a"
  {
    assert Find(f, p) == Find(f.rest, p) && Find(f.rest.rest, p) == None;
    var es := f.rest.tree.entries;
    assert Find(f.rest, p) == Find(es, p[1..]) && Find(es.rest, p[1..]) == None;
  }

  /** A link to a file one directory up stays in the tree, yet its archive cannot be extracted. */
  lemma InTreeLinkRefused() returns (f: Forest)
    ensures Proper(f)
    ensures forall p | Find(f, p).Some? && Find(f, p).value.LinkNode? :: p != [] && InTree(p, Find(f, p).value.target)
    ensures UnpackAll(map[], HeadersOf(Walk(f, []))).Err?
  {
    f := Cons("a", File(""), Cons("b", Dir(Cons("l", Link("../a"), Nil)), Nil));
    assert SmallerAt("a", "b", 0);
    UpTarget();
    forall p | Find(f, p).Some? && Find(f, p).value.LinkNode?
      ensures p != [] && InTree(p, Find(f, p).value.target)
    {
      OnlyLink(f, p);
    }
    assert ["b", "l"][1..] == ["l"];
    assert Find(f.rest, ["b", "l"]) == Some(LinkNode("../a"));
    assert Find(f, ["b", "l"]).value.target == "../a";
    ArchiveRoundTrip(f);
  }

  // ----- The manifest

  /** What `digestPath` feeds to the hash. */
  function DigestOf(n: Node): string
    requires !n.DirNode?
  {
    if n.LinkNode? then "symlink:" + n.target else n.data
  }

  /** A link and a regular file that holds what the link's digest is computed from. */
  predicate Alias(a: Node, b: Node) {
    || (a.LinkNode? && b.FileNode? && b.data == "symlink:" + a.target)
    || (b.LinkNode? && a.FileNode? && a.data == "symlink:" + b.target)
  }

  lemma DigestsCollide(a: Node, b: Node)
    requires !a.DirNode? && !b.DirNode?
    ensures DigestOf(a) == DigestOf(b) <==> a == b || Alias(a, b)
  {
    if a.LinkNode? && b.LinkNode? {
      assert DigestOf(a)[8..] == a.target && DigestOf(b)[8..] == b.target;
    }
  }

  /** `files` lists every file and link of the tree under its joined path, and nothing else. */
  ghost predicate Describes(files: map<string, string>, f: Forest) {
    && (forall p | Entry(f, p) :: Join(p) in files && files[Join(p)] == DigestOf(Find(f, p).value))
    && (forall name | name in files :: exists p :: Entry(f, p) && Join(p) == name)
  }

  predicate Entry(f: Forest, p: Path) {
    Find(f, p).Some? && !Find(f, p).value.DirNode?
  }

  lemma JoinInjective(p: Path, q: Path)
    requires ValidPath(p) && ValidPath(q) && Join(p) == Join(q)
    ensures p == q
  {
    SplitJoined(p);
    SplitJoined(q);
  }

  /** `files` records the files and links among the visits. */
  ghost predicate Records(files: map<string, string>, vs: seq<Visit>) {
    && (forall v | v in vs && !v.node.DirNode? :: Join(v.path) in files && files[Join(v.path)] == DigestOf(v.node))
    && (forall name | name in files :: exists v :: v in vs && !v.node.DirNode? && Join(v.path) == name)
  }

  lemma RecordNone(files: map<string, string>, done: seq<Visit>, next: Visit)
    requires Records(files, done) && next.node.DirNode?
    ensures Records(files, done + [next])
  {
    forall name | name in files
      ensures exists v :: v in done + [next] && !v.node.DirNode? && Join(v.path) == name
    {
      var v :| v in done && !v.node.DirNode? && Join(v.path) == name;
      assert v in done + [next];
    }
  }

  lemma RecordOne(files: map<string, string>, done: seq<Visit>, next: Visit)
    requires Records(files, done) && !next.node.DirNode?
    requires forall v | v in done && Join(v.path) == Join(next.path) :: v == next
    ensures Records(files[Join(next.path) := DigestOf(next.node)], done + [next])
  {
    var more := files[Join(next.path) := DigestOf(next.node)];
    forall name | name in more
      ensures exists v :: v in done + [next] && !v.node.DirNode? && Join(v.path) == name
    {
      if name == Join(next.path) {
        assert next in done + [next];
      } else {
        var v :| v in done && !v.node.DirNode? && Join(v.path) == name;
        assert v in done + [next];
      }
    }
  }

  lemma RecordNext(f: Forest, vs: seq<Visit>, i: nat, files: map<string, string>)
    requires Proper(f) && vs == Walk(f, []) && i < |vs| && Records(files, vs[..i])
    ensures vs[i].node.DirNode? ==> Records(files, vs[..i + 1])
    ensures !vs[i].node.DirNode? ==> Records(files[Join(vs[i].path) := DigestOf(vs[i].node)], vs[..i + 1])
  {
    var next := vs[i];
    assert vs[..i + 1] == vs[..i] + [next];
    VisitFound(f, vs, i);
    if next.node.DirNode? {
      RecordNone(files, vs[..i], next);
    } else {
      forall v | v in vs[..i] && Join(v.path) == Join(next.path)
        ensures v == next
      {
        var j :| 0 <= j < i && vs[j] == v;
        VisitFound(f, vs, j);
        JoinInjective(v.path, next.path);
      }
      RecordOne(files, vs[..i], next);
    }
  }

  lemma RecordsDescribe(f: Forest, files: map<string, string>)
    requires Proper(f) && Records(files, Walk(f, []))
    ensures Describes(files, f)
  {
    var vs := Walk(f, []);
    forall p | Entry(f, p)
      ensures Join(p) in files && files[Join(p)] == DigestOf(Find(f, p).value)
    {
      assert p[0..] == p && p[..0] == [];
      var v := Visit(p, Find(f, p).value);
      WalkVisits(f, [], v);
      assert v in vs;
    }
    forall name | name in files
      ensures exists p :: Entry(f, p) && Join(p) == name
    {
      var v :| v in vs && !v.node.DirNode? && Join(v.path) == name;
      var i :| 0 <= i < |vs| && vs[i] == v;
      VisitFound(f, vs, i);
      assert Entry(f, v.path);
    }
  }

  /** The walk of `Create` that fills the manifest. */
  method ListFiles(f: Forest) returns (files: map<string, string>)
    requires Proper(f)
    ensures Describes(files, f)
  {
    var vs := Walk(f, []);
    files := map[];
    for i := 0 to |vs|
      invariant Records(files, vs[..i])
    {
      RecordNext(f, vs, i, files);
      if !vs[i].node.DirNode? {
        files := files[Join(vs[i].path) := DigestOf(vs[i].node)];
      }
    }
    assert vs[..|vs|] == vs;
    RecordsDescribe(f, files);
  }

  lemma VisitFound(f: Forest, vs: seq<Visit>, i: nat)
    requires Proper(f) && vs == Walk(f, []) && i < |vs|
    ensures Find(f, vs[i].path) == Some(vs[i].node) && ValidPath(vs[i].path)
  {
    assert vs[i] in vs && vs[i].path[0..] == vs[i].path;
    WalkVisits(f, [], vs[i]);
    FoundValid(f, vs[i].path);
  }

  /** What `Lstat`, `Readlink` and reading report for each path below a root. */
  type View = Path -> Option<Node>

  function ViewOf(d: Disk): View {
    p => Get(d, p)
  }

  predicate DigestIs(node: Option<Node>, want: string) {
    node.Some? && !node.value.DirNode? && DigestOf(node.value) == want
  }

  function ReadManifest(seen: View, json: Json): Option<Manifest> {
    var doc := seen([ManifestName]);
    if doc.Some? && doc.value.FileNode? then json.decode(doc.value.data) else None
  }

  predicate Matches(seen: View, name: string, want: string) {
    SafePath(name).Ok? && DigestIs(seen(SafePath(name).value), want)
  }

  predicate Verified(seen: View, json: Json) {
    var m := ReadManifest(seen, json);
    m.Some? && m.value.format == 1 && forall name | name in m.value.files :: Matches(seen, name, m.value.files[name])
  }

  method VerifyDir(seen: View, json: Json) returns (r: Result<Manifest>)
    ensures r.Ok? <==> Verified(seen, json)
    ensures r.Ok? ==> ReadManifest(seen, json) == Some(r.value)
  {
    var m := ReadManifest(seen, json);
    if m.None? {
      return Err;
    }
    if m.value.format != 1 {
      return Err;
    }
    var left := m.value.files.Keys;
    while left != {}
      invariant left <= m.value.files.Keys
      invariant forall name | name in m.value.files && name !in left :: Matches(seen, name, m.value.files[name])
      decreases left
    {
      var name :| name in left;
      var path := SafePath(name);
      if path.Err? {
        return Err;
      }
      if !DigestIs(seen(path.value), m.value.files[name]) {
        return Err;
      }
      left := left - {name};
    }
    r := Ok(m.value);
  }

  /**
   With the manifest of a tree in place, the check passes exactly when every listed entry is there and
   is the one listed, or is its alias.
   */
  lemma TamperingFound(f: Forest, files: map<string, string>, seen: View, json: Json)
    requires Proper(f) && Describes(files, f)
    requires ReadManifest(seen, json) == Some(Manifest(1, files))
    ensures Verified(seen, json) <==>
            forall p | Entry(f, p) :: seen(p).Some? && !seen(p).value.DirNode? &&
                                      (seen(p) == Find(f, p) || Alias(seen(p).value, Find(f, p).value))
  {
    forall p | Entry(f, p)
      ensures Matches(seen, Join(p), files[Join(p)]) <==>
              seen(p).Some? && !seen(p).value.DirNode? &&
                (seen(p) == Find(f, p) || Alias(seen(p).value, Find(f, p).value))
    {
      FoundValid(f, p);
      SafePathJoined(p);
      if seen(p).Some? && !seen(p).value.DirNode? {
        DigestsCollide(seen(p).value, Find(f, p).value);
      }
    }
    assert forall p | Entry(f, p) :: Join(p) in files;
  }

  /** A listed link replaced by a file that spells out its digest input is not noticed. */
  lemma SwappedLinkPasses(target: string, json: Json) returns (f: Forest, files: map<string, string>, d: Disk)
    requires Faithful(json)
    ensures Proper(f) && Describes(files, f) && ReadManifest(ViewOf(d), json) == Some(Manifest(1, files))
    ensures Find(f, ["current"]) == Some(LinkNode(target))
    ensures Get(d, ["current"]) == Some(FileNode("symlink:" + target))
    ensures Verified(ViewOf(d), json)
  {
    f := Cons("current", Link(target), Nil);
    files := map["current" := "symlink:" + target];
    d := map[["current"] := FileNode("symlink:" + target),
             [ManifestName] := FileNode(json.encode(Manifest(1, files)))];
    assert ["current"][0][0] != [ManifestName][0][0];
    forall p | Entry(f, p)
      ensures p == ["current"]
    {
      assert Find(f.rest, p) == None;
    }
    assert Entry(f, ["current"]) && Join(["current"]) == "current";
    TamperingFound(f, files, ViewOf(d), json);
  }

  /** Decoding a marshalled manifest gives it back. */
  ghost predicate Faithful(json: Json) {
    forall m :: json.decode(json.encode(m)) == Some(m)
  }

  // ----- Creating a backup

  function TreeAt(f: Forest, n: string): Option<Tree> {
    match f
    case Nil => None
    case Cons(m, t, rest) => if m == n then Some(t) else TreeAt(rest, n)
  }

  lemma {:induction false} TreeFound(f: Forest, p: Path)
    requires Proper(f) && p != []
    ensures TreeAt(f, p[0]).None? ==> Find(f, p) == None
    ensures TreeAt(f, p[0]).Some? ==>
              var t := TreeAt(f, p[0]).value;
              && ValidName(p[0]) && (t.Dir? ==> Proper(t.entries))
              && Find(f, p) == Find(Cons(p[0], t, Nil), p)
  {
    if f.Cons? && f.name != p[0] {
      TreeFound(f.rest, p);
    }
  }

  /** The directory after a new entry appeared, in the order of a walk. */
  function Insert(f: Forest, n: string, t: Tree): Forest
    decreases f
  {
    if f.Nil? || Less(n, f.name) then Cons(n, t, f) else Cons(f.name, f.tree, Insert(f.rest, n, t))
  }

  lemma {:induction false} Inserted(f: Forest, n: string, t: Tree)
    requires Proper(f) && ValidName(n) && TreeAt(f, n).None? && (t.Dir? ==> Proper(t.entries))
    ensures Proper(Insert(f, n, t))
    ensures forall p :: Find(Insert(f, n, t), p) ==
                        if p != [] && p[0] == n then Find(Cons(n, t, Nil), p) else Find(f, p)
    decreases f
  {
    if f.Cons? {
      LessTotal(n, f.name);
      Inserted(f.rest, n, t);
    }
    forall p
      ensures Find(Insert(f, n, t), p) == if p != [] && p[0] == n then Find(Cons(n, t, Nil), p) else Find(f, p)
    {
      assert Find(Nil, p) == None;
    }
  }

  /** One entry more in the working directory. */
  method Add(d: Disk, f: Forest, n: string, t: Tree) returns (made: Disk, grown: Forest)
    requires Proper(f) && Holds(d, f) && ValidName(n) && TreeAt(f, n).None? && (t.Dir? ==> Proper(t.entries))
    ensures Proper(grown) && Holds(made, grown) && grown == Insert(f, n, t)
  {
    var single := Cons(n, t, Nil);
    assert Walk(single, []) == WalkTree(t, [n]) by {
      assert [] + [n] == [n] && WalkTree(t, [n]) + [] == WalkTree(t, [n]);
    }
    forall q | Find(single, q).Some?
      ensures [] + q !in d
    {
      assert Find(Nil, q) == None && [] + q == q;
      TreeFound(f, q);
      assert Get(d, q) == Find(f, q);
    }
    WalkPlaces(d, single, []);
    var s;
    s, made := CopyTree(d, WalkTree(t, [n]));
    grown := Insert(f, n, t);
    Inserted(f, n, t);
    forall p
      ensures Get(made, p) == Find(grown, p)
    {
      assert p[0..] == p && p[..0] == [];
      assert Get(made, p) == GrownAt(d, single, [], p);
      assert Get(d, p) == Find(f, p) && Find(Nil, p) == None;
      if p != [] {
        TreeFound(f, p);
      }
    }
  }

  /** What the working directory holds before the manifest: the database and the first `n` included trees. */
  function StagedAt(database: string, data: Forest, n: nat, p: Path): Option<Node>
    requires n <= |Included|
  {
    if p == [] then None
    else if p[0] == DatabaseName then (if |p| == 1 then Some(FileNode(database)) else None)
    else if p[0] in Included[..n] then Find(data, p)
    else None
  }

  ghost predicate Staged(work: Forest, database: string, data: Forest, n: nat)
    requires n <= |Included|
  {
    Proper(work) && forall p :: Find(work, p) == StagedAt(database, data, n, p)
  }

  lemma NamesDiffer(i: nat)
    requires i < |Included|
    ensures Included[i] != DatabaseName && Included[i] != ManifestName && DatabaseName != ManifestName
    ensures ValidName(Included[i]) && Included[i] !in Included[..i]
  {
    assert |DatabaseName| == 13 && |ManifestName| == 20;
    assert |Included[0]| == 6 && |Included[1]| == 3 && |Included[2]| == 4 && |Included[3]| == 9;
  }

  lemma StageNext(work: Forest, database: string, data: Forest, n: nat)
    requires Proper(data) && n < |Included| && Staged(work, database, data, n)
    ensures TreeAt(work, Included[n]).None?
    ensures var t := TreeAt(data, Included[n]);
            if t.None? then Staged(work, database, data, n + 1)
            else ValidName(Included[n]) && (t.value.Dir? ==> Proper(t.value.entries)) &&
                 Staged(Insert(work, Included[n], t.value), database, data, n + 1)
  {
    var name := Included[n];
    var t := TreeAt(data, name);
    NamesDiffer(n);
    assert Find(work, [name]) == StagedAt(database, data, n, [name]);
    TreeFound(work, [name]);
    TreeFound(data, [name]);
    assert Included[..n + 1] == Included[..n] + [name];
    var next := if t.None? then work else Insert(work, name, t.value);
    if t.Some? {
      Inserted(work, name, t.value);
    }
    forall p
      ensures Find(next, p) == StagedAt(database, data, n + 1, p)
    {
      assert Find(work, p) == StagedAt(database, data, n, p);
      if p != [] && p[0] == name {
        TreeFound(data, p);
      }
    }
  }

  /**
   The stages of `Create`, with the database as the online copy gives it. `work` is the working
   directory before the manifest; nothing collides on the way.
   */
  method Create(database: string, data: Forest, json: Json)
    returns (hs: seq<Header>, work: Forest, files: map<string, string>)
    requires Proper(data)
    ensures Staged(work, database, data, |Included|) && Describes(files, work)
    ensures hs == HeadersOf(Walk(Backup(work, files, json), []))
  {
    var made: Disk := map[];
    assert Find(Nil, []) == None && forall p :: Find(Nil, p) == None;
    made, work := Add(made, Nil, DatabaseName, File(database));
    assert Included[..0] == [];
    forall p
      ensures Find(work, p) == StagedAt(database, data, 0, p)
    {
      assert Find(Nil, p) == None;
    }
    for i := 0 to |Included|
      invariant Staged(work, database, data, i) && Holds(made, work)
    {
      StageNext(work, database, data, i);
      var t := TreeAt(data, Included[i]);
      if t.None? {
        continue;
      }
      made, work := Add(made, work, Included[i], t.value);
    }
    files := ListFiles(work);
    ManifestAbsent(work, database, data);
    var all;
    made, all := Add(made, work, ManifestName, File(json.encode(Manifest(1, files))));
    hs := Archive(all);
  }

  lemma ManifestAbsent(work: Forest, database: string, data: Forest)
    requires Staged(work, database, data, |Included|)
    ensures ValidName(ManifestName) && TreeAt(work, ManifestName).None?
    ensures ManifestName !in Included && ManifestName != DatabaseName
  {
    NamesDiffer(0);
    forall i: nat | i < |Included|
      ensures Included[i] != ManifestName
    {
      NamesDiffer(i);
    }
    assert Find(work, [ManifestName]) == StagedAt(database, data, |Included|, [ManifestName]);
    TreeFound(work, [ManifestName]);
  }

  /** The archived directory: the working directory and its manifest. */
  function Backup(work: Forest, files: map<string, string>, json: Json): Forest {
    Insert(work, ManifestName, File(json.encode(Manifest(1, files))))
  }

  /** The archived directory holds the staged entries and the manifest. */
  lemma BackupHolds(database: string, data: Forest, work: Forest, files: map<string, string>, json: Json)
    requires Staged(work, database, data, |Included|)
    ensures Proper(Backup(work, files, json))
    ensures forall p :: Find(Backup(work, files, json), p) ==
                        if p == [ManifestName] then Some(FileNode(json.encode(Manifest(1, files))))
                        else StagedAt(database, data, |Included|, p)
    ensures Included[..|Included|] == Included && DatabaseName !in Included && ManifestName !in Included
  {
    var doc := File(json.encode(Manifest(1, files)));
    ManifestAbsent(work, database, data);
    Inserted(work, ManifestName, doc);
    forall p
      ensures Find(Insert(work, ManifestName, doc), p) ==
              if p == [ManifestName] then Some(NodeOf(doc)) else StagedAt(database, data, |Included|, p)
    {
      assert Find(Nil, p) == None && Find(work, p) == StagedAt(database, data, |Included|, p);
      assert p != [] && p[0] == ManifestName && |p| == 1 ==> p == [ManifestName];
    }
    forall i: nat | i < |Included|
      ensures Included[i] != DatabaseName
    {
      NamesDiffer(i);
    }
  }

  /** Links of the included trees, read from the root, stay inside. */
  ghost predicate IncludedLinksStayBelow(data: Forest) {
    forall p | p != [] && p[0] in Included && Find(data, p).Some? && Find(data, p).value.LinkNode? ::
      var to := Find(data, p).value.target;
      !Absolute(to) && !Leaves(Split(to), 0)
  }

  /**
   A fresh backup can be extracted exactly when the included links allow it. Then it passes its own
   check, and what is on disk is the database, the included trees and the manifest.
   */
  lemma FreshBackupRestores(database: string, data: Forest, work: Forest, files: map<string, string>, json: Json)
    requires Proper(data) && Faithful(json)
    requires Staged(work, database, data, |Included|) && Describes(files, work)
    ensures var out := UnpackAll(map[], HeadersOf(Walk(Backup(work, files, json), [])));
            && (out.Ok? <==> IncludedLinksStayBelow(data))
            && (out.Ok? ==> Verified(ViewOf(out.value), json) &&
                            forall p | p != [ManifestName] ::
                              Get(out.value, p) == StagedAt(database, data, |Included|, p))
  {
    var all := Backup(work, files, json);
    BackupHolds(database, data, work, files, json);
    LinksOfIncluded(database, data, all);
    ArchiveRoundTrip(all);
    if LinksStayBelow(all) {
      var d := UnpackAll(map[], HeadersOf(Walk(all, []))).value;
      assert Get(d, [ManifestName]) == Find(all, [ManifestName]);
      forall p | Entry(work, p)
        ensures Get(d, p) == Find(work, p)
      {
        assert Get(d, p) == Find(all, p);
        assert Find(work, p) == StagedAt(database, data, |Included|, p);
      }
      TamperingFound(work, files, ViewOf(d), json);
    }
  }

  lemma LinksOfIncluded(database: string, data: Forest, all: Forest)
    requires Included[..|Included|] == Included && DatabaseName !in Included && ManifestName !in Included
    requires forall p :: (p == [ManifestName] ==> Find(all, p).Some? && Find(all, p).value.FileNode?) &&
                         (p != [ManifestName] ==> Find(all, p) == StagedAt(database, data, |Included|, p))
    ensures LinksStayBelow(all) <==> IncludedLinksStayBelow(data)
  {
    if LinksStayBelow(all) {
      forall p | p != [] && p[0] in Included && Find(data, p).Some? && Find(data, p).value.LinkNode?
        ensures var to := Find(data, p).value.target; !Absolute(to) && !Leaves(Split(to), 0)
      {
        assert Find(all, p) == StagedAt(database, data, |Included|, p);
      }
    }
  }
}
