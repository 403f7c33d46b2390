/** Where the nodes of an installation belong on disk, when they get in each other's way,
    and what writing them leaves. */
module BackupPlaces {
  import opened Wrappers
  import opened Paths
  import opened Filesystem
  import opened ArchiveFormat
  import opened BackupMembers
  import opened BackupReader

  // The directories of a restore as cleaned paths.
  datatype Homes = Homes(config: Path, data: Path) {
    function Of(b: Base): Path {
      if b == ConfigBase then config else data
    }
  }

  function Below(base: Path, rest: seq<string>): Path {
    Path(base.rooted, base.parts + rest)
  }

  // The absolute path of a node below a base directory.
  function Place(homes: Homes, b: Base, path: seq<string>): Path {
    Below(homes.Of(b), path)
  }

  function ItemFor(node: Node): Item {
    match node
    case FileNode(data) => StoredFile(data)
    case DirNode(_) => StoredDir
  }

  // The write that puts a node back.
  function WriteFor(homes: Homes, k: Collectable, path: seq<string>, node: Node): Write {
    Write(Place(homes, k.Home(), path), ItemFor(node))
  }

  function TokenPlace(homes: Homes): Path {
    Below(homes.config, ["setup_token.txt"])
  }

  // The write of the setup token that ends a restore.
  function TokenWrite(homes: Homes, token: string): Write {
    Write(TokenPlace(homes), StoredFile(token))
  }

  // ---- When two members are in each other's way ----

  function OtherBase(b: Base): Base {
    if b == ConfigBase then DataBase else ConfigBase
  }

  // One base directory is the place of a selected member of the other, or lies below it.
  ghost predicate IsBelow(opts: Options, homes: Homes, k: Collectable, below: seq<string>) {
    Selectable(opts, k) && homes.Of(OtherBase(k.Home())) == Place(homes, k.Home(), k.Path() + below)
  }

  ghost predicate MembersOverlap(opts: Options, homes: Homes) {
    exists k, below :: IsBelow(opts, homes, k, below)
  }

  // ... or the data directory is the place of the setup token, or lies below it.
  ghost predicate Overlaps(opts: Options, homes: Homes) {
    MembersOverlap(opts, homes) || IsOnPath(TokenPlace(homes), homes.data)
  }

  // What starts a member's path, or the token's, is no second element of a member's path.
  predicate StartsAtBase(q: seq<string>) {
    q != [] && q[0] !in {"server.db", "users.db"}
  }

  lemma MembersStartAtBase(l: Collectable, q: seq<string>)
    requires l.Path() <= q
    ensures StartsAtBase(q)
  {
    assert q[0] == l.Path()[0] && (|q[0]| == |"users.db"| ==> q[0][0] == 't');
  }

  lemma NotInsideMember(k: Collectable, p: seq<string>, q: seq<string>, r: seq<string>)
    requires k.Path() <= p && StartsAtBase(q) && r != [] && (|r| < |p| ==> p[|r|] == q[0])
    ensures |r| >= |k.Path()|
  {
    if |k.Path()| == 2 {
      assert p[1] == k.Path()[1];
    }
  }

  // A base directory that starts along a member's path lies at or below the member.
  lemma BaseOnPath(
    opts: Options, homes: Homes, k: Collectable, p: seq<string>, b: Base, q: seq<string>, r: seq<string>)
    requires Selectable(opts, k) && k.Path() <= p && StartsAtBase(q) && r != []
    requires homes.Of(b) == Below(homes.Of(k.Home()), r) && (p <= r || r <= p)
    requires |r| < |p| ==> p[|r|] == q[0]
    ensures Overlaps(opts, homes)
  {
    NotInsideMember(k, p, q, r);
    assert k.Path() <= r by {
      assert r[..|k.Path()|] == k.Path();
    }
    assert r == k.Path() + r[|k.Path()|..];
    assert b == OtherBase(k.Home());
    assert IsBelow(opts, homes, k, r[|k.Path()|..]);
  }

  // Of two places on one path, either the base directories agree or one lies along a member of the other.
  lemma OnOnePath(
    opts: Options, homes: Homes, k: Collectable, p: seq<string>, l: Collectable, q: seq<string>)
    requires Selectable(opts, k) && Selectable(opts, l) && k.Path() <= p && l.Path() <= q
    requires Place(homes, k.Home(), p).rooted == Place(homes, l.Home(), q).rooted
    requires Place(homes, k.Home(), p).parts <= Place(homes, l.Home(), q).parts
    requires !Overlaps(opts, homes)
    ensures homes.Of(k.Home()) == homes.Of(l.Home()) && p <= q
  {
    var a, b := homes.Of(k.Home()), homes.Of(l.Home());
    MembersStartAtBase(k, p);
    MembersStartAtBase(l, q);
    if |a.parts| < |b.parts| {
      var r := b.parts[|a.parts|..];
      LongerBase(a.parts, p, b.parts, q);
      assert b == Below(a, r);
      BaseOnPath(opts, homes, k, p, l.Home(), q, r);
    } else if |b.parts| < |a.parts| {
      var r := a.parts[|b.parts|..];
      ShorterBase(a.parts, p, b.parts, q);
      assert a == Below(b, r);
      BaseOnPath(opts, homes, l, q, k.Home(), p, r);
    } else {
      EqualBase(a.parts, p, b.parts, q);
    }
  }

  lemma EqualBase(a: seq<string>, p: seq<string>, b: seq<string>, q: seq<string>)
    requires a + p <= b + q && |a| == |b|
    ensures a == b && p <= q
  {
    var s := b + q;
    assert s[..|a|] == a && s[..|b|] == b;
    assert p == s[|a|..|a| + |p|] == q[..|p|];
  }

  lemma LongerBase(a: seq<string>, p: seq<string>, b: seq<string>, q: seq<string>)
    requires a + p <= b + q && |a| < |b| && q != []
    ensures var r := b[|a|..]; b == a + r && r != [] && (p <= r || r <= p) && (|r| < |p| ==> p[|r|] == q[0])
  {
    var s, r := b + q, b[|a|..];
    assert s[..|a|] == a && b[..|a|] == a;
    assert p == s[|a|..|a| + |p|] == (r + q)[..|p|];
  }

  lemma ShorterBase(a: seq<string>, p: seq<string>, b: seq<string>, q: seq<string>)
    requires a + p <= b + q && |b| < |a| && p != []
    ensures var r := a[|b|..]; a == b + r && r != [] && r <= q && |r| < |q| && q[|r|] == p[0]
  {
    var s, r := b + q, a[|b|..];
    assert s[..|a|] == a && a[..|b|] == b;
    assert r + p == s[|b|..|a| + |p|] == q[..|r| + |p|];
    assert (r + p)[|r|] == p[0];
  }

  // A file has nothing below it.
  lemma NothingBelowFile(src: Source, opts: Options, k: Collectable, p: seq<string>, x: Node, q: seq<string>, y: Node)
    requires Backs(src, opts, k, p, x) && Backs(src, opts, k, q, y) && x.FileNode? && p <= q
    ensures p == q && x == y
  {
    assert q == p + q[|p|..];
    LookupConcat(src.Tree(k.Home()), p, q[|p|..]);
  }

  /** Unless the base directories overlap, no two nodes share a place. */
  lemma PlacesAreDistinct(
    src: Source, opts: Options, homes: Homes,
    k: Collectable, p: seq<string>, x: Node, l: Collectable, q: seq<string>, y: Node)
    requires Backs(src, opts, k, p, x) && Backs(src, opts, l, q, y) && !Overlaps(opts, homes)
    requires Place(homes, k.Home(), p) == Place(homes, l.Home(), q)
    ensures k == l && p == q && x == y
  {
    OnOnePath(opts, homes, k, p, l, q);
    assert homes.Of(k.Home()).parts + p == homes.Of(l.Home()).parts + q;
    assert p == q;
    MembersAreDisjoint(k, l, p);
  }

  /** ... and no file's place is needed as a directory for another node. */
  lemma KindsAgree(
    src: Source, opts: Options, homes: Homes,
    k: Collectable, p: seq<string>, x: Node, l: Collectable, q: seq<string>, y: Node)
    requires Backs(src, opts, k, p, x) && Backs(src, opts, l, q, y) && x.FileNode? && !Overlaps(opts, homes)
    ensures !WantsDir(WriteFor(homes, l, q, y), Place(homes, k.Home(), p))
  {
    if IsOnPath(Place(homes, k.Home(), p), Place(homes, l.Home(), q)) {
      OnOnePath(opts, homes, k, p, l, q);
      MembersAreDisjoint(k, l, q);
      NothingBelowFile(src, opts, k, p, x, q, y);
    }
  }

  // No node is at the place of the token.
  lemma TokenIsNoMember(k: Collectable, p: seq<string>)
    requires k.Path() <= p
    ensures p[0] != TOKEN_FILE
  {
    assert p[0] == k.Path()[0] && |p[0]| < |TOKEN_FILE|;
  }

  lemma TokenAbove(opts: Options, homes: Homes, k: Collectable, p: seq<string>)
    requires Selectable(opts, k) && k.Path() <= p && IsOnPath(TokenPlace(homes), Place(homes, k.Home(), p))
    ensures Overlaps(opts, homes)
  {
    var a, b := homes.config, homes.Of(k.Home());
    TokenIsNoMember(k, p);
    if |a.parts| < |b.parts| {
      LongerBase(a.parts, [TOKEN_FILE], b.parts, p);
      assert [TOKEN_FILE] <= b.parts[|a.parts|..];
    } else if |b.parts| < |a.parts| {
      var r := a.parts[|b.parts|..];
      ShorterBase(a.parts, [TOKEN_FILE], b.parts, p);
      assert a == Below(b, r);
      BaseOnPath(opts, homes, k, p, ConfigBase, [TOKEN_FILE], r);
    } else {
      EqualBase(a.parts, [TOKEN_FILE], b.parts, p);
    }
  }

  lemma TokenBelow(opts: Options, homes: Homes, k: Collectable, p: seq<string>)
    requires Selectable(opts, k) && k.Path() <= p && IsOnPath(Place(homes, k.Home(), p), TokenPlace(homes))
    ensures Overlaps(opts, homes)
  {
    var a, b := homes.Of(k.Home()), homes.config;
    TokenIsNoMember(k, p);
    if |a.parts| < |b.parts| {
      var r := b.parts[|a.parts|..];
      LongerBase(a.parts, p, b.parts, [TOKEN_FILE]);
      assert b == Below(a, r);
      BaseOnPath(opts, homes, k, p, ConfigBase, [TOKEN_FILE], r);
    } else if |a.parts| == |b.parts| {
      EqualBase(a.parts, p, b.parts, [TOKEN_FILE]);
    }
  }

  // ---- The writes of a backup ----

  ghost predicate IsNodeWrite(src: Source, opts: Options, homes: Homes, w: Write) {
    exists k, path, node :: Backs(src, opts, k, path, node) && w == WriteFor(homes, k, path, node)
  }

  ghost function NodeWrites(src: Source, opts: Options, homes: Homes): iset<Write> {
    iset w | IsNodeWrite(src, opts, homes, w)
  }

  // The nodes of an installation and a setup token.
  ghost function Wanted(src: Source, opts: Options, homes: Homes, token: string): iset<Write> {
    NodeWrites(src, opts, homes) + iset{TokenWrite(homes, token)}
  }

  lemma NodeOfWrite(src: Source, opts: Options, homes: Homes, w: Write)
    returns (k: Collectable, path: seq<string>, node: Node)
    requires w in NodeWrites(src, opts, homes)
    ensures Backs(src, opts, k, path, node) && w == WriteFor(homes, k, path, node) && path != []
  {
    k, path, node :| Backs(src, opts, k, path, node) && w == WriteFor(homes, k, path, node);
    assert k.Path() != [];
  }

  // What a restore writes for a file or directory the backup takes from a base directory.
  ghost predicate IsTakenWrite(src: Source, opts: Options, homes: Homes, b: Base, path: seq<string>, w: Write) {
    && IsTaken(opts, b, path) && AllPlain(path) && NulFree(path) && Lookup(src.Tree(b), path).Some?
    && w.path == Below(if b == ConfigBase then homes.config else homes.data, path)
    && w.item == match Lookup(src.Tree(b), path).value
                 case FileNode(data) => StoredFile(data)
                 case DirNode(_) => StoredDir
  }

  /** A restore writes what was taken from each base directory below the same one, and the setup token. */
  lemma WantedIff(src: Source, opts: Options, homes: Homes, token: string, w: Write)
    ensures w in Wanted(src, opts, homes, token) <==>
            || w == Write(Below(homes.config, ["setup_token.txt"]), StoredFile(token))
            || exists b, path :: IsTakenWrite(src, opts, homes, b, path, w)
  {
    if w in NodeWrites(src, opts, homes) {
      var k, path, node := NodeOfWrite(src, opts, homes, w);
      BackedIff(src, opts, k.Home(), path, node);
      assert IsTakenWrite(src, opts, homes, k.Home(), path, w);
    }
    if b, path :| IsTakenWrite(src, opts, homes, b, path, w) {
      var node := Lookup(src.Tree(b), path).value;
      BackedIff(src, opts, b, path, node);
      var k: Collectable :| k.Home() == b && Backs(src, opts, k, path, node);
      IsWanted(src, opts, homes, k, path, node);
      assert w == WriteFor(homes, k, path, node);
    }
  }

  lemma WritesAreBelowRoot(src: Source, opts: Options, homes: Homes)
    ensures AllBelowRoot(NodeWrites(src, opts, homes))
  {
    forall w | w in NodeWrites(src, opts, homes)
      ensures w.path.parts != []
    {
      var k, path, node := NodeOfWrite(src, opts, homes, w);
    }
  }

  /** Unless the base directories overlap, no node is in another's way. */
  lemma NodesAreNotInTheWay(src: Source, opts: Options, homes: Homes)
    requires !Overlaps(opts, homes)
    ensures NoneInTheWay(NodeWrites(src, opts, homes))
  {
    forall v, w | v in NodeWrites(src, opts, homes) && w in NodeWrites(src, opts, homes)
      ensures !IsInTheWay(v, w)
    {
      var l, q, y := NodeOfWrite(src, opts, homes, v);
      var k, p, x := NodeOfWrite(src, opts, homes, w);
      if v.path == w.path {
        PlacesAreDistinct(src, opts, homes, k, p, x, l, q, y);
      }
      if x.FileNode? {
        KindsAgree(src, opts, homes, k, p, x, l, q, y);
      }
    }
  }

  /** ... and neither is the setup token. */
  lemma TokenIsNotInTheWay(src: Source, opts: Options, homes: Homes, token: string)
    requires !Overlaps(opts, homes)
    ensures NoneInTheWay(Wanted(src, opts, homes, token))
  {
    NodesAreNotInTheWay(src, opts, homes);
    WritesAreBelowRoot(src, opts, homes);
    forall w | w in NodeWrites(src, opts, homes)
      ensures AreApart(w, TokenWrite(homes, token))
    {
      var k, path, node := NodeOfWrite(src, opts, homes, w);
      if IsOnPath(TokenPlace(homes), w.path) {
        TokenAbove(opts, homes, k, path);
      }
      if IsOnPath(w.path, TokenPlace(homes)) {
        TokenBelow(opts, homes, k, path);
      }
    }
    ApartIsNotInTheWay(NodeWrites(src, opts, homes), TokenWrite(homes, token));
  }

  // ---- Overlapping directories lose a file ----

  // A single file at the end of a chain of directories.
  function Nest(path: seq<string>, leaf: Node): Node {
    if path == [] then leaf else DirNode([Child(path[0], Nest(path[1..], leaf))])
  }

  lemma {:induction false} LookupNest(path: seq<string>, leaf: Node, p: seq<string>)
    requires leaf.FileNode?
    ensures Lookup(Nest(path, leaf), p) == if p <= path then Some(Nest(path[|p|..], leaf)) else None
  {
    if p == [] {
      assert path[0..] == path;
    } else if path != [] {
      var children := Nest(path, leaf).children;
      assert children[1..] == [];
      assert Find(children, p[0]) == if p[0] == path[0] then Some(Nest(path[1..], leaf)) else None;
      assert p == [p[0]] + p[1..] && path == [path[0]] + path[1..];
      LookupNest(path[1..], leaf, p[1..]);
      if p <= path {
        assert p[1..] == path[1..|p|] && path[1..][|p[1..]|..] == path[|p|..];
      } else {
        assert p[0] == path[0] && p[1..] <= path[1..] ==> p <= path;
      }
    }
  }

  lemma {:induction false} NestIsWellFormed(path: seq<string>, leaf: Node)
    requires AllPlain(path) && NulFree(path) && leaf.FileNode?
    ensures WellFormed(Nest(path, leaf))
  {
    if path != [] {
      assert path[0] in path;
      NestIsWellFormed(path[1..], leaf);
    }
  }

  function Victim(b: Base): Collectable {
    if b == ConfigBase then ServerYml else ServerDb
  }

  // A file that needs a directory where the other base's victim belongs, or a file where the other base belongs.
  function DeepPath(k: Collectable, below: seq<string>): seq<string> {
    if k.IsDir() then k.Path() + below + Victim(OtherBase(k.Home())).Path() + ["x"] else k.Path()
  }

  // A file of one base directory and a file of the other that are in each other's way.
  function Clash(k: Collectable, below: seq<string>): Source {
    var deep, flat := Nest(DeepPath(k, below), FileNode("")), Nest(Victim(OtherBase(k.Home())).Path(), FileNode(""));
    if k.Home() == ConfigBase then Source(deep, flat) else Source(flat, deep)
  }

  lemma ClashIsTyped(k: Collectable, below: seq<string>)
    ensures Typed(Clash(k, below))
  {
    var src, v, path := Clash(k, below), Victim(OtherBase(k.Home())), DeepPath(k, below);
    forall e: Collectable
      ensures var node := Lookup(src.Tree(e.Home()), e.Path()); node.Some? ==> node.value.DirNode? == e.IsDir()
    {
      if e.Home() == k.Home() {
        LookupNest(path, FileNode(""), e.Path());
        if e.Path() <= path {
          assert k.Path() <= path;
          MembersAreDisjoint(e, k, path);
        }
      } else {
        LookupNest(v.Path(), FileNode(""), e.Path());
        if e.Path() <= v.Path() {
          MembersAreDisjoint(e, v, v.Path());
        }
      }
    }
  }

  lemma ClashIsInstallation(k: Collectable, below: seq<string>)
    requires AllPlain(below) && NulFree(below)
    ensures IsInstallation(Clash(k, below)) && AllPlain(DeepPath(k, below)) && NulFree(DeepPath(k, below))
  {
    var v := Victim(OtherBase(k.Home()));
    PathIsPlain(k);
    PathIsPlain(v);
    NestIsWellFormed(DeepPath(k, below), FileNode(""));
    NestIsWellFormed(v.Path(), FileNode(""));
    ClashIsTyped(k, below);
  }

  lemma ClashIsBacked(opts: Options, k: Collectable, below: seq<string>)
    requires Selectable(opts, k) && AllPlain(below) && NulFree(below)
    ensures var src, v := Clash(k, below), Victim(OtherBase(k.Home()));
            && Backs(src, opts, k, DeepPath(k, below), FileNode(""))
            && Backs(src, opts, v, v.Path(), FileNode(""))
  {
    var v := Victim(OtherBase(k.Home()));
    ClashIsInstallation(k, below);
    PathIsPlain(v);
    LookupNest(DeepPath(k, below), FileNode(""), DeepPath(k, below));
    LookupNest(v.Path(), FileNode(""), v.Path());
  }

  lemma IsWanted(src: Source, opts: Options, homes: Homes, k: Collectable, path: seq<string>, node: Node)
    requires Backs(src, opts, k, path, node)
    ensures WriteFor(homes, k, path, node) in NodeWrites(src, opts, homes)
  {
  }

  // A member directory: the deep file's directory is the victim. A member file: it is above the other base.
  lemma ClashIsInTheWay(opts: Options, homes: Homes, k: Collectable, below: seq<string>)
    requires IsBelow(opts, homes, k, below) && AllPlain(below) && NulFree(below)
    ensures !NoneInTheWay(NodeWrites(Clash(k, below), opts, homes))
  {
    var src, v, deep := Clash(k, below), Victim(OtherBase(k.Home())), DeepPath(k, below);
    ClashIsBacked(opts, k, below);
    IsWanted(src, opts, homes, k, deep, FileNode(""));
    IsWanted(src, opts, homes, v, v.Path(), FileNode(""));
    if k.IsDir() {
      DeepNeedsVictim(homes.Of(k.Home()), k.Path(), below, v.Path());
      assert Collides(WriteFor(homes, k, deep, FileNode("")), WriteFor(homes, v, v.Path(), FileNode("")));
    } else {
      OnPathBelow(homes.Of(k.Home()), k.Path(), below, v.Path());
      assert Collides(WriteFor(homes, v, v.Path(), FileNode("")), WriteFor(homes, k, deep, FileNode("")));
    }
  }

  lemma DeepNeedsVictim(base: Path, path: seq<string>, below: seq<string>, victim: seq<string>)
    requires victim != []
    ensures var p, q := Below(Below(base, path + below), victim), Below(base, path + below + victim + ["x"]);
            IsOnPath(p, q) && p != q
  {
    assert base.parts + (path + below + victim + ["x"]) == base.parts + (path + below) + victim + ["x"];
  }

  lemma OnPathBelow(base: Path, path: seq<string>, below: seq<string>, rest: seq<string>)
    requires path != [] && rest != []
    ensures var p, q := Below(base, path), Below(Below(base, path + below), rest); IsOnPath(p, q) && p != q
  {
    assert base.parts + (path + below) + rest == base.parts + path + (below + rest);
  }

  // A data directory at or below the setup token's place: the database needs a directory there.
  lemma TokenIsInTheWay(opts: Options, homes: Homes, token: string)
    requires IsOnPath(TokenPlace(homes), homes.data)
    ensures !NoneInTheWay(Wanted(Clash(ServerDb, []), opts, homes, token))
  {
    var src, path, leaf := Clash(ServerDb, []), ServerDb.Path(), FileNode("");
    ClashIsBacked(opts, ServerDb, []);
    IsWanted(src, opts, homes, ServerDb, path, leaf);
    assert Below(homes.data, path).parts == homes.data.parts + path;
    assert Collides(WriteFor(homes, ServerDb, path, leaf), TokenWrite(homes, token));
  }

  lemma EmptyDiskFits(src: Source, opts: Options, homes: Homes, token: string)
    ensures IsTree(map[]) && AllFit(map[], Wanted(src, opts, homes, token))
  {
    forall w | w in Wanted(src, opts, homes, token)
      ensures Fits(map[], w)
    {
      if w != TokenWrite(homes, token) {
        var k, path, node := NodeOfWrite(src, opts, homes, w);
      }
    }
  }
}
