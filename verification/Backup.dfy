/** The backup service, writing side: which members are collected and how they are walked into an archive. */
module BackupMembers {
  import opened Wrappers
  import opened Text
  import opened Paths
  import opened ArchiveFormat

  datatype Base = ConfigBase | DataBase

  // The configuration and data directories of an installation.
  datatype Source = Source(config: Node, data: Node) {
    function Tree(b: Base): Node {
      if b == ConfigBase then config else data
    }
  }

  datatype Options = Options(includeSSL: bool, includeData: bool)

  // ---- What a backup may hold ----

  datatype Collectable = ServerYml | ServerDb | UsersDb | Templates | Themes | Ssl | DataFiles {
    // The member name in the archive.
    function Name(): string {
      match this
      case ServerYml => "server.yml"
      case ServerDb => "db/server.db"
      case UsersDb => "db/users.db"
      case Templates => "template/"
      case Themes => "theme/"
      case Ssl => "ssl/"
      case DataFiles => "data/"
    }

    // The path elements below its base directory.
    function Path(): seq<string> {
      match this
      case ServerYml => ["server.yml"]
      case ServerDb => ["db", "server.db"]
      case UsersDb => ["db", "users.db"]
      case Templates => ["template"]
      case Themes => ["theme"]
      case Ssl => ["ssl"]
      case DataFiles => ["data"]
    }

    function Home(): Base {
      if ServerYml? || Templates? || Themes? || Ssl? then ConfigBase else DataBase
    }

    predicate IsDir() {
      Templates? || Themes? || Ssl? || DataFiles?
    }
  }

  predicate Selectable(opts: Options, c: Collectable) {
    (c == Ssl ==> opts.includeSSL) && (c == DataFiles ==> opts.includeData)
  }

  predicate Exists(src: Source, c: Collectable) {
    Lookup(src.Tree(c.Home()), c.Path()).Some?
  }

  // Everything but the data directory is looked for first.
  predicate Included(src: Source, opts: Options, c: Collectable) {
    Selectable(opts, c) && (c == DataFiles || Exists(src, c))
  }

  const ORDER := [ServerYml, ServerDb, UsersDb, Templates, Themes, Ssl, DataFiles]

  function Select(src: Source, opts: Options, candidates: seq<Collectable>): seq<Collectable> {
    if candidates == [] then [] else
      var n := |candidates| - 1;
      var rest := Select(src, opts, candidates[..n]);
      if Included(src, opts, candidates[n]) then rest + [candidates[n]] else rest
  }

  function Collected(src: Source, opts: Options): seq<Collectable> {
    Select(src, opts, ORDER)
  }

  function Names(members: seq<Collectable>): seq<string> {
    seq(|members|, i requires 0 <= i < |members| => members[i].Name())
  }

  lemma {:induction false} SelectedAre(src: Source, opts: Options, candidates: seq<Collectable>, c: Collectable)
    ensures c in Select(src, opts, candidates) <==> c in candidates && Included(src, opts, c)
  {
    if candidates != [] {
      SelectedAre(src, opts, candidates[..|candidates| - 1], c);
    }
  }

  lemma CollectedAreIncluded(src: Source, opts: Options, c: Collectable)
    ensures c in Collected(src, opts) <==> Included(src, opts, c)
  {
    SelectedAre(src, opts, ORDER, c);
    assert ORDER[0] == ServerYml && ORDER[1] == ServerDb && ORDER[2] == UsersDb && ORDER[3] == Templates;
    assert ORDER[4] == Themes && ORDER[5] == Ssl && ORDER[6] == DataFiles;
  }

  function NamesUpTo(src: Source, opts: Options, n: nat): seq<string>
    requires n <= |ORDER|
  {
    Names(Select(src, opts, ORDER[..n]))
  }

  lemma NextName(src: Source, opts: Options, n: nat, c: Collectable)
    requires n < |ORDER| && ORDER[n] == c
    ensures NamesUpTo(src, opts, n + 1) ==
            if Included(src, opts, c) then NamesUpTo(src, opts, n) + [c.Name()] else NamesUpTo(src, opts, n)
  {
    assert ORDER[..n + 1][..n] == ORDER[..n];
  }

  function AddIf(found: seq<string>, b: bool, name: string): seq<string> {
    if b then found + [name] else found
  }

  // The collected names as they stand in the archive's order: the files, then the directories.
  function WithFiles(src: Source): seq<string> {
    var yml := AddIf([], Lookup(src.config, ["server.yml"]).Some?, "server.yml");
    var db := AddIf(yml, Lookup(src.data, ["db", "server.db"]).Some?, "db/server.db");
    AddIf(db, Lookup(src.data, ["db", "users.db"]).Some?, "db/users.db")
  }

  function WithThemes(src: Source): seq<string> {
    var templates := AddIf(WithFiles(src), Lookup(src.config, ["template"]).Some?, "template/");
    AddIf(templates, Lookup(src.config, ["theme"]).Some?, "theme/")
  }

  function WithDirectories(src: Source, opts: Options): seq<string> {
    var ssl := AddIf(WithThemes(src), opts.includeSSL && Lookup(src.config, ["ssl"]).Some?, "ssl/");
    AddIf(ssl, opts.includeData, "data/")
  }

  lemma NextOne(src: Source, opts: Options, n: nat, c: Collectable)
    requires n < |ORDER| && ORDER[n] == c
    ensures NamesUpTo(src, opts, n + 1) == AddIf(NamesUpTo(src, opts, n), Included(src, opts, c), c.Name())
  {
    NextName(src, opts, n, c);
  }

  lemma FilesSpelledOut(src: Source, opts: Options)
    ensures NamesUpTo(src, opts, 3) == WithFiles(src)
  {
    assert NamesUpTo(src, opts, 0) == [];
    NextOne(src, opts, 0, ServerYml);
    NextOne(src, opts, 1, ServerDb);
    NextOne(src, opts, 2, UsersDb);
  }

  lemma ThemesSpelledOut(src: Source, opts: Options)
    ensures NamesUpTo(src, opts, 5) == WithThemes(src)
  {
    FilesSpelledOut(src, opts);
    NextOne(src, opts, 3, Templates);
    NextOne(src, opts, 4, Themes);
  }

  /** The names a backup collects, member by member. */
  lemma NamesSpelledOut(src: Source, opts: Options)
    ensures Names(Collected(src, opts)) == WithDirectories(src, opts)
  {
    ThemesSpelledOut(src, opts);
    NextOne(src, opts, 5, Ssl);
    NextOne(src, opts, 6, DataFiles);
    assert ORDER[..7] == ORDER;
  }

  method CollectFiles(src: Source, opts: Options) returns (files: seq<string>)
    ensures files == WithDirectories(src, opts) == Names(Collected(src, opts))
  {
    NamesSpelledOut(src, opts);
    files := [];
    var yml, db, users := Exists(src, ServerYml), Exists(src, ServerDb), Exists(src, UsersDb);
    if yml {
      files := files + ["server.yml"];
    }
    if db {
      files := files + ["db/server.db"];
    }
    if users {
      files := files + ["db/users.db"];
    }
    assert files == WithFiles(src);
    files := CollectDirectories(src, opts, files);
  }

  method CollectDirectories(src: Source, opts: Options, found: seq<string>) returns (files: seq<string>)
    requires found == WithFiles(src)
    ensures files == WithDirectories(src, opts)
  {
    files := found;
    var templates, themes := Exists(src, Templates), Exists(src, Themes);
    if templates {
      files := files + ["template/"];
    }
    if themes {
      files := files + ["theme/"];
    }
    if opts.includeSSL {
      var ssl := Exists(src, Ssl);
      if ssl {
        files := files + ["ssl/"];
      }
    }
    if opts.includeData {
      files := files + ["data/"];
    }
  }

  // ---- Names, paths and routes of members ----

  // The path elements of a member name.
  function Parts(member: string): seq<string> {
    var parts := Split(member, '/');
    if parts[|parts| - 1] == "" then parts[..|parts| - 1] else parts
  }

  // The base directory a member name belongs to.
  function Route(name: string): Base {
    if name == "server.yml" || "template/" <= name || "theme/" <= name || "ssl/" <= name then ConfigBase else DataBase
  }

  lemma PathIsPlain(c: Collectable)
    ensures IsMember(c.Path()) && NulFree(c.Path())
  {
  }

  lemma NameIsBuilt(c: Collectable)
    ensures c.Name() == MemberName(c.Path(), c.IsDir())
  {
    match c
    case ServerDb => assert Join(["db", "server.db"], '/') == "db" + ['/'] + Join(["server.db"], '/');
    case UsersDb => assert Join(["db", "users.db"], '/') == "db" + ['/'] + Join(["users.db"], '/');
    case _ =>
  }

  lemma PartsOfMember(parts: seq<string>, isDir: bool)
    requires IsMember(parts)
    ensures Parts(MemberName(parts, isDir)) == parts
  {
    SplitMemberName(parts, isDir);
    if isDir {
      assert (parts + [""])[..|parts|] == parts;
    } else {
      assert parts[|parts| - 1] in parts;
    }
  }

  lemma NameParts(c: Collectable)
    ensures Parts(c.Name()) == c.Path()
  {
    NameIsBuilt(c);
    PathIsPlain(c);
    PartsOfMember(c.Path(), c.IsDir());
  }

  /** No member's path continues another's, and the first elements tell the members apart. */
  lemma MembersAreDisjoint(c: Collectable, d: Collectable, path: seq<string>)
    requires c.Path() <= path && d.Path() <= path
    ensures c == d
  {
    assert |c.Path()[0]| == |d.Path()[0]|;
    if c.ServerDb? || c.UsersDb? {
      assert |c.Path()[1]| == |d.Path()[1]|;
    }
  }

  // ---- Well-typed installations ----

  // Members collected as files are files, members collected as directories are directories.
  ghost predicate Typed(src: Source) {
    forall c: Collectable ::
      var node := Lookup(src.Tree(c.Home()), c.Path()); node.Some? ==> node.value.DirNode? == c.IsDir()
  }

  ghost predicate IsInstallation(src: Source) {
    WellFormed(src.config) && WellFormed(src.data) && Typed(src)
  }

  // A node below a selected member of the installation.
  ghost predicate Backs(src: Source, opts: Options, c: Collectable, path: seq<string>, node: Node) {
    && Selectable(opts, c) && c.Path() <= path && AllPlain(path) && NulFree(path)
    && Lookup(src.Tree(c.Home()), path) == Some(node)
  }

  // The first elements of what a backup takes from a base directory.
  predicate IsTaken(opts: Options, b: Base, path: seq<string>) {
    match b
    case ConfigBase =>
      ["server.yml"] <= path || ["template"] <= path || ["theme"] <= path || (opts.includeSSL && ["ssl"] <= path)
    case DataBase =>
      ["db", "server.db"] <= path || ["db", "users.db"] <= path || (opts.includeData && ["data"] <= path)
  }

  /** What is backed, by its path and base directory. */
  lemma BackedIff(src: Source, opts: Options, b: Base, path: seq<string>, node: Node)
    ensures (exists k: Collectable :: k.Home() == b && Backs(src, opts, k, path, node)) <==>
            IsTaken(opts, b, path) && AllPlain(path) && NulFree(path) && Lookup(src.Tree(b), path) == Some(node)
  {
    if AllPlain(path) && NulFree(path) && Lookup(src.Tree(b), path) == Some(node) {
      forall k: Collectable
        ensures k.Home() == b && Backs(src, opts, k, path, node) <==>
                k.Home() == b && Selectable(opts, k) && k.Path() <= path
      {
      }
      TakenIff(opts, b, path);
    }
  }

  lemma TakenIff(opts: Options, b: Base, path: seq<string>)
    ensures IsTaken(opts, b, path) <==>
            exists k: Collectable :: k.Home() == b && Selectable(opts, k) && k.Path() <= path
  {
    assert ServerYml.Path() == ["server.yml"] && ServerDb.Path() == ["db", "server.db"];
    assert UsersDb.Path() == ["db", "users.db"] && DataFiles.Path() == ["data"];
    assert Templates.Path() == ["template"] && Themes.Path() == ["theme"] && Ssl.Path() == ["ssl"];
  }

  lemma {:induction false} LookupConcat(node: Node, a: seq<string>, b: seq<string>)
    ensures Lookup(node, a + b) == match Lookup(node, a) case None => None case Some(next) => Lookup(next, b)
    decreases |a|
  {
    if a == [] {
      assert a + b == b;
    } else if node.DirNode? && Find(node.children, a[0]).Some? {
      assert (a + b)[1..] == a[1..] + b;
      LookupConcat(Find(node.children, a[0]).value, a[1..], b);
    }
  }

  lemma {:induction false} WellFormedBelow(node: Node, path: seq<string>)
    requires WellFormed(node) && Lookup(node, path).Some?
    ensures WellFormed(Lookup(node, path).value)
    decreases |path|
  {
    if path != [] {
      FoundIsChild(node.children, path[0]);
      WellFormedBelow(Find(node.children, path[0]).value, path[1..]);
    }
  }

  // ---- The entries of an archive ----

  function WalkMember(src: Source, member: string): seq<Entry> {
    match Lookup(src.Tree(Route(member)), Parts(member))
    case None => []
    case Some(node) => WalkNode(Parts(member), node)
  }

  function Walks(src: Source, files: seq<string>): seq<seq<Entry>> {
    seq(|files|, i requires 0 <= i < |files| => WalkMember(src, files[i]))
  }

  function WalkAll(src: Source, files: seq<string>): seq<Entry> {
    Flat(Walks(src, files))
  }

  lemma RouteOfName(c: Collectable)
    ensures Route(c.Name()) == c.Home()
  {
    if c.IsDir() {
      DirectoryRoutes(c, c.Name());
    } else if c.Home() == DataBase {
      assert c.Name()[0] == 'd';
    }
  }

  lemma InWalkAll(src: Source, files: seq<string>, e: Entry)
    ensures e in WalkAll(src, files) <==> exists k :: 0 <= k < |files| && e in WalkMember(src, files[k])
  {
    InFlat(Walks(src, files), e);
    assert forall k | 0 <= k < |files| :: Walks(src, files)[k] == WalkMember(src, files[k]);
  }

  lemma WalkOfCollectable(src: Source, c: Collectable)
    ensures WalkMember(src, c.Name()) ==
            match Lookup(src.Tree(c.Home()), c.Path()) case None => [] case Some(node) => WalkNode(c.Path(), node)
  {
    NameParts(c);
    RouteOfName(c);
  }

  /** Every entry of an archive is a backed node, under its path below the base directory. */
  lemma WalkedIsBacked(src: Source, opts: Options, e: Entry) returns (c: Collectable, path: seq<string>, node: Node)
    requires IsInstallation(src) && e in WalkAll(src, Names(Collected(src, opts)))
    ensures Backs(src, opts, c, path, node) && e == EntryFor(path, node)
  {
    var members := Collected(src, opts);
    InWalkAll(src, Names(members), e);
    var k :| 0 <= k < |members| && e in WalkMember(src, Names(members)[k]);
    c := members[k];
    CollectedAreIncluded(src, opts, c);
    WalkOfCollectable(src, c);
    PathIsPlain(c);
    var top := Lookup(src.Tree(c.Home()), c.Path()).value;
    WellFormedBelow(src.Tree(c.Home()), c.Path());
    var rel := WalkedIsReachable(c.Path(), top, e);
    path, node := c.Path() + rel, Lookup(top, rel).value;
    LookupConcat(src.Tree(c.Home()), c.Path(), rel);
  }

  /** Every backed node is an entry of the archive. */
  lemma BackedIsWalked(src: Source, opts: Options, c: Collectable, path: seq<string>, node: Node)
    requires Backs(src, opts, c, path, node)
    ensures EntryFor(path, node) in WalkAll(src, Names(Collected(src, opts)))
  {
    var members, rel := Collected(src, opts), path[|c.Path()|..];
    assert path == c.Path() + rel;
    LookupConcat(src.Tree(c.Home()), c.Path(), rel);
    CollectedAreIncluded(src, opts, c);
    var k :| 0 <= k < |members| && members[k] == c;
    ReachableIsWalked(c.Path(), Lookup(src.Tree(c.Home()), c.Path()).value, rel);
    WalkOfCollectable(src, c);
    assert Names(members)[k] == c.Name();
    InWalkAll(src, Names(members), EntryFor(path, node));
  }

  // ---- Where an entry is routed ----

  lemma HeadIsPrefix(path: seq<string>, isDir: bool)
    requires path != [] && (|path| > 1 || isDir)
    ensures path[0] + "/" <= MemberName(path, isDir)
  {
    if |path| > 1 {
      assert Join(path, '/') == path[0] + ['/'] + Join(path[1..], '/');
    }
  }

  // A file member has nothing below it, a directory member is a directory.
  lemma BackedShape(src: Source, opts: Options, c: Collectable, path: seq<string>, node: Node)
    requires Typed(src) && Backs(src, opts, c, path, node)
    ensures c.IsDir() ==> |path| > 1 || node.DirNode?
    ensures !c.IsDir() ==> path == c.Path() && node.FileNode?
  {
    var rel := path[|c.Path()|..];
    assert path == c.Path() + rel;
    LookupConcat(src.Tree(c.Home()), c.Path(), rel);
  }

  /** Every entry is routed back to the base directory it was read from, and none is taken for the manifest. */
  lemma RoutedHome(src: Source, opts: Options, c: Collectable, path: seq<string>, node: Node)
    requires Typed(src) && Backs(src, opts, c, path, node)
    ensures Route(EntryFor(path, node).name) == c.Home()
    ensures EntryFor(path, node).name != MANIFEST
  {
    var name := EntryFor(path, node).name;
    assert name == MemberName(path, node.DirNode?);
    BackedShape(src, opts, c, path, node);
    assert path[0] == c.Path()[0];
    if c.IsDir() {
      HeadIsPrefix(path, node.DirNode?);
      DirectoryRoutes(c, name);
    } else {
      NameIsBuilt(c);
      RouteOfName(c);
      NameIsNotManifest(c);
    }
  }

  lemma NameIsNotManifest(c: Collectable)
    ensures c.Name() != MANIFEST
  {
    assert c.Name()[0] != 'm' && MANIFEST[0] == 'm';
  }

  lemma DirectoryRoutes(c: Collectable, name: string)
    requires c.IsDir() && c.Path()[0] + "/" <= name
    ensures Route(name) == c.Home() && name != MANIFEST
  {
    assert name[0] == c.Path()[0][0];
    assert MANIFEST[0] == 'm';
    if c.DataFiles? {
      assert name[0] == 'd';
    }
  }
}
