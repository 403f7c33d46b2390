/** What a backup promises: every archive that is created verifies, and restoring it puts every member back. */
module BackupRoundTrip {
  import opened Wrappers
  import opened Text
  import opened Paths
  import opened Filesystem
  import opened ArchiveFormat
  import opened BackupMembers
  import opened BackupWriter
  import opened BackupReader
  import opened BackupPlaces

  function HomesOf(dirs: Dirs): Homes {
    Homes(PathOf(dirs.config), PathOf(dirs.data))
  }

  function BackupOf(src: Source, opts: Options, m: Manifest, c: Codec): seq<Entry> {
    Created(src, Names(Collected(src, opts)), m, c)
  }

  function Members(src: Source, opts: Options): seq<Entry> {
    WalkAll(src, Names(Collected(src, opts)))
  }

  // Directories in cleaned form that some operating system could open.
  predicate IsBase(dir: string) {
    IsUsable(dir) && '\0' !in dir
  }

  predicate AreBases(dirs: Dirs) {
    IsBase(dirs.config) && IsBase(dirs.data)
  }

  // ---- Every entry is accepted, and lands where it was read ----

  lemma {:induction false} JoinLacks(parts: seq<string>, sep: char, c: char)
    requires AllLack(parts, c) && c != sep
    ensures c !in Join(parts, sep)
  {
    if |parts| > 1 {
      assert parts[0] in parts;
      JoinLacks(parts[1..], sep, c);
    }
  }

  lemma PathOfMember(dir: string, path: seq<string>)
    requires IsUsable(dir) && IsMember(path)
    ensures PathOf(dir).parts != [] && PathOf(dir + "/" + Join(path, '/')) == Below(PathOf(dir), path)
  {
    UsableRenders(dir);
    assert dir + "/" + Join(path, '/') == dir + ['/'] + Join(path, '/');
    SplitConcat(dir, '/', Join(path, '/'));
    SplitAfterJoin(path, '/');
    NormalThenPlain(Split(dir, '/'), path, IsRooted(dir));
  }

  // A backed node's entry passes below any usable directory and asks for the node's own path there.
  lemma EntryBelow(base: string, path: seq<string>, node: Node)
    requires IsUsable(base) && IsMember(path) && NulFree(path)
    ensures SafeExtractPath(base, EntryFor(path, node).name).Ok?
    ensures WriteBelow(base, EntryFor(path, node)) == Write(Below(PathOf(base), path), ItemFor(node))
  {
    JoinLacks(path, '/', '\0');
    UsableAccepts(base, path, node.DirNode?);
    PathOfMember(base, path);
  }

  /** Every entry of a backup is accepted by the restoring reader and lands where it was read from. */
  lemma EntryLands(src: Source, opts: Options, k: Collectable, path: seq<string>, node: Node, dirs: Dirs)
    requires Typed(src) && Backs(src, opts, k, path, node) && AreBases(dirs)
    ensures RestoreObjection(dirs, EntryFor(path, node)) == None && EntryFor(path, node).name != MANIFEST
    ensures RestoreWrite(dirs, EntryFor(path, node)) == WriteFor(HomesOf(dirs), k, path, node)
  {
    PathIsPlain(k);
    RoutedHome(src, opts, k, path, node);
    EntryBelow(dirs.Of(k.Home()), path, node);
  }

  // Every member passes, and asks for the write of its node.
  lemma NthMember(src: Source, opts: Options, dirs: Dirs, i: nat)
    returns (k: Collectable, path: seq<string>, node: Node)
    requires IsInstallation(src) && AreBases(dirs) && i < |Members(src, opts)|
    ensures Backs(src, opts, k, path, node) && Members(src, opts)[i] == EntryFor(path, node)
    ensures RestoreWrite(dirs, Members(src, opts)[i]) == WriteFor(HomesOf(dirs), k, path, node)
    ensures RestoreObjection(dirs, Members(src, opts)[i]) == None && Members(src, opts)[i].name != MANIFEST
  {
    k, path, node := WalkedIsBacked(src, opts, Members(src, opts)[i]);
    EntryLands(src, opts, k, path, node, dirs);
  }

  lemma NodeIsWritten(src: Source, opts: Options, dirs: Dirs, k: Collectable, path: seq<string>, node: Node)
    requires IsInstallation(src) && AreBases(dirs) && Backs(src, opts, k, path, node)
    ensures WriteFor(HomesOf(dirs), k, path, node) in RestoreWrites(dirs, Members(src, opts))
  {
    var members := Members(src, opts);
    BackedIsWalked(src, opts, k, path, node);
    var i :| 0 <= i < |members| && members[i] == EntryFor(path, node);
    EntryLands(src, opts, k, path, node, dirs);
    assert RestoreWrites(dirs, members)[i] == RestoreWrite(dirs, members[i]);
  }

  // A restore writes the nodes and nothing else.
  lemma MembersWriteNodes(src: Source, opts: Options, dirs: Dirs)
    requires IsInstallation(src) && AreBases(dirs)
    ensures Elements(RestoreWrites(dirs, Members(src, opts))) == NodeWrites(src, opts, HomesOf(dirs))
  {
    var ws := RestoreWrites(dirs, Members(src, opts));
    forall i | 0 <= i < |ws|
      ensures IsNodeWrite(src, opts, HomesOf(dirs), ws[i])
    {
      var k, path, node := NthMember(src, opts, dirs, i);
    }
    forall w | w in NodeWrites(src, opts, HomesOf(dirs))
      ensures w in ws
    {
      var k, path, node := NodeOfWrite(src, opts, HomesOf(dirs), w);
      NodeIsWritten(src, opts, dirs, k, path, node);
    }
  }

  // ---- Verification ----

  lemma MembersAreNotManifests(src: Source, opts: Options)
    requires IsInstallation(src)
    ensures forall e | e in Members(src, opts) :: e.name !in {MANIFEST}
  {
    forall e | e in Members(src, opts)
      ensures e.name !in {MANIFEST}
    {
      var k, path, node := WalkedIsBacked(src, opts, e);
      RoutedHome(src, opts, k, path, node);
    }
  }

  // The transcript the verifier recomputes is the one the writer hashed.
  lemma TranscriptsAgree(src: Source, opts: Options, m: Manifest, c: Codec)
    requires IsInstallation(src)
    ensures Transcript(BackupOf(src, opts, m, c), {MANIFEST}) == Transcript(Members(src, opts), {})
  {
    var members := Members(src, opts);
    var last := ManifestEntry(m, Transcript(members, {}), c);
    TranscriptConcat(members, [last], {MANIFEST});
    TranscriptOfOne(last, {MANIFEST});
    MembersAreNotManifests(src, opts);
    NothingSkipped(members, {MANIFEST});
    assert Transcript(members, {}) + "" == Transcript(members, {});
  }

  lemma JustMadeIs(dir: string)
    ensures IsTree(JustMade(dir))
    ensures forall p :: !IsFile(JustMade(dir), p)
    ensures forall p :: IsDirectory(JustMade(dir), p) ==> p.parts == [] || IsOnPath(p, PathOf(dir))
  {
    MkdirAllIff(map[], PathOf(dir));
  }

  lemma NotBelowItself(base: Path, k: Collectable, below: seq<string>)
    ensures Below(base, k.Path() + below) != base
  {
    assert |Below(base, k.Path() + below).parts| > |base.parts|;
  }

  lemma NoOverlapWithItself(opts: Options, base: Path)
    ensures !Overlaps(opts, Homes(base, base))
  {
    forall k, below
      ensures !IsBelow(opts, Homes(base, base), k, below)
    {
      NotBelowItself(base, k, below);
    }
  }

  // An entry that holds a readable manifest.
  predicate HoldsManifest(e: Entry, c: Codec) {
    e.name == MANIFEST && e.kind == Regular && c.decode(e.data) != None
  }

  // Every member passes, and asks for what a restore with both base directories at the same place asks for.
  lemma MemberVerifies(src: Source, opts: Options, tempDir: string, c: Codec, i: nat)
    requires IsInstallation(src) && IsBase(tempDir) && i < |Members(src, opts)|
    ensures VerifyObjection(tempDir, c, Members(src, opts)[i]) == None
    ensures WriteBelow(tempDir, Members(src, opts)[i]) == RestoreWrite(Dirs(tempDir, tempDir), Members(src, opts)[i])
  {
    var k, path, node := NthMember(src, opts, Dirs(tempDir, tempDir), i);
    PathIsPlain(k);
    EntryBelow(tempDir, path, node);
  }

  lemma ManifestVerifies(tempDir: string, c: Codec, e: Entry)
    requires IsBase(tempDir) && HoldsManifest(e, c)
    ensures VerifyObjection(tempDir, c, e) == None
    ensures WriteBelow(tempDir, e) == Write(Below(PathOf(tempDir), [MANIFEST]), StoredFile(e.data))
  {
    ManifestIsMember();
    assert e == EntryFor([MANIFEST], FileNode(e.data));
    EntryBelow(tempDir, [MANIFEST], FileNode(e.data));
  }

  lemma ManifestIsMember()
    ensures IsMember([MANIFEST]) && NulFree([MANIFEST]) && MemberName([MANIFEST], false) == MANIFEST
  {
    assert MANIFEST + "" == MANIFEST;
  }

  // No member lies at the manifest's path, above it or below it.
  lemma ManifestIsApart(base: Path, k: Collectable, path: seq<string>, node: Node, w: Write)
    requires k.Path() <= path && w.path == Below(base, [MANIFEST])
    ensures AreApart(WriteFor(Homes(base, base), k, path, node), w)
  {
    assert k.Path()[0][0] != 'm' && MANIFEST[0] == 'm';
    assert (base.parts + path)[|base.parts|] == k.Path()[0] && (base.parts + [MANIFEST])[|base.parts|] == MANIFEST;
  }

  lemma FitsBelowFresh(tempDir: string, w: Write, rest: seq<string>)
    requires w.path == Below(PathOf(tempDir), rest) && rest != []
    ensures Fits(JustMade(tempDir), w)
  {
    JustMadeIs(tempDir);
  }

  // The nodes of an installation below one directory, and a manifest.
  ghost function Unpacked(src: Source, opts: Options, base: Path, last: Write): iset<Write> {
    NodeWrites(src, opts, Homes(base, base)) + iset{last}
  }

  lemma UnpackedFits(src: Source, opts: Options, tempDir: string, last: Write)
    requires last.path == Below(PathOf(tempDir), [MANIFEST])
    ensures var wanted := Unpacked(src, opts, PathOf(tempDir), last);
            AllFit(JustMade(tempDir), wanted) && AllBelowRoot(wanted) && NoneInTheWay(wanted)
  {
    var base := PathOf(tempDir);
    var nodes := NodeWrites(src, opts, Homes(base, base));
    forall w | w in nodes
      ensures Fits(JustMade(tempDir), w) && AreApart(w, last)
    {
      var k, path, node := NodeOfWrite(src, opts, Homes(base, base), w);
      FitsBelowFresh(tempDir, w, path);
      ManifestIsApart(base, k, path, node, last);
    }
    FitsBelowFresh(tempDir, last, [MANIFEST]);
    NoOverlapWithItself(opts, base);
    NodesAreNotInTheWay(src, opts, Homes(base, base));
    WritesAreBelowRoot(src, opts, Homes(base, base));
    ApartIsNotInTheWay(nodes, last);
  }

  // The writes of all nodes below one fresh directory, and then the manifest's, succeed and last.
  lemma FreshIsWritten(src: Source, opts: Options, tempDir: string, ws: seq<Write>, last: Write)
    requires Elements(ws) == NodeWrites(src, opts, Homes(PathOf(tempDir), PathOf(tempDir)))
    requires last.path == Below(PathOf(tempDir), [MANIFEST])
    ensures var after := PutAll(JustMade(tempDir), ws + [last]);
            after.Some? &&
            AllWritten(JustMade(tempDir), Unpacked(src, opts, PathOf(tempDir), last), after.value)
  {
    UnpackedFits(src, opts, tempDir, last);
    assert (ws + [last])[..|ws|] == ws;
    ElementsNext(ws + [last]);
    JustMadeIs(tempDir);
    WrittenIff(JustMade(tempDir), ws + [last]);
  }

  // All entries of a backup can be extracted together into a fresh directory, which then holds what was backed up.
  lemma AllVerify(src: Source, opts: Options, tempDir: string, c: Codec, last: Entry)
    requires IsInstallation(src) && IsBase(tempDir) && HoldsManifest(last, c)
    ensures AllAcceptable(tempDir, c, Members(src, opts) + [last])
    ensures var after := PutAll(JustMade(tempDir), WritesBelow(tempDir, Members(src, opts) + [last]));
            && after.Some? && WriteBelow(tempDir, last).path == Below(PathOf(tempDir), [MANIFEST])
            && AllWritten(
                 JustMade(tempDir), Unpacked(src, opts, PathOf(tempDir), WriteBelow(tempDir, last)), after.value)
  {
    var members, dirs := Members(src, opts), Dirs(tempDir, tempDir);
    var entries := members + [last];
    forall i | 0 <= i < |entries|
      ensures VerifyObjection(tempDir, c, entries[i]) == None
      ensures i < |members| ==> WriteBelow(tempDir, members[i]) == RestoreWrite(dirs, members[i])
    {
      if i < |members| {
        MemberVerifies(src, opts, tempDir, c, i);
      } else {
        ManifestVerifies(tempDir, c, last);
      }
    }
    MembersWriteNodes(src, opts, dirs);
    ManifestVerifies(tempDir, c, last);
    FreshIsWritten(src, opts, tempDir, RestoreWrites(dirs, members), WriteBelow(tempDir, last));
    SameWrites(tempDir, dirs, members, last);
  }

  lemma SameWrites(tempDir: string, dirs: Dirs, members: seq<Entry>, last: Entry)
    requires forall i | 0 <= i < |members| :: WriteBelow(tempDir, members[i]) == RestoreWrite(dirs, members[i])
    ensures WritesBelow(tempDir, members + [last]) == RestoreWrites(dirs, members) + [WriteBelow(tempDir, last)]
  {
  }

  // Every backed file that is named as a database passes the integrity check.
  ghost predicate AllDatabasesSound(src: Source, opts: Options, c: Codec) {
    forall k, path, node | Backs(src, opts, k, path, node) && node.FileNode? && IsDatabasePath(path) ::
      c.isSound(node.data)
  }

  predicate IsDatabasePath(path: seq<string>) {
    path != [] && ".db" <= LastThree(path[|path| - 1])
  }

  // A file in a freshly written directory was written there.
  lemma FileWasWritten(tempDir: string, wanted: iset<Write>, after: Files, p: Path) returns (w: Write)
    requires AllWritten(JustMade(tempDir), wanted, after) && IsFile(after, p) && p.parts != []
    ensures w in wanted && w.path == p && w.item == after[p]
  {
    JustMadeIs(tempDir);
    assert !IsFile(JustMade(tempDir), p);
    assert AnyTouches(wanted, p);
    w :| w in wanted && IsOnPath(p, w.path);
    assert !IsDirectory(after, p);
    assert !WantsDir(w, p);
    assert Holds(after, w.path, w.item);
  }

  lemma DatabaseBelow(base: Path, rest: seq<string>)
    requires rest != []
    ensures IsDatabase(Below(base, rest).parts) <==> IsDatabasePath(rest)
  {
    var parts := Below(base, rest).parts;
    assert parts[|parts| - 1] == rest[|rest| - 1];
  }

  // A database below the verification directory is a backed one, not the manifest.
  lemma DatabaseIsBacked(src: Source, opts: Options, base: Path, last: Write, w: Write)
    returns (k: Collectable, path: seq<string>, node: Node)
    requires w in Unpacked(src, opts, base, last) && last.path == Below(base, [MANIFEST]) && IsDatabase(w.path.parts)
    ensures Backs(src, opts, k, path, node) && w.item == ItemFor(node)
    ensures IsDatabasePath(path)
  {
    DatabaseBelow(base, [MANIFEST]);
    assert MANIFEST[|MANIFEST| - 3] == 's';
    k, path, node := NodeOfWrite(src, opts, Homes(base, base), w);
    DatabaseBelow(base, path);
  }

  lemma SoundNodesSoundFiles(src: Source, opts: Options, tempDir: string, c: Codec, last: Write, after: Files)
    requires AllWritten(JustMade(tempDir), Unpacked(src, opts, PathOf(tempDir), last), after)
    requires last.path == Below(PathOf(tempDir), [MANIFEST]) && AllDatabasesSound(src, opts, c)
    ensures AllSound(after, c)
  {
    var base := PathOf(tempDir);
    forall p | p in after && after[p].StoredFile? && IsDatabase(p.parts)
      ensures c.isSound(after[p].data)
    {
      var w := FileWasWritten(tempDir, Unpacked(src, opts, base, last), after, p);
      var k, path, node := DatabaseIsBacked(src, opts, base, last, w);
    }
  }

  lemma SoundFilesSoundNodes(src: Source, opts: Options, tempDir: string, c: Codec, last: Write, after: Files)
    requires AllWritten(JustMade(tempDir), Unpacked(src, opts, PathOf(tempDir), last), after) && AllSound(after, c)
    ensures AllDatabasesSound(src, opts, c)
  {
    forall k, path, node | Backs(src, opts, k, path, node) && node.FileNode? && IsDatabasePath(path)
      ensures c.isSound(node.data)
    {
      NodeIsHeld(src, opts, PathOf(tempDir), last, JustMade(tempDir), after, k, path, node);
      DatabaseBelow(PathOf(tempDir), path);
    }
  }

  lemma NodeIsHeld(
    src: Source, opts: Options, base: Path, last: Write, files: Files, after: Files,
    k: Collectable, path: seq<string>, node: Node)
    requires AllWritten(files, Unpacked(src, opts, base, last), after) && Backs(src, opts, k, path, node)
    ensures Holds(after, Below(base, path), ItemFor(node))
  {
    IsWanted(src, opts, Homes(base, base), k, path, node);
    assert WriteFor(Homes(base, base), k, path, node) in Unpacked(src, opts, base, last);
  }

  // The extracted databases are the backed ones.
  lemma SoundIff(src: Source, opts: Options, tempDir: string, c: Codec, last: Write, after: Files)
    requires AllWritten(JustMade(tempDir), Unpacked(src, opts, PathOf(tempDir), last), after)
    requires last.path == Below(PathOf(tempDir), [MANIFEST])
    ensures AllSound(after, c) <==> AllDatabasesSound(src, opts, c)
  {
    if AllDatabasesSound(src, opts, c) {
      SoundNodesSoundFiles(src, opts, tempDir, c, last, after);
    }
    if AllSound(after, c) {
      SoundFilesSoundNodes(src, opts, tempDir, c, last, after);
    }
  }

  /**
    A backup passes its own verification, which finds the manifest it was written with, exactly when every database in
    it passes the integrity check.
   */
  lemma CreatedVerifies(src: Source, opts: Options, m: Manifest, tempDir: string, c: Codec)
    requires IsInstallation(src) && RoundTrips(c) && IsBase(tempDir)
    ensures Verified(BackupOf(src, opts, m, c), tempDir, c) ==
            if AllDatabasesSound(src, opts, c) then
              Ok(m.(checksum := c.Checksum(Transcript(Members(src, opts), {}))))
            else
              Err(CorruptDatabase)
  {
    var members, entries := Members(src, opts), BackupOf(src, opts, m, c);
    var last := ManifestEntry(m, Transcript(members, {}), c);
    AllVerify(src, opts, tempDir, c, last);
    VerifyAllIs(tempDir, c, entries);
    TranscriptsAgree(src, opts, m, c);
    SoundIff(src, opts, tempDir, c, WriteBelow(tempDir, last), VerifyAll(tempDir, c, entries).value.files);
  }

  // The last manifest is the one with the checksum of the members; the transcript is that of the edited entries.
  lemma EditedManifest(members: seq<Entry>, edited: seq<Entry>, m: Manifest, c: Codec)
    requires RoundTrips(c)
    ensures var last := ManifestEntry(m, Transcript(members, {}), c);
            && Transcript(edited + [last], {MANIFEST}) == Transcript(edited, {MANIFEST})
            && forall x :: IsManifestOf(edited + [last], c, x) <==>
                           x == m.(checksum := "sha256:" + c.digest(Transcript(members, {})))
  {
    var last := ManifestEntry(m, Transcript(members, {}), c);
    TranscriptConcat(edited, [last], {MANIFEST});
    TranscriptOfOne(last, {MANIFEST});
    assert Transcript(edited, {MANIFEST}) + "" == Transcript(edited, {MANIFEST});
    forall x
      ensures IsManifestOf(edited + [last], c, x) <==>
              x == m.(checksum := "sha256:" + c.digest(Transcript(members, {})))
    {
      ManifestOfNext(edited + [last], c, x);
    }
  }

  lemma SameDigest(a: string, b: string)
    requires "sha256:" + a == "sha256:" + b
    ensures a == b
  {
    assert ("sha256:" + a)[7..] == a && ("sha256:" + b)[7..] == b;
  }

  /**
    An archive edited before its manifest passes verification only if its transcript has the same checksum, so
    every edit that changes the transcript is caught unless it is a collision of the digest.
   */
  lemma EditedArchiveNeedsCollision(members: seq<Entry>, edited: seq<Entry>, m: Manifest, tempDir: string, c: Codec)
    requires RoundTrips(c)
    requires Verified(edited + [ManifestEntry(m, Transcript(members, {}), c)], tempDir, c).Ok?
    ensures c.digest(Transcript(members, {})) == c.digest(Transcript(edited, {"manifest.json"}))
  {
    VerifiedIff(edited + [ManifestEntry(m, Transcript(members, {}), c)], tempDir, c);
    EditedManifest(members, edited, m, c);
    SameDigest(c.digest(Transcript(members, {})), c.digest(Transcript(edited, {"manifest.json"})));
  }

  // An edited archive that can be read fails the checksum.
  lemma EditedMismatch(members: seq<Entry>, edited: seq<Entry>, m: Manifest, tempDir: string, c: Codec)
    requires RoundTrips(c) && c.digest(Transcript(members, {})) != c.digest(Transcript(edited, {"manifest.json"}))
    ensures var entries := edited + [ManifestEntry(m, Transcript(members, {}), c)];
            CanBeRead(entries, tempDir, c) ==> Verified(entries, tempDir, c) == Err(ChecksumMismatch)
  {
    var entries := edited + [ManifestEntry(m, Transcript(members, {}), c)];
    if CanBeRead(entries, tempDir, c) {
      EditedManifest(members, edited, m, c);
      CanBeReadIff(entries, tempDir, c);
      VerifyAllIs(tempDir, c, entries);
      LastManifestIs(entries, c);
      assert LastManifest(entries, c) == Some(m.(checksum := "sha256:" + c.digest(Transcript(members, {}))));
      if c.Checksum(Transcript(members, {})) == c.Checksum(Transcript(edited, {"manifest.json"})) {
        SameDigest(c.digest(Transcript(members, {})), c.digest(Transcript(edited, {"manifest.json"})));
      }
    }
  }

  /** ... and restoring such an edited archive without a collision changes nothing on disk. */
  lemma EditedRestoreChangesNothing(
    members: seq<Entry>, edited: seq<Entry>, m: Manifest, tempDir: string, dirs: Dirs, hashed: string, c: Codec,
    files: Files)
    requires RoundTrips(c) && c.digest(Transcript(members, {})) != c.digest(Transcript(edited, {"manifest.json"}))
    ensures var entries := edited + [ManifestEntry(m, Transcript(members, {}), c)];
            var out := Restored(entries, tempDir, dirs, hashed, c, files);
            && out.files == files && out.error.Some?
            && (CanBeRead(entries, tempDir, c) ==> out.error == Some(ChecksumMismatch))
  {
    var entries := edited + [ManifestEntry(m, Transcript(members, {}), c)];
    if Verified(entries, tempDir, c).Ok? {
      EditedArchiveNeedsCollision(members, edited, m, tempDir, c);
    }
    VerifiedIff(entries, tempDir, c);
    EditedMismatch(members, edited, m, tempDir, c);
    RestoredIs(entries, tempDir, dirs, hashed, c, files);
  }

  // ---- Restoring ----

  lemma {:induction false} FirstNamedIsLast(members: seq<Entry>, last: Entry, name: string)
    requires last.name == name && forall e | e in members :: e.name != name
    ensures FirstNamed(members + [last], name) == Some(last)
  {
    if members != [] {
      assert (members + [last])[1..] == members[1..] + [last];
      assert members[0] in members;
      FirstNamedIsLast(members[1..], last, name);
    }
  }

  lemma TokenPathIs(dir: string)
    requires IsUsable(dir)
    ensures PathOf(JoinPath(dir, TOKEN_FILE)) == Below(PathOf(dir), [TOKEN_FILE])
  {
    var all := PathOf(dir).parts + [TOKEN_FILE];
    UsableRenders(dir);
    assert MemberName([TOKEN_FILE], false) == TOKEN_FILE;
    JoinMember(dir, [TOKEN_FILE], false);
    RootOfRendered(IsRooted(dir), all);
    NormalOfRendered(IsRooted(dir), all);
  }

  // Saving the token is one more write.
  lemma TokenIsPut(dir: string, hashed: string, files: Files)
    requires IsUsable(dir)
    ensures var put := Put(files, Write(Below(PathOf(dir), [TOKEN_FILE]), StoredFile(hashed)));
            var saved := SavedToken(dir, hashed, files);
            (saved.error == None <==> put.Some?) && (put.Some? ==> put == Some(saved.files))
  {
    TokenPathIs(dir);
    var p := Below(PathOf(dir), [TOKEN_FILE]);
    assert p.Parent() == PathOf(dir);
  }

  // The writes of a restore: the members, then the setup token.
  function AllWrites(src: Source, opts: Options, dirs: Dirs, hashed: string): seq<Write> {
    RestoreWrites(dirs, Members(src, opts)) + [TokenWrite(HomesOf(dirs), hashed)]
  }

  // The restoring reader accepts every entry of a backup by kind and name.
  lemma BackupIsExtractable(src: Source, opts: Options, m: Manifest, dirs: Dirs, c: Codec)
    requires IsInstallation(src) && AreBases(dirs)
    ensures AllExtractable(dirs, BackupOf(src, opts, m, c))
  {
    var members, entries := Members(src, opts), BackupOf(src, opts, m, c);
    forall i | 0 <= i < |entries|
      ensures IsExtractable(dirs, entries[i])
    {
      if i < |members| {
        var k, path, node := NthMember(src, opts, dirs, i);
        assert entries[i] == members[i];
      }
    }
  }

  lemma BackupContents(src: Source, opts: Options, m: Manifest, c: Codec)
    requires IsInstallation(src)
    ensures Contents(BackupOf(src, opts, m, c)) == Members(src, opts)
  {
    var members, entries := Members(src, opts), BackupOf(src, opts, m, c);
    MembersAreNotManifests(src, opts);
    assert forall i | 0 <= i < |members| :: members[i] in members;
    MembersAreContents(members);
    assert entries[..|members|] == members;
  }

  lemma MembersAreExtracted(src: Source, opts: Options, m: Manifest, dirs: Dirs, c: Codec, files: Files)
    requires IsInstallation(src) && AreBases(dirs)
    ensures var out := ExtractAll(dirs, files, BackupOf(src, opts, m, c));
            var written := PutAll(files, RestoreWrites(dirs, Members(src, opts)));
            (out.error == None <==> written.Some?) && (out.error == None ==> written == Some(out.files))
  {
    BackupIsExtractable(src, opts, m, dirs, c);
    BackupContents(src, opts, m, c);
    ExtractAllIff(dirs, files, BackupOf(src, opts, m, c));
  }

  // Restoring a backup whose databases are sound is making all its writes; otherwise nothing is written.
  lemma RestoredIsWritten(
    src: Source, opts: Options, m: Manifest, tempDir: string, dirs: Dirs, hashed: string, c: Codec, files: Files)
    requires IsInstallation(src) && AreBases(dirs) && RoundTrips(c) && IsBase(tempDir)
    ensures var out := Restored(BackupOf(src, opts, m, c), tempDir, dirs, hashed, c, files);
            var written := PutAll(files, AllWrites(src, opts, dirs, hashed));
            if AllDatabasesSound(src, opts, c) then
              (out.error == None <==> written.Some?) && (out.error == None ==> written == Some(out.files))
            else
              out == Outcome(Some(CorruptDatabase), files)
  {
    var members, entries := Members(src, opts), BackupOf(src, opts, m, c);
    CreatedVerifies(src, opts, m, tempDir, c);
    if AllDatabasesSound(src, opts, c) {
      MembersAreNotManifests(src, opts);
      FirstNamedIsLast(members, entries[|members|], MANIFEST);
      MembersAreExtracted(src, opts, m, dirs, c, files);
      TokenIsPut(dirs.config, hashed, ExtractAll(dirs, files, entries).files);
      var ws := AllWrites(src, opts, dirs, hashed);
      assert ws[..|ws| - 1] == RestoreWrites(dirs, members);
    }
  }

  lemma {:induction false} MembersAreContents(members: seq<Entry>)
    requires forall i | 0 <= i < |members| :: members[i].name != MANIFEST
    ensures Contents(members) == members
  {
    if members != [] {
      var n := |members| - 1;
      MembersAreContents(members[..n]);
      assert members == members[..n] + [members[n]];
    }
  }

  // ---- The round trip ----

  /**
    Restoring a backup of the installation succeeds, puts every backed node back and the setup token beside them, makes
    the directories above, and touches nothing else.
   */
  ghost predicate PutsBack(
    src: Source, opts: Options, m: Manifest, tempDir: string, dirs: Dirs, hashed: string, c: Codec, files: Files)
  {
    var out := Restored(BackupOf(src, opts, m, c), tempDir, dirs, hashed, c, files);
    out.error == None && AllWritten(files, Wanted(src, opts, HomesOf(dirs), hashed), out.files)
  }

  /**
    The round trip: an installation is put back exactly when its databases are sound, nothing of the wrong kind is on
    disk where its nodes, the token and the directories above them belong, and none of these is in another's way.
   */
  lemma RestorePutsBackIff(
    src: Source, opts: Options, m: Manifest, tempDir: string, dirs: Dirs, hashed: string, c: Codec, files: Files)
    requires IsInstallation(src) && AreBases(dirs) && RoundTrips(c) && IsBase(tempDir) && IsTree(files)
    ensures PutsBack(src, opts, m, tempDir, dirs, hashed, c, files) <==>
            && AllDatabasesSound(src, opts, c)
            && AllFit(files, Wanted(src, opts, HomesOf(dirs), hashed))
            && NoneInTheWay(Wanted(src, opts, HomesOf(dirs), hashed))
  {
    var ws := AllWrites(src, opts, dirs, hashed);
    MembersWriteNodes(src, opts, dirs);
    assert ws[..|ws| - 1] == RestoreWrites(dirs, Members(src, opts));
    ElementsNext(ws);
    WritesAreBelowRoot(src, opts, HomesOf(dirs));
    RestoredIsWritten(src, opts, m, tempDir, dirs, hashed, c, files);
    WrittenIff(files, ws);
  }

  // The elements of a cleaned path are names like any others, or lead upwards in front.
  lemma BaseElements(dir: string)
    requires '\0' !in dir
    ensures IsNormal(PathOf(dir).parts, PathOf(dir).rooted)
    ensures forall s | s in PathOf(dir).parts :: '\0' !in s
  {
    SplitPartsLackSep(dir, '/');
    SplitKeepsLack(dir, '/', '\0');
    NormalIsNormal(Split(dir, '/'), IsRooted(dir));
    NormalElements(Split(dir, '/'), IsRooted(dir));
  }

  // Behind a plain element all elements of a cleaned path are plain.
  lemma TailIsPlain(front: seq<string>, below: seq<string>, rooted: bool)
    requires IsNormal(front + below, rooted) && front != [] && IsPlain(front[|front| - 1])
    ensures AllPlain(below)
  {
    var all, n := front + below, |front|;
    forall s | s in below
      ensures IsPlain(s)
    {
      var i :| 0 <= i < |below| && below[i] == s;
      assert all[n + i] == s && s in all;
      NoDotsAfter(all, rooted, n - 1, n + i);
    }
  }

  lemma BelowIsPlain(opts: Options, dirs: Dirs, k: Collectable, below: seq<string>)
    requires AreBases(dirs) && IsBelow(opts, HomesOf(dirs), k, below)
    ensures AllPlain(below) && NulFree(below)
  {
    var other := PathOf(dirs.Of(OtherBase(k.Home())));
    BaseElements(dirs.Of(OtherBase(k.Home())));
    PathIsPlain(k);
    PlainBelow(HomesOf(dirs).Of(k.Home()).parts, k.Path(), below, other);
  }

  lemma PlainBelow(front: seq<string>, path: seq<string>, below: seq<string>, p: Path)
    requires IsNormal(p.parts, p.rooted) && (forall s | s in p.parts :: '\0' !in s)
    requires p.parts == front + (path + below) && IsMember(path)
    ensures AllPlain(below) && NulFree(below)
  {
    assert p.parts == front + path + below;
    assert (front + path)[|front + path| - 1] == path[|path| - 1] && path[|path| - 1] in path;
    TailIsPlain(front + path, below, p.rooted);
    assert forall s | s in below :: s in p.parts;
  }

  lemma {:induction false} NormalElements(parts: seq<string>, rooted: bool)
    ensures forall s | s in Normal(parts, rooted) :: s in parts || s == ".."
  {
    if parts != [] {
      var n := |parts| - 1;
      NormalElements(parts[..n], rooted);
      assert parts[n] in parts && forall s | s in parts[..n] :: s in parts;
    }
  }

  lemma {:induction false} NoDotsAfter(parts: seq<string>, rooted: bool, i: nat, j: nat)
    requires IsNormal(parts, rooted) && i <= j < |parts| && parts[i] != ".."
    ensures parts[j] != ".."
    decreases j
  {
    if j > i {
      NoDotsAfter(parts, rooted, i, j - 1);
    }
  }

  lemma ClashIsSound(opts: Options, k: Collectable, below: seq<string>, c: Codec)
    requires RoundTrips(c)
    ensures AllDatabasesSound(Clash(k, below), opts, c)
  {
    var src, v := Clash(k, below), Victim(OtherBase(k.Home()));
    forall l, path, node | Backs(src, opts, l, path, node) && node.FileNode?
      ensures node == FileNode("")
    {
      LookupNest(if l.Home() == k.Home() then DeepPath(k, below) else v.Path(), FileNode(""), path);
    }
  }

  /** For overlapping base directories there is an installation that is not put back even on an empty disk. */
  lemma OverlapLosesAFile(opts: Options, m: Manifest, tempDir: string, dirs: Dirs, hashed: string, c: Codec)
    returns (src: Source)
    requires AreBases(dirs) && IsBase(tempDir) && RoundTrips(c) && Overlaps(opts, HomesOf(dirs))
    ensures IsInstallation(src) && AllDatabasesSound(src, opts, c)
    ensures !PutsBack(src, opts, m, tempDir, dirs, hashed, c, map[])
  {
    var homes := HomesOf(dirs);
    if k, below :| IsBelow(opts, homes, k, below) {
      BelowIsPlain(opts, dirs, k, below);
      src := Clash(k, below);
      ClashIsInstallation(k, below);
      ClashIsSound(opts, k, below, c);
      ClashIsInTheWay(opts, homes, k, below);
      assert forall w | w in NodeWrites(src, opts, homes) :: w in Wanted(src, opts, homes, hashed);
    } else {
      src := Clash(ServerDb, []);
      ClashIsInstallation(ServerDb, []);
      ClashIsSound(opts, ServerDb, [], c);
      TokenIsInTheWay(opts, homes, hashed);
    }
    EmptyDiskFits(src, opts, homes, hashed);
    RestorePutsBackIff(src, opts, m, tempDir, dirs, hashed, c, map[]);
  }

  ghost predicate FitsDisk(src: Source, opts: Options, dirs: Dirs, hashed: string, files: Files) {
    IsTree(files) && AllFit(files, Wanted(src, opts, HomesOf(dirs), hashed))
  }

  /**
    Every installation with sound databases is put back over every disk with room for it exactly when neither base
    directory lies at or below a selected member of the other, nor the data directory at or below the setup token.
   */
  lemma AlwaysPutsBackIff(opts: Options, m: Manifest, tempDir: string, dirs: Dirs, hashed: string, c: Codec)
    requires AreBases(dirs) && IsBase(tempDir) && RoundTrips(c)
    ensures (forall src, files |
               IsInstallation(src) && AllDatabasesSound(src, opts, c) && FitsDisk(src, opts, dirs, hashed, files) ::
               PutsBack(src, opts, m, tempDir, dirs, hashed, c, files)) <==>
            !Overlaps(opts, HomesOf(dirs))
  {
    if Overlaps(opts, HomesOf(dirs)) {
      var src := OverlapLosesAFile(opts, m, tempDir, dirs, hashed, c);
      EmptyDiskFits(src, opts, HomesOf(dirs), hashed);
      assert FitsDisk(src, opts, dirs, hashed, map[]);
    } else {
      forall src, files |
        IsInstallation(src) && AllDatabasesSound(src, opts, c) && FitsDisk(src, opts, dirs, hashed, files)
        ensures PutsBack(src, opts, m, tempDir, dirs, hashed, c, files)
      {
        TokenIsNotInTheWay(src, opts, HomesOf(dirs), hashed);
        RestorePutsBackIff(src, opts, m, tempDir, dirs, hashed, c, files);
      }
    }
  }
}
