/** The backup service, writing side: walking the collected members into an archive that ends with its manifest. */
module BackupWriter {
  import opened Wrappers
  import opened Text
  import opened Paths
  import opened ArchiveFormat
  import opened BackupMembers

  datatype Manifest = Manifest(header: string, contents: seq<string>, encrypted: bool, checksum: string)

  // The digest of a transcript in hexadecimal, the text of a manifest and back, and what the integrity check says of
  // a database file.
  datatype Codec = Codec(
    digest: string -> string, encode: Manifest -> string, decode: string -> Option<Manifest>, isSound: string -> bool)
  {
    function Checksum(transcript: string): (sum: string)
      ensures sum != ""
    {
      "sha256:" + digest(transcript)
    }
  }

  // Manifests are read back, and an empty file is a sound database.
  ghost predicate RoundTrips(c: Codec) {
    (forall m :: c.decode(c.encode(m)) == Some(m)) && c.isSound("")
  }

  function ManifestEntry(m: Manifest, transcript: string, c: Codec): Entry {
    Entry(MANIFEST, Regular, c.encode(m.(checksum := c.Checksum(transcript))))
  }

  function Created(src: Source, files: seq<string>, m: Manifest, c: Codec): seq<Entry> {
    WalkAll(src, files) + [ManifestEntry(m, Transcript(WalkAll(src, files), {}), c)]
  }

  /** A new archive is the walked members and then the manifest with the digest of their transcript. */
  lemma CreatedIs(src: Source, files: seq<string>, m: Manifest, c: Codec)
    ensures var walked := WalkAll(src, files);
            var checksum := "sha256:" + c.digest(Transcript(walked, {}));
            Created(src, files, m, c) ==
            walked + [Entry("manifest.json", Regular, c.encode(m.(checksum := checksum)))]
  {
  }

  // The relative path filepath.Walk reports.
  function RelPath(rel: seq<string>): string {
    if rel == [] then "." else Join(rel, '/')
  }

  lemma NormalOfMember(parts: seq<string>)
    requires IsMember(parts)
    ensures Normal(Split(MemberName(parts, true), '/'), false) == parts
    ensures !IsRooted(MemberName(parts, true)) && MemberName(parts, true) != ""
  {
    SplitMemberName(parts, true);
    PlainIsNormal(parts, false);
    NormalOfNormal(parts, false);
    NormalThenSlash(parts, false);
  }

  lemma TarRoot(parts: seq<string>)
    requires IsMember(parts)
    ensures JoinPath(MemberName(parts, true), ".") == MemberName(parts, false)
  {
    var dir := MemberName(parts, true);
    NormalOfMember(parts);
    SplitConcat(dir, '/', ".");
    SplitWithout(".", '/');
    NormalSnoc(Split(dir, '/'), ".", false);
    assert dir + "/" + "." == dir + ['/'] + ".";
    assert (dir + "/" + ".")[0] == dir[0];
    assert Join(parts, '/') + "" == Join(parts, '/');
  }

  /** Joining a directory member with a walked relative path gives the member's path extended by the relative one. */
  lemma TarPath(parts: seq<string>, rel: seq<string>)
    requires IsMember(parts) && AllPlain(rel)
    ensures JoinPath(MemberName(parts, true), RelPath(rel)) == MemberName(parts + rel, false)
  {
    if rel == [] {
      TarRoot(parts);
      assert parts + rel == parts;
    } else {
      NormalOfMember(parts);
      JoinMember(MemberName(parts, true), rel, false);
      assert Join(rel, '/') + "" == Join(rel, '/');
      assert Join(parts + rel, '/') + "" == Join(parts + rel, '/');
    }
  }

  class ArchiveWriter {
    var entries: seq<Entry>
    var hashed: string

    constructor ()
      ensures entries == [] && hashed == ""
    {
      entries, hashed := [], "";
    }

    // A header, and the member's name and bytes to the hasher.
    method WriteMember(e: Entry)
      modifies this
      ensures entries == old(entries) + [e] && hashed == old(hashed) + Fed(e)
    {
      entries := entries + [e];
      hashed := hashed + (e.name + "\n");
      if e.kind == Regular {
        hashed := hashed + e.data;
      }
      assert old(hashed) + Fed(e) == hashed;
    }

    // filepath.Walk under a directory member: every name is joined from the member name and the relative path.
    method Walk(archivePath: string, ghost parts: seq<string>, rel: seq<string>, node: Node)
      requires archivePath == MemberName(parts, true) && IsMember(parts) && AllPlain(rel) && WellFormed(node)
      modifies this
      ensures entries == old(entries) + WalkNode(parts + rel, node)
      ensures hashed == old(hashed) + Transcript(WalkNode(parts + rel, node), {})
      decreases node, 1
    {
      var tarPath := JoinPath(archivePath, RelPath(rel));
      TarPath(parts, rel);
      match node
      case FileNode(data) =>
        WriteMember(Entry(tarPath, Regular, data));
        WalkOfFile(parts + rel, node);
      case DirNode(children) =>
        WriteMember(Entry(tarPath + "/", Directory, ""));
        WalkOfDirectory(parts + rel, node, old(hashed));
        WalkAllChildren(archivePath, parts, rel, children);
    }

    method WalkAllChildren(archivePath: string, ghost parts: seq<string>, rel: seq<string>, children: seq<Child>)
      requires archivePath == MemberName(parts, true) && IsMember(parts) && AllPlain(rel)
      requires forall i | 0 <= i < |children| :: IsPlain(children[i].name) && WellFormed(children[i].node)
      modifies this
      ensures entries == old(entries) + WalkChildren(parts + rel, children)
      ensures hashed == old(hashed) + Transcript(WalkChildren(parts + rel, children), {})
      decreases children, 0
    {
      if |children| == 0 {
        return;
      }
      var child := children[0];
      Walk(archivePath, parts, rel + [child.name], child.node);
      assert parts + (rel + [child.name]) == parts + rel + [child.name];
      WalkAllChildren(archivePath, parts, rel, children[1..]);
      WalkOfFirst(parts + rel, children, old(entries), old(hashed));
    }

    // A directory is walked; anything else is one member under its archive name.
    method AddToArchive(node: Node, member: string, ghost c: Collectable)
      requires member == c.Name() && WellFormed(node) && node.DirNode? == c.IsDir()
      modifies this
      ensures entries == old(entries) + WalkNode(c.Path(), node)
      ensures hashed == old(hashed) + Transcript(WalkNode(c.Path(), node), {})
    {
      NameIsBuilt(c);
      PathIsPlain(c);
      match node
      case DirNode(_) =>
        assert c.Path() + [] == c.Path();
        Walk(member, c.Path(), [], node);
      case FileNode(data) =>
        WriteMember(Entry(member, Regular, data));
        WalkOfFile(c.Path(), node);
    }

    method CreateArchive(src: Source, files: seq<string>, ghost members: seq<Collectable>, m: Manifest, c: Codec)
      requires files == Names(members) && IsInstallation(src) && entries == [] && hashed == ""
      modifies this
      ensures entries == Created(src, files, m, c)
    {
      var i := 0;
      assert Walks(src, files[..0]) == [];
      while i < |files|
        invariant 0 <= i <= |files|
        invariant entries == WalkAll(src, files[..i]) && hashed == Transcript(WalkAll(src, files[..i]), {})
      {
        var found := Lookup(src.Tree(Route(files[i])), Parts(files[i]));
        WalkOfCollectable(src, members[i]);
        RouteAndParts(members[i]);
        if found.Some? {
          WellFormedBelow(src.Tree(Route(files[i])), Parts(files[i]));
          AddToArchive(found.value, files[i], members[i]);
        }
        WalkAllNext(src, files, i);
        i := i + 1;
      }
      assert files[..i] == files;
      entries := entries + [ManifestEntry(m, hashed, c)];
    }
  }

  lemma RouteAndParts(c: Collectable)
    ensures Route(c.Name()) == c.Home() && Parts(c.Name()) == c.Path()
  {
    RouteOfName(c);
    NameParts(c);
  }

  lemma WalkOfFile(path: seq<string>, node: Node)
    requires node.FileNode?
    ensures WalkNode(path, node) == [EntryFor(path, node)]
    ensures Transcript(WalkNode(path, node), {}) == Fed(EntryFor(path, node))
    ensures EntryFor(path, node) == Entry(Join(path, '/'), Regular, node.data)
  {
    TranscriptOfOne(EntryFor(path, node), {});
    assert Join(path, '/') + "" == Join(path, '/');
  }

  lemma WalkOfDirectory(path: seq<string>, node: Node, before: string)
    requires node.DirNode?
    ensures EntryFor(path, node) == Entry(MemberName(path, false) + "/", Directory, "")
    ensures WalkNode(path, node) == [EntryFor(path, node)] + WalkChildren(path, node.children)
    ensures before + Transcript(WalkNode(path, node), {}) ==
            before + Fed(EntryFor(path, node)) + Transcript(WalkChildren(path, node.children), {})
  {
    assert Join(path, '/') + "" == Join(path, '/');
    TranscriptOfOne(EntryFor(path, node), {});
    TranscriptConcat([EntryFor(path, node)], WalkChildren(path, node.children), {});
    AppendPart(before, Fed(EntryFor(path, node)), Transcript(WalkChildren(path, node.children), {}));
  }

  lemma WalkOfFirst(path: seq<string>, children: seq<Child>, written: seq<Entry>, before: string)
    requires children != []
    ensures var first := WalkNode(path + [children[0].name], children[0].node);
            var others := WalkChildren(path, children[1..]);
            && written + WalkChildren(path, children) == written + first + others
            && before + Transcript(WalkChildren(path, children), {}) ==
               before + Transcript(first, {}) + Transcript(others, {})
  {
    var first, others := WalkNode(path + [children[0].name], children[0].node), WalkChildren(path, children[1..]);
    AppendPart(written, first, others);
    TranscriptConcat(first, others, {});
    AppendPart(before, Transcript(first, {}), Transcript(others, {}));
  }

  lemma WalkAllNext(src: Source, files: seq<string>, i: nat)
    requires i < |files|
    ensures WalkAll(src, files[..i + 1]) == WalkAll(src, files[..i]) + WalkMember(src, files[i])
    ensures Transcript(WalkAll(src, files[..i + 1]), {}) ==
            Transcript(WalkAll(src, files[..i]), {}) + Transcript(WalkMember(src, files[i]), {})
  {
    assert Walks(src, files[..i + 1]) == Walks(src, files[..i]) + [WalkMember(src, files[i])];
    FlatSnoc(Walks(src, files[..i]), WalkMember(src, files[i]));
    TranscriptConcat(WalkAll(src, files[..i]), WalkMember(src, files[i]), {});
  }
}
