/** The backup service, reading side: verifying an archive and restoring it under two base directories. */
module BackupReader {
  import opened Wrappers
  import opened Text
  import opened Paths
  import opened Filesystem
  import opened ArchiveFormat
  import opened BackupMembers
  import opened BackupWriter

  datatype ArchiveError =
    | BadName(cause: PathError)
    | Unsupported(name: string)
    | LinkEntry(name: string)
    | CannotWrite(name: string)
    | UnreadableManifest
    | MissingManifest
    | ChecksumMismatch
    | CorruptDatabase
    | CannotSaveToken

  // The configuration and data directories of a restore.
  datatype Dirs = Dirs(config: string, data: string) {
    function Of(b: Base): string {
      if b == ConfigBase then config else data
    }
  }

  function ItemOf(e: Entry): Item {
    if e.kind == Directory then StoredDir else StoredFile(e.data)
  }

  // ---- Verification ----

  // A directory that was just made, and what lies above it.
  function JustMade(dir: string): Files {
    match MkdirAll(map[], PathOf(dir))
    case None => map[]
    case Some(files) => files
  }

  // The verification directory, the hasher's input and the manifest so far.
  datatype Reading = Reading(files: Files, fed: string, manifest: Option<Manifest>)

  function VerifyOne(tempDir: string, c: Codec, r: Reading, e: Entry): Result<Reading, ArchiveError> {
    match SafeExtractPath(tempDir, e.name)
    case Err(cause) => Err(BadName(cause))
    case Ok(target) =>
      if e.kind != Directory && e.kind != Regular then Err(Unsupported(e.name))
      else
        match Put(r.files, Write(PathOf(target), ItemOf(e)))
        case None => Err(CannotWrite(e.name))
        case Some(files) =>
          if e.name == MANIFEST && e.kind == Regular then
            if c.decode(e.data) == None then Err(UnreadableManifest) else Ok(Reading(files, r.fed, c.decode(e.data)))
          else
            Ok(Reading(files, r.fed + FedUnless(e, {MANIFEST}), r.manifest))
  }

  function VerifyAll(tempDir: string, c: Codec, entries: seq<Entry>): Result<Reading, ArchiveError> {
    if entries == [] then Ok(Reading(JustMade(tempDir), "", None)) else
      match VerifyAll(tempDir, c, entries[..|entries| - 1])
      case Err(e) => Err(e)
      case Ok(r) => VerifyOne(tempDir, c, r, entries[|entries| - 1])
  }

  predicate IsDatabase(parts: seq<string>) {
    parts != [] && var name := parts[|parts| - 1]; |name| >= 3 && name[|name| - 3..] == ".db"
  }

  // The integrity check passes on every extracted database.
  predicate AllSound(files: Files, c: Codec) {
    forall p | p in files && files[p].StoredFile? && IsDatabase(p.parts) :: c.isSound(files[p].data)
  }

  function Verified(entries: seq<Entry>, tempDir: string, c: Codec): Result<Manifest, ArchiveError> {
    match VerifyAll(tempDir, c, entries)
    case Err(e) => Err(e)
    case Ok(r) =>
      if r.manifest == None then Err(MissingManifest)
      else
        var m := r.manifest.value;
        if m.checksum != "" && m.checksum != c.Checksum(r.fed) then Err(ChecksumMismatch)
        else if !AllSound(r.files, c) then Err(CorruptDatabase)
        else Ok(m)
  }

  lemma {:induction false} VerifyErrorSticks(tempDir: string, c: Codec, entries: seq<Entry>, i: nat)
    requires i <= |entries| && VerifyAll(tempDir, c, entries[..i]).Err?
    ensures VerifyAll(tempDir, c, entries) == VerifyAll(tempDir, c, entries[..i])
  {
    var n := |entries| - 1;
    if i <= n {
      assert entries[..n][..i] == entries[..i];
      VerifyErrorSticks(tempDir, c, entries[..n], i);
      FrontErrorSticks(tempDir, c, entries);
    } else {
      assert entries[..i] == entries;
    }
  }

  lemma FrontErrorSticks(tempDir: string, c: Codec, entries: seq<Entry>)
    requires entries != [] && VerifyAll(tempDir, c, entries[..|entries| - 1]).Err?
    ensures VerifyAll(tempDir, c, entries) == VerifyAll(tempDir, c, entries[..|entries| - 1])
  {
  }

  // One entry of the verification pass.
  method ReadEntry(e: Entry, tempDir: string, c: Codec, before: Reading) returns (r: Result<Reading, ArchiveError>)
    ensures r == VerifyOne(tempDir, c, before, e)
  {
    var target := SafeExtractPath(tempDir, e.name);
    if target.Err? {
      return Err(BadName(target.error));
    }
    match e.kind
    case Directory =>
      var fed := before.fed;
      if e.name != MANIFEST {
        fed := fed + (e.name + "\n");
      }
      assert Fed(e) == e.name + "\n" && before.fed + "" == before.fed;
      var made := MkdirAll(before.files, PathOf(target.value));
      return if made == None then Err(CannotWrite(e.name)) else Ok(Reading(made.value, fed, before.manifest));
    case Regular =>
      var stored := Put(before.files, Write(PathOf(target.value), StoredFile(e.data)));
      if stored == None {
        return Err(CannotWrite(e.name));
      }
      if e.name != MANIFEST {
        return Ok(Reading(stored.value, before.fed + (e.name + "\n" + e.data), before.manifest));
      }
      var manifest := c.decode(e.data);
      return if manifest == None then Err(UnreadableManifest) else Ok(Reading(stored.value, before.fed, manifest));
    case _ =>
      return Err(Unsupported(e.name));
  }

  lemma VerifyNext(tempDir: string, c: Codec, entries: seq<Entry>, i: nat, r: Reading)
    requires i < |entries|
    ensures VerifyAll(tempDir, c, entries[..i]) == Ok(r) ==>
              VerifyAll(tempDir, c, entries[..i + 1]) == VerifyOne(tempDir, c, r, entries[i])
  {
    assert entries[..i + 1][..i] == entries[..i];
  }

  method ReadEntries(entries: seq<Entry>, i: nat, tempDir: string, c: Codec, before: Reading)
    returns (r: Result<Reading, ArchiveError>)
    requires i < |entries|
    ensures VerifyAll(tempDir, c, entries[..i]) == Ok(before) ==> r == VerifyAll(tempDir, c, entries[..i + 1])
  {
    VerifyNext(tempDir, c, entries, i, before);
    r := ReadEntry(entries[i], tempDir, c, before);
  }

  method ExtractForVerify(entries: seq<Entry>, tempDir: string, c: Codec) returns (r: Result<Reading, ArchiveError>)
    ensures r == VerifyAll(tempDir, c, entries)
  {
    r := Ok(Reading(JustMade(tempDir), "", None));
    var i := 0;
    while i < |entries|
      invariant 0 <= i <= |entries|
      invariant r.Ok? && r == VerifyAll(tempDir, c, entries[..i])
    {
      r := ReadEntries(entries, i, tempDir, c, r.value);
      if r.Err? {
        VerifyErrorSticks(tempDir, c, entries, i + 1);
        return;
      }
      i := i + 1;
    }
    assert entries[..i] == entries;
  }

  method Verify(entries: seq<Entry>, tempDir: string, c: Codec) returns (r: Result<Manifest, ArchiveError>)
    ensures r == Verified(entries, tempDir, c)
    ensures r.Ok? <==> Passes(entries, tempDir, c)
    ensures r.Ok? ==> IsManifestOf(entries, c, r.value)
  {
    VerifiedIff(entries, tempDir, c);
    var read := ExtractForVerify(entries, tempDir, c);
    if read.Err? {
      return Err(read.error);
    }
    var manifest, contentChecksum := read.value.manifest, c.Checksum(read.value.fed);
    if manifest == None {
      return Err(MissingManifest);
    }
    if manifest.value.checksum != "" && manifest.value.checksum != contentChecksum {
      return Err(ChecksumMismatch);
    }
    if !AllSound(read.value.files, c) {
      return Err(CorruptDatabase);
    }
    return Ok(manifest.value);
  }

  // ---- What verification accepts ----

  // Why an entry is refused whatever has been extracted before, if it is.
  function VerifyObjection(tempDir: string, c: Codec, e: Entry): Option<ArchiveError> {
    match SafeExtractPath(tempDir, e.name)
    case Err(cause) => Some(BadName(cause))
    case Ok(_) =>
      if e.kind != Directory && e.kind != Regular then Some(Unsupported(e.name))
      else if e.name == MANIFEST && e.kind == Regular && c.decode(e.data) == None then Some(UnreadableManifest)
      else None
  }

  // The write an entry with an acceptable name asks for.
  function WriteBelow(base: string, e: Entry): Write {
    match SafeExtractPath(base, e.name)
    case Err(_) => Write(PathOf(base), ItemOf(e))
    case Ok(target) => Write(PathOf(target), ItemOf(e))
  }

  function WritesBelow(base: string, entries: seq<Entry>): seq<Write> {
    seq(|entries|, i requires 0 <= i < |entries| => WriteBelow(base, entries[i]))
  }

  // The manifest the last regular manifest member holds.
  function LastManifest(entries: seq<Entry>, c: Codec): Option<Manifest> {
    if entries == [] then None else
      var last := entries[|entries| - 1];
      if last.name == MANIFEST && last.kind == Regular then c.decode(last.data)
      else LastManifest(entries[..|entries| - 1], c)
  }

  ghost predicate AllAcceptable(tempDir: string, c: Codec, entries: seq<Entry>) {
    forall i | 0 <= i < |entries| :: VerifyObjection(tempDir, c, entries[i]) == None
  }

  // What a successful verification has read.
  ghost predicate IsReading(tempDir: string, c: Codec, entries: seq<Entry>, r: Reading) {
    && PutAll(JustMade(tempDir), WritesBelow(tempDir, entries)) == Some(r.files)
    && r.fed == Transcript(entries, {MANIFEST})
    && r.manifest == LastManifest(entries, c)
  }

  lemma VerifyOneIs(tempDir: string, c: Codec, r: Reading, e: Entry)
    ensures VerifyOne(tempDir, c, r, e).Ok? <==>
            VerifyObjection(tempDir, c, e) == None && Put(r.files, WriteBelow(tempDir, e)).Some?
    ensures VerifyOne(tempDir, c, r, e).Ok? ==>
              var r' := VerifyOne(tempDir, c, r, e).value;
              && Put(r.files, WriteBelow(tempDir, e)) == Some(r'.files)
              && r'.fed == r.fed + FedUnless(e, {MANIFEST})
              && r'.manifest == if e.name == MANIFEST && e.kind == Regular then c.decode(e.data) else r.manifest
  {
    assert e.name == MANIFEST ==> r.fed + FedUnless(e, {MANIFEST}) == r.fed;
  }

  lemma WritesNext(base: string, entries: seq<Entry>)
    requires entries != []
    ensures var n := |entries| - 1;
            var ws := WritesBelow(base, entries);
            ws[..n] == WritesBelow(base, entries[..n]) && ws[n] == WriteBelow(base, entries[n])
  {
  }

  lemma TranscriptNext(entries: seq<Entry>, skipped: set<string>)
    requires entries != []
    ensures var n := |entries| - 1;
            Transcript(entries, skipped) == Transcript(entries[..n], skipped) + FedUnless(entries[n], skipped)
  {
    var n := |entries| - 1;
    assert entries == entries[..n] + [entries[n]];
    TranscriptConcat(entries[..n], [entries[n]], skipped);
    TranscriptOfOne(entries[n], skipped);
  }

  /**
    Verification gets through an archive exactly when every entry is acceptable by name, kind and manifest and all of
    them can be extracted together; it has then read the transcript of everything but the manifests.
   */
  lemma {:induction false} VerifyAllIs(tempDir: string, c: Codec, entries: seq<Entry>)
    ensures VerifyAll(tempDir, c, entries).Ok? <==>
            AllAcceptable(tempDir, c, entries) && PutAll(JustMade(tempDir), WritesBelow(tempDir, entries)).Some?
    ensures VerifyAll(tempDir, c, entries).Ok? ==> IsReading(tempDir, c, entries, VerifyAll(tempDir, c, entries).value)
  {
    if entries == [] {
      assert WritesBelow(tempDir, entries) == [];
    } else {
      var n := |entries| - 1;
      VerifyAllIs(tempDir, c, entries[..n]);
      AcceptableNext(tempDir, c, entries);
      WritesNext(tempDir, entries);
      if VerifyAll(tempDir, c, entries[..n]).Ok? {
        VerifyOneIs(tempDir, c, VerifyAll(tempDir, c, entries[..n]).value, entries[n]);
        TranscriptNext(entries, {MANIFEST});
      }
    }
  }

  // ---- What passes, spelled out ----

  // Every entry is a directory or a regular file whose name stays below the directory, manifests can be decoded, and
  // all of them can be extracted there together.
  ghost predicate CanBeRead(entries: seq<Entry>, tempDir: string, c: Codec) {
    && (forall i | 0 <= i < |entries| ::
          && (entries[i].kind == Directory || entries[i].kind == Regular)
          && SafeExtractPath(tempDir, entries[i].name).Ok?
          && (entries[i].name == "manifest.json" && entries[i].kind == Regular ==> c.decode(entries[i].data).Some?))
    && PutAll(JustMade(tempDir), WritesBelow(tempDir, entries)).Some?
  }

  // The last regular entry named as a manifest holds this one.
  ghost predicate IsManifestOf(entries: seq<Entry>, c: Codec, m: Manifest) {
    exists k | 0 <= k < |entries| ::
      && entries[k].name == "manifest.json" && entries[k].kind == Regular && c.decode(entries[k].data) == Some(m)
      && forall j | k < j < |entries| :: entries[j].name != "manifest.json" || entries[j].kind != Regular
  }

  // No extracted file whose name ends in ".db" fails the integrity check.
  ghost predicate DatabasesPass(files: Files, c: Codec) {
    forall p | p in files && p.parts != [] && files[p].StoredFile? && ".db" <= LastThree(p.parts[|p.parts| - 1]) ::
      c.isSound(files[p].data)
  }

  function LastThree(name: string): string {
    if |name| < 3 then name else name[|name| - 3..]
  }

  // The archive can be read, its manifest's checksum is empty or that of everything else, its databases are sound.
  ghost predicate Passes(entries: seq<Entry>, tempDir: string, c: Codec) {
    && CanBeRead(entries, tempDir, c)
    && (exists m :: IsManifestOf(entries, c, m) &&
                    (m.checksum == "" || m.checksum == "sha256:" + c.digest(Transcript(entries, {"manifest.json"}))))
    && DatabasesPass(PutAll(JustMade(tempDir), WritesBelow(tempDir, entries)).value, c)
  }

  lemma CanBeReadIff(entries: seq<Entry>, tempDir: string, c: Codec)
    ensures VerifyAll(tempDir, c, entries).Ok? <==> CanBeRead(entries, tempDir, c)
  {
    VerifyAllIs(tempDir, c, entries);
    assert AllAcceptable(tempDir, c, entries) <==>
           forall i | 0 <= i < |entries| ::
             && (entries[i].kind == Directory || entries[i].kind == Regular)
             && SafeExtractPath(tempDir, entries[i].name).Ok?
             && (entries[i].name == "manifest.json" && entries[i].kind == Regular ==> c.decode(entries[i].data).Some?);
  }

  lemma {:induction false} LastManifestIs(entries: seq<Entry>, c: Codec)
    requires forall i | 0 <= i < |entries| ::
               entries[i].name == "manifest.json" && entries[i].kind == Regular ==> c.decode(entries[i].data).Some?
    ensures forall m :: IsManifestOf(entries, c, m) <==> LastManifest(entries, c) == Some(m)
  {
    if entries != [] {
      var n := |entries| - 1;
      LastManifestIs(entries[..n], c);
      forall m
        ensures IsManifestOf(entries, c, m) <==> LastManifest(entries, c) == Some(m)
      {
        ManifestOfNext(entries, c, m);
      }
    }
  }

  lemma ManifestOfNext(entries: seq<Entry>, c: Codec, m: Manifest)
    requires entries != []
    ensures var n := |entries| - 1;
            IsManifestOf(entries, c, m) <==>
            if entries[n].name == "manifest.json" && entries[n].kind == Regular then
              c.decode(entries[n].data) == Some(m)
            else IsManifestOf(entries[..n], c, m)
  {
    var n := |entries| - 1;
    assert forall i | 0 <= i < n :: entries[..n][i] == entries[i];
    if entries[n].name != "manifest.json" || entries[n].kind != Regular {
      if IsManifestOf(entries[..n], c, m) {
        var k :| 0 <= k < n && entries[..n][k].name == "manifest.json" && entries[..n][k].kind == Regular &&
                 c.decode(entries[..n][k].data) == Some(m) &&
                 forall j | k < j < n :: entries[..n][j].name != "manifest.json" || entries[..n][j].kind != Regular;
        assert entries[k].name == "manifest.json";
      }
    }
  }

  /** Verification accepts exactly what passes, and returns its last manifest. */
  lemma VerifiedIff(entries: seq<Entry>, tempDir: string, c: Codec)
    ensures Verified(entries, tempDir, c).Ok? <==> Passes(entries, tempDir, c)
    ensures Verified(entries, tempDir, c).Ok? ==> IsManifestOf(entries, c, Verified(entries, tempDir, c).value)
  {
    CanBeReadIff(entries, tempDir, c);
    if CanBeRead(entries, tempDir, c) {
      VerifyAllIs(tempDir, c, entries);
      PassesIff(entries, tempDir, c, VerifyAll(tempDir, c, entries).value);
    }
  }

  // What the checks behind the extraction look at.
  predicate ChecksPass(r: Reading, c: Codec) {
    && r.manifest.Some?
    && (r.manifest.value.checksum == "" || r.manifest.value.checksum == c.Checksum(r.fed))
    && AllSound(r.files, c)
  }

  lemma DatabasesPassIff(files: Files, c: Codec)
    ensures AllSound(files, c) <==> DatabasesPass(files, c)
  {
  }

  lemma PassesIff(entries: seq<Entry>, tempDir: string, c: Codec, r: Reading)
    requires CanBeRead(entries, tempDir, c) && IsReading(tempDir, c, entries, r)
    ensures Passes(entries, tempDir, c) <==> ChecksPass(r, c)
    ensures r.manifest.Some? ==> IsManifestOf(entries, c, r.manifest.value)
  {
    LastManifestIs(entries, c);
    DatabasesPassIff(r.files, c);
    if r.manifest.Some? {
      assert IsManifestOf(entries, c, r.manifest.value);
    }
  }

  // Entry k is the first that cannot be read, and this is why.
  ghost predicate IsReadError(entries: seq<Entry>, tempDir: string, c: Codec, k: nat, error: ArchiveError)
    requires k < |entries|
  {
    && CanBeRead(entries[..k], tempDir, c)
    && match SafeExtractPath(tempDir, entries[k].name)
       case Err(cause) => error == BadName(cause)
       case Ok(_) =>
         if entries[k].kind != Directory && entries[k].kind != Regular then error == Unsupported(entries[k].name)
         else if PutAll(JustMade(tempDir), WritesBelow(tempDir, entries[..k + 1])) == None then
           error == CannotWrite(entries[k].name)
         else error == UnreadableManifest
  }

  /** Extraction for verification stops at the first entry that cannot be read. */
  lemma {:induction false} FirstUnreadable(entries: seq<Entry>, tempDir: string, c: Codec) returns (k: nat)
    requires !CanBeRead(entries, tempDir, c)
    ensures k < |entries| && VerifyAll(tempDir, c, entries).Err?
    ensures IsReadError(entries, tempDir, c, k, VerifyAll(tempDir, c, entries).error)
  {
    CanBeReadIff(entries, tempDir, c);
    var n := |entries| - 1;
    CanBeReadIff(entries[..n], tempDir, c);
    if CanBeRead(entries[..n], tempDir, c) {
      k := n;
      LastUnreadable(entries, tempDir, c);
    } else {
      k := FirstUnreadable(entries[..n], tempDir, c);
      assert entries[..n][..k] == entries[..k] && entries[..n][..k + 1] == entries[..k + 1];
      FrontErrorSticks(tempDir, c, entries);
    }
  }

  lemma LastUnreadable(entries: seq<Entry>, tempDir: string, c: Codec)
    requires entries != [] && CanBeRead(entries[..|entries| - 1], tempDir, c) && !CanBeRead(entries, tempDir, c)
    ensures VerifyAll(tempDir, c, entries).Err?
    ensures IsReadError(entries, tempDir, c, |entries| - 1, VerifyAll(tempDir, c, entries).error)
  {
    var n := |entries| - 1;
    CanBeReadIff(entries, tempDir, c);
    CanBeReadIff(entries[..n], tempDir, c);
    VerifyAllIs(tempDir, c, entries[..n]);
    var r := VerifyAll(tempDir, c, entries[..n]).value;
    LastWrite(entries, tempDir, r.files);
    WhyNotRead(tempDir, c, r, entries[n]);
    assert entries[..n + 1] == entries;
  }

  lemma LastWrite(entries: seq<Entry>, tempDir: string, files: Files)
    requires entries != [] && PutAll(JustMade(tempDir), WritesBelow(tempDir, entries[..|entries| - 1])) == Some(files)
    ensures PutAll(JustMade(tempDir), WritesBelow(tempDir, entries)) ==
            Put(files, WriteBelow(tempDir, entries[|entries| - 1]))
  {
    WritesNext(tempDir, entries);
  }

  lemma WhyNotRead(tempDir: string, c: Codec, r: Reading, e: Entry)
    requires VerifyOne(tempDir, c, r, e).Err?
    ensures var error := VerifyOne(tempDir, c, r, e).error;
            match SafeExtractPath(tempDir, e.name)
            case Err(cause) => error == BadName(cause)
            case Ok(_) =>
              if e.kind != Directory && e.kind != Regular then error == Unsupported(e.name)
              else if Put(r.files, WriteBelow(tempDir, e)) == None then error == CannotWrite(e.name)
              else error == UnreadableManifest
  {
  }

  /** The error of a verification: the first entry's that cannot be read, or the first check's that fails. */
  lemma VerifiedError(entries: seq<Entry>, tempDir: string, c: Codec)
    requires !Passes(entries, tempDir, c)
    ensures var r := Verified(entries, tempDir, c);
            && r.Err?
            && (!CanBeRead(entries, tempDir, c) ==> exists k | 0 <= k < |entries| ::
                                                      IsReadError(entries, tempDir, c, k, r.error))
            && (CanBeRead(entries, tempDir, c) ==>
                  r.error == if forall m :: !IsManifestOf(entries, c, m) then MissingManifest
                             else if forall m | IsManifestOf(entries, c, m) ::
                                       m.checksum != "" &&
                                       m.checksum != c.Checksum(Transcript(entries, {"manifest.json"}))
                                  then ChecksumMismatch else CorruptDatabase)
  {
    VerifiedIff(entries, tempDir, c);
    CanBeReadIff(entries, tempDir, c);
    if CanBeRead(entries, tempDir, c) {
      VerifyAllIs(tempDir, c, entries);
      LastManifestIs(entries, c);
      FailedCheck(entries, tempDir, c, VerifyAll(tempDir, c, entries).value);
    } else {
      var k := FirstUnreadable(entries, tempDir, c);
    }
  }

  lemma FailedCheck(entries: seq<Entry>, tempDir: string, c: Codec, r: Reading)
    requires VerifyAll(tempDir, c, entries) == Ok(r) && IsReading(tempDir, c, entries, r) && !ChecksPass(r, c)
    requires forall m :: IsManifestOf(entries, c, m) <==> r.manifest == Some(m)
    ensures Verified(entries, tempDir, c) ==
            Err(if forall m :: !IsManifestOf(entries, c, m) then MissingManifest
                else if forall m | IsManifestOf(entries, c, m) ::
                          m.checksum != "" && m.checksum != c.Checksum(Transcript(entries, {"manifest.json"}))
                     then ChecksumMismatch else CorruptDatabase)
  {
    assert r.manifest.Some? ==> IsManifestOf(entries, c, r.manifest.value);
  }

  lemma AcceptableNext(tempDir: string, c: Codec, entries: seq<Entry>)
    requires entries != []
    ensures AllAcceptable(tempDir, c, entries) <==>
            AllAcceptable(tempDir, c, entries[..|entries| - 1]) &&
            VerifyObjection(tempDir, c, entries[|entries| - 1]) == None
  {
    var n := |entries| - 1;
    assert forall i | 0 <= i < n :: entries[..n][i] == entries[i];
  }

  // ---- Restoring ----

  function FirstNamed(entries: seq<Entry>, name: string): Option<Entry> {
    if entries == [] then None
    else if entries[0].name == name then Some(entries[0])
    else FirstNamed(entries[1..], name)
  }

  // What reading the manifest before a restore complains about.
  function ManifestObjection(entries: seq<Entry>, c: Codec): Option<ArchiveError> {
    match FirstNamed(entries, MANIFEST)
    case None => Some(MissingManifest)
    case Some(e) => if c.decode(e.data) == None then Some(UnreadableManifest) else None
  }

  method ExtractManifest(entries: seq<Entry>, c: Codec) returns (r: Result<Manifest, ArchiveError>)
    ensures r.Ok? <==> ManifestObjection(entries, c) == None
    ensures r.Err? ==> ManifestObjection(entries, c) == Some(r.error)
    ensures r.Ok? ==> c.decode(FirstNamed(entries, MANIFEST).value.data) == Some(r.value)
  {
    var i := 0;
    while i < |entries|
      invariant 0 <= i <= |entries|
      invariant FirstNamed(entries, MANIFEST) == FirstNamed(entries[i..], MANIFEST)
    {
      if entries[i].name == MANIFEST {
        var m := c.decode(entries[i].data);
        return if m == None then Err(UnreadableManifest) else Ok(m.value);
      }
      assert entries[i..][1..] == entries[i + 1..];
      i := i + 1;
    }
    return Err(MissingManifest);
  }

  datatype Outcome = Outcome(error: Option<ArchiveError>, files: Files)

  // One entry of a restore. A write that fails leaves what was there.
  function ExtractOne(dirs: Dirs, files: Files, e: Entry): Outcome {
    if e.name == MANIFEST then Outcome(None, files)
    else if e.kind == Link then Outcome(Some(LinkEntry(e.name)), files)
    else
      match SafeExtractPath(dirs.Of(Route(e.name)), e.name)
      case Err(cause) => Outcome(Some(BadName(cause)), files)
      case Ok(target) =>
        match Put(files, Write(PathOf(target), ItemOf(e)))
        case None => Outcome(Some(CannotWrite(e.name)), files)
        case Some(after) => Outcome(None, after)
  }

  function ExtractAll(dirs: Dirs, files: Files, entries: seq<Entry>): Outcome {
    if entries == [] then Outcome(None, files) else
      var before := ExtractAll(dirs, files, entries[..|entries| - 1]);
      if before.error != None then before else ExtractOne(dirs, before.files, entries[|entries| - 1])
  }

  const TOKEN_FILE := "setup_token.txt"

  // Makes the configuration directory and writes the hash of the setup token into it.
  function SavedToken(configDir: string, hashed: string, files: Files): Outcome {
    match MkdirAll(files, PathOf(configDir))
    case None => Outcome(Some(CannotSaveToken), files)
    case Some(made) =>
      match Create(made, PathOf(JoinPath(configDir, TOKEN_FILE)), hashed)
      case None => Outcome(Some(CannotSaveToken), made)
      case Some(after) => Outcome(None, after)
  }

  // A backup that fails verification, or holds no readable manifest, changes nothing. A restored one ends with a token.
  function Restored(
    entries: seq<Entry>, tempDir: string, dirs: Dirs, hashed: string, c: Codec, files: Files): Outcome
  {
    match Verified(entries, tempDir, c)
    case Err(e) => Outcome(Some(e), files)
    case Ok(_) =>
      if ManifestObjection(entries, c) != None then Outcome(ManifestObjection(entries, c), files)
      else
        var out := ExtractAll(dirs, files, entries);
        if out.error != None then out else SavedToken(dirs.config, hashed, out.files)
  }

  lemma {:induction false} ExtractErrorSticks(dirs: Dirs, files: Files, entries: seq<Entry>, i: nat)
    requires i <= |entries| && ExtractAll(dirs, files, entries[..i]).error != None
    ensures ExtractAll(dirs, files, entries) == ExtractAll(dirs, files, entries[..i])
  {
    var n := |entries| - 1;
    if i <= n {
      assert entries[..n][..i] == entries[..i];
      ExtractErrorSticks(dirs, files, entries[..n], i);
    } else {
      assert entries[..i] == entries;
    }
  }

  lemma ExtractNext(dirs: Dirs, files: Files, entries: seq<Entry>, i: nat)
    requires i < |entries| && ExtractAll(dirs, files, entries[..i]).error == None
    ensures ExtractAll(dirs, files, entries[..i + 1]) ==
            ExtractOne(dirs, ExtractAll(dirs, files, entries[..i]).files, entries[i])
  {
    assert entries[..i + 1][..i] == entries[..i];
  }

  class RestoreTarget {
    var files: Files

    constructor (files: Files)
      ensures this.files == files
    {
      this.files := files;
    }

    method ExtractEntry(e: Entry, dirs: Dirs) returns (error: Option<ArchiveError>)
      modifies this
      ensures Outcome(error, files) == ExtractOne(dirs, old(files), e)
    {
      if e.name == MANIFEST {
        return None;
      }
      if e.kind == Link {
        return Some(LinkEntry(e.name));
      }
      var destPath := SafeExtractPath(dirs.Of(Route(e.name)), e.name);
      if destPath.Err? {
        return Some(BadName(destPath.error));
      }
      var p := PathOf(destPath.value);
      var after;
      if e.kind == Directory {
        after := MkdirAll(files, p);
      } else {
        after := Put(files, Write(p, StoredFile(e.data)));
      }
      if after == None {
        return Some(CannotWrite(e.name));
      }
      files := after.value;
      return None;
    }

    method ExtractAt(entries: seq<Entry>, i: nat, dirs: Dirs, ghost start: Files) returns (error: Option<ArchiveError>)
      requires i < |entries| && Outcome(None, files) == ExtractAll(dirs, start, entries[..i])
      modifies this
      ensures Outcome(error, files) == ExtractAll(dirs, start, entries[..i + 1])
    {
      ExtractNext(dirs, start, entries, i);
      error := ExtractEntry(entries[i], dirs);
    }

    method ExtractArchive(entries: seq<Entry>, dirs: Dirs) returns (error: Option<ArchiveError>)
      modifies this
      ensures Outcome(error, files) == ExtractAll(dirs, old(files), entries)
    {
      var i := 0;
      while i < |entries|
        invariant 0 <= i <= |entries|
        invariant Outcome(None, files) == ExtractAll(dirs, old(files), entries[..i])
      {
        error := ExtractAt(entries, i, dirs, old(files));
        if error != None {
          ExtractErrorSticks(dirs, old(files), entries, i + 1);
          return;
        }
        i := i + 1;
      }
      assert entries[..i] == entries;
      return None;
    }

    method SaveSetupToken(configDir: string, hashed: string) returns (error: Option<ArchiveError>)
      modifies this
      ensures Outcome(error, files) == SavedToken(configDir, hashed, old(files))
    {
      var made := MkdirAll(files, PathOf(configDir));
      if made == None {
        return Some(CannotSaveToken);
      }
      files := made.value;
      var after := Create(files, PathOf(JoinPath(configDir, TOKEN_FILE)), hashed);
      if after == None {
        return Some(CannotSaveToken);
      }
      files := after.value;
      return None;
    }

    // Whatever fails verification, or whose first entry named as a manifest cannot be decoded, changes nothing.
    method Restore(entries: seq<Entry>, tempDir: string, dirs: Dirs, hashed: string, c: Codec)
      returns (error: Option<ArchiveError>)
      modifies this
      ensures Outcome(error, files) == Restored(entries, tempDir, dirs, hashed, c, old(files))
      ensures !Passes(entries, tempDir, c) ==>
                files == old(files) && error.Some? && Verified(entries, tempDir, c) == Err(error.value)
      ensures Passes(entries, tempDir, c) && !DecodesFirst(entries, c) ==>
                files == old(files) && error == Some(UnreadableManifest)
      ensures Passes(entries, tempDir, c) && DecodesFirst(entries, c) && !CanBeExtracted(dirs, old(files), entries) ==>
                error.Some? && exists k | 0 <= k < |entries| ::
                                 IsExtractError(dirs, old(files), entries, k, error.value, files)
      ensures Passes(entries, tempDir, c) && DecodesFirst(entries, c) && CanBeExtracted(dirs, old(files), entries) ==>
                var written := Extracted(dirs, old(files), entries);
                written.Some? && Outcome(error, files) == SavedToken(dirs.config, hashed, written.value)
    {
      RestoredIs(entries, tempDir, dirs, hashed, c, files);
      var verified := Verify(entries, tempDir, c);
      if verified.Err? {
        return Some(verified.error);
      }
      var manifest := ExtractManifest(entries, c);
      if manifest.Err? {
        return Some(manifest.error);
      }
      error := ExtractArchive(entries, dirs);
      if error != None {
        return;
      }
      error := SaveSetupToken(dirs.config, hashed);
    }
  }

  // ---- What a restore accepts ----

  // The first entry named as a manifest, of whatever kind, can be decoded.
  ghost predicate DecodesFirst(entries: seq<Entry>, c: Codec) {
    forall k | 0 <= k < |entries| && entries[k].name == "manifest.json" &&
               (forall j | 0 <= j < k :: entries[j].name != "manifest.json") ::
      c.decode(entries[k].data).Some?
  }

  lemma {:induction false} FirstNamedIs(entries: seq<Entry>, name: string, k: nat)
    requires k < |entries| && entries[k].name == name && forall j | 0 <= j < k :: entries[j].name != name
    ensures FirstNamed(entries, name) == Some(entries[k])
  {
    if k > 0 {
      assert entries[0].name != name;
      FirstNamedIs(entries[1..], name, k - 1);
    }
  }

  lemma FirstPlace(entries: seq<Entry>, name: string) returns (k: nat)
    ensures k <= |entries| && (k < |entries| ==> entries[k].name == name)
    ensures forall j | 0 <= j < k :: entries[j].name != name
  {
    k := 0;
    while k < |entries| && entries[k].name != name
      invariant k <= |entries| && forall j | 0 <= j < k :: entries[j].name != name
    {
      k := k + 1;
    }
  }

  lemma ManifestObjectionIs(entries: seq<Entry>, tempDir: string, c: Codec)
    requires Passes(entries, tempDir, c)
    ensures ManifestObjection(entries, c) == if DecodesFirst(entries, c) then None else Some(UnreadableManifest)
  {
    var m :| IsManifestOf(entries, c, m);
    var k := FirstPlace(entries, "manifest.json");
    FirstNamedIs(entries, "manifest.json", k);
  }

  // The outcomes of a restore.
  lemma RestoredIs(entries: seq<Entry>, tempDir: string, dirs: Dirs, hashed: string, c: Codec, files: Files)
    ensures var out := Restored(entries, tempDir, dirs, hashed, c, files);
            if !Passes(entries, tempDir, c) then
              out.files == files && out.error.Some? && Verified(entries, tempDir, c) == Err(out.error.value)
            else if !DecodesFirst(entries, c) then out == Outcome(Some(UnreadableManifest), files)
            else if !CanBeExtracted(dirs, files, entries) then
              out.error.Some? && exists k | 0 <= k < |entries| ::
                                   IsExtractError(dirs, files, entries, k, out.error.value, out.files)
            else
              var written := Extracted(dirs, files, entries);
              written.Some? && out == SavedToken(dirs.config, hashed, written.value)
  {
    VerifiedIff(entries, tempDir, c);
    if Passes(entries, tempDir, c) {
      ManifestObjectionIs(entries, tempDir, c);
      ExtractAllIff(dirs, files, entries);
      if !CanBeExtracted(dirs, files, entries) {
        var k := StopsAtFirstError(dirs, files, entries);
      }
    }
  }

  // Why an entry is refused whatever is on disk, if it is.
  function RestoreObjection(dirs: Dirs, e: Entry): Option<ArchiveError> {
    if e.kind == Link then Some(LinkEntry(e.name))
    else
      match SafeExtractPath(dirs.Of(Route(e.name)), e.name)
      case Err(cause) => Some(BadName(cause))
      case Ok(_) => None
  }

  function RestoreWrite(dirs: Dirs, e: Entry): Write {
    WriteBelow(dirs.Of(Route(e.name)), e)
  }

  function RestoreWrites(dirs: Dirs, entries: seq<Entry>): seq<Write> {
    seq(|entries|, i requires 0 <= i < |entries| => RestoreWrite(dirs, entries[i]))
  }

  // The entries a restore looks at.
  function Contents(entries: seq<Entry>): seq<Entry> {
    if entries == [] then [] else
      var n := |entries| - 1;
      if entries[n].name == "manifest.json" then Contents(entries[..n]) else Contents(entries[..n]) + [entries[n]]
  }

  lemma PutSnoc(files: Files, ws: seq<Write>, w: Write)
    ensures PutAll(files, ws + [w]) == match PutAll(files, ws) case None => None case Some(before) => Put(before, w)
  {
    assert (ws + [w])[..|ws|] == ws;
  }

  lemma RestoreWritesSnoc(dirs: Dirs, entries: seq<Entry>, e: Entry)
    ensures RestoreWrites(dirs, entries + [e]) == RestoreWrites(dirs, entries) + [RestoreWrite(dirs, e)]
  {
  }

  // What the contents of an archive leave.
  function Extracted(dirs: Dirs, files: Files, entries: seq<Entry>): Option<Files> {
    PutAll(files, RestoreWrites(dirs, Contents(entries)))
  }

  lemma ExtractedNext(dirs: Dirs, files: Files, entries: seq<Entry>)
    requires entries != []
    ensures var e, front := entries[|entries| - 1], Extracted(dirs, files, entries[..|entries| - 1]);
            Extracted(dirs, files, entries) ==
            if e.name == "manifest.json" then front
            else match front case None => None case Some(before) => Put(before, RestoreWrite(dirs, e))
  {
    var front, e := Contents(entries[..|entries| - 1]), entries[|entries| - 1];
    RestoreWritesSnoc(dirs, front, e);
    PutSnoc(files, RestoreWrites(dirs, front), RestoreWrite(dirs, e));
  }

  // No link, and no name that leaves its base directory; manifests are not looked at.
  predicate IsExtractable(dirs: Dirs, e: Entry) {
    || e.name == "manifest.json"
    || (e.kind != Link && SafeExtractPath(dirs.Of(Route(e.name)), e.name).Ok?)
  }

  ghost predicate AllExtractable(dirs: Dirs, entries: seq<Entry>) {
    forall i | 0 <= i < |entries| :: IsExtractable(dirs, entries[i])
  }

  // Every entry passes by kind and name, and all can be written together.
  ghost predicate CanBeExtracted(dirs: Dirs, files: Files, entries: seq<Entry>) {
    AllExtractable(dirs, entries) && Extracted(dirs, files, entries).Some?
  }

  lemma AllExtractableNext(dirs: Dirs, entries: seq<Entry>)
    requires entries != []
    ensures AllExtractable(dirs, entries) <==>
            AllExtractable(dirs, entries[..|entries| - 1]) && IsExtractable(dirs, entries[|entries| - 1])
  {
    var n := |entries| - 1;
    assert forall i | 0 <= i < n :: entries[..n][i] == entries[i];
  }

  /** A restore gets through an archive exactly when it can be extracted, and has then written all its contents. */
  lemma {:induction false} ExtractAllIff(dirs: Dirs, files: Files, entries: seq<Entry>)
    ensures ExtractAll(dirs, files, entries).error == None <==> CanBeExtracted(dirs, files, entries)
    ensures CanBeExtracted(dirs, files, entries) ==>
              Extracted(dirs, files, entries) == Some(ExtractAll(dirs, files, entries).files)
  {
    if entries == [] {
      assert RestoreWrites(dirs, Contents(entries)) == [];
    } else {
      ExtractAllIff(dirs, files, entries[..|entries| - 1]);
      AllExtractableNext(dirs, entries);
      ExtractedNext(dirs, files, entries);
    }
  }

  // Entry k is the first that cannot be extracted, this is why, and the files hold what was in front of it.
  ghost predicate IsExtractError(
    dirs: Dirs, files: Files, entries: seq<Entry>, k: nat, error: ArchiveError, after: Files)
    requires k < |entries|
  {
    && CanBeExtracted(dirs, files, entries[..k])
    && Extracted(dirs, files, entries[..k]) == Some(after)
    && if entries[k].kind == Link then error == LinkEntry(entries[k].name)
       else match SafeExtractPath(dirs.Of(Route(entries[k].name)), entries[k].name)
            case Err(cause) => error == BadName(cause)
            case Ok(_) => error == CannotWrite(entries[k].name)
  }

  /**
    A restore stops at the first entry it cannot extract: everything in front of that entry has been written,
    nothing behind it, and the error is that entry's.
   */
  lemma {:induction false} StopsAtFirstError(dirs: Dirs, files: Files, entries: seq<Entry>) returns (k: nat)
    requires !CanBeExtracted(dirs, files, entries)
    ensures k < |entries|
    ensures var out := ExtractAll(dirs, files, entries);
            out.error.Some? && IsExtractError(dirs, files, entries, k, out.error.value, out.files)
  {
    ExtractAllIff(dirs, files, entries);
    assert RestoreWrites(dirs, Contents([])) == [];
    var n := |entries| - 1;
    ExtractAllIff(dirs, files, entries[..n]);
    if CanBeExtracted(dirs, files, entries[..n]) {
      k := n;
    } else {
      k := StopsAtFirstError(dirs, files, entries[..n]);
      assert entries[..n][..k] == entries[..k];
    }
  }
}
