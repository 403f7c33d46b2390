/**
  Backup archives: walking directory trees into a sequence of entries with a running hash transcript, and reading
  that sequence back twice - once to verify it, once to restore it under two base directories.
 */
module ArchiveFormat {
  import opened Wrappers
  import opened Text
  import opened Paths

  datatype Node = FileNode(data: string) | DirNode(children: seq<Child>)

  datatype Child = Child(name: string, node: Node)

  datatype Kind = Directory | Regular | Link | Other

  // A tar member; characters stand for bytes.
  datatype Entry = Entry(name: string, kind: Kind, data: string)

  const MANIFEST := "manifest.json"

  // ---- Trees ----

  function Find(children: seq<Child>, name: string): Option<Node> {
    if children == [] then None
    else if children[0].name == name then Some(children[0].node)
    else Find(children[1..], name)
  }

  function Lookup(node: Node, path: seq<string>): Option<Node>
    decreases |path|
  {
    if path == [] then Some(node)
    else if node.FileNode? then None
    else
      match Find(node.children, path[0])
      case None => None
      case Some(next) => Lookup(next, path[1..])
  }

  // File names are plain, NUL-free and distinct within their directory.
  predicate WellFormed(node: Node) {
    node.DirNode? ==>
      && (forall i | 0 <= i < |node.children| ::
            IsPlain(node.children[i].name) && '\0' !in node.children[i].name && WellFormed(node.children[i].node))
      && (forall i, j | 0 <= i < j < |node.children| :: node.children[i].name != node.children[j].name)
  }

  // ---- Walking ----

  // The entry of one walked file or directory.
  function EntryFor(path: seq<string>, node: Node): Entry {
    match node
    case FileNode(data) => Entry(MemberName(path, false), Regular, data)
    case DirNode(_) => Entry(MemberName(path, true), Directory, "")
  }

  // filepath.Walk: a directory, then its children.
  function WalkNode(path: seq<string>, node: Node): seq<Entry>
    decreases node, 1
  {
    [EntryFor(path, node)] + if node.DirNode? then WalkChildren(path, node.children) else []
  }

  function WalkChildren(path: seq<string>, children: seq<Child>): seq<Entry>
    decreases children, 0
  {
    if children == [] then [] else
      WalkNode(path + [children[0].name], children[0].node) + WalkChildren(path, children[1..])
  }

  // What the hasher is fed for a member: its name, a newline, its bytes.
  function Fed(e: Entry): string {
    e.name + "\n" + if e.kind == Regular then e.data else ""
  }

  function FedUnless(e: Entry, skipped: set<string>): string {
    if e.name in skipped then "" else Fed(e)
  }

  function Pieces(entries: seq<Entry>, skipped: set<string>): seq<string> {
    seq(|entries|, i requires 0 <= i < |entries| => FedUnless(entries[i], skipped))
  }

  // Everything fed to the hasher, in order, leaving out the members with skipped names.
  function Transcript(entries: seq<Entry>, skipped: set<string>): string {
    Flat(Pieces(entries, skipped))
  }

  lemma PiecesConcat(a: seq<Entry>, b: seq<Entry>, skipped: set<string>)
    ensures Pieces(a + b, skipped) == Pieces(a, skipped) + Pieces(b, skipped)
  {
  }

  lemma TranscriptConcat(a: seq<Entry>, b: seq<Entry>, skipped: set<string>)
    ensures Transcript(a + b, skipped) == Transcript(a, skipped) + Transcript(b, skipped)
  {
    PiecesConcat(a, b, skipped);
    FlatConcat(Pieces(a, skipped), Pieces(b, skipped));
  }

  lemma TranscriptOfOne(e: Entry, skipped: set<string>)
    ensures Transcript([e], skipped) == FedUnless(e, skipped)
  {
    assert Pieces([e], skipped) == [FedUnless(e, skipped)];
    FlatOfOne(FedUnless(e, skipped));
  }

  lemma NothingSkipped(entries: seq<Entry>, skipped: set<string>)
    requires forall e | e in entries :: e.name !in skipped
    ensures Transcript(entries, skipped) == Transcript(entries, {})
  {
    assert Pieces(entries, skipped) == Pieces(entries, {});
  }

  // ---- The walk meets exactly the nodes of the tree ----

  lemma {:induction false} FindIsUnique(children: seq<Child>, i: nat)
    requires i < |children|
    requires forall j, k | 0 <= j < k < |children| :: children[j].name != children[k].name
    ensures Find(children, children[i].name) == Some(children[i].node)
  {
    if i > 0 {
      assert children[1..][i - 1] == children[i];
      FindIsUnique(children[1..], i - 1);
    }
  }

  lemma {:induction false} FoundIsChild(children: seq<Child>, name: string)
    requires Find(children, name).Some?
    ensures exists i ::
              0 <= i < |children| && children[i].name == name && Find(children, name) == Some(children[i].node)
  {
    if children[0].name != name {
      FoundIsChild(children[1..], name);
      var rest := children[1..];
      var i :| 0 <= i < |rest| && rest[i].name == name && Find(rest, name) == Some(rest[i].node);
      assert children[i + 1].name == name;
    }
  }

  lemma {:induction false} ChildIsWalked(path: seq<string>, children: seq<Child>, i: nat, e: Entry)
    requires i < |children| && e in WalkNode(path + [children[i].name], children[i].node)
    ensures e in WalkChildren(path, children)
  {
    if i > 0 {
      assert children[1..][i - 1] == children[i];
      ChildIsWalked(path, children[1..], i - 1, e);
    }
  }

  /** Everything reachable in the tree is walked, under its own relative path. */
  lemma {:induction false} ReachableIsWalked(path: seq<string>, node: Node, rel: seq<string>)
    requires Lookup(node, rel).Some?
    ensures EntryFor(path + rel, Lookup(node, rel).value) in WalkNode(path, node)
    decreases |rel|
  {
    if rel == [] {
      assert path + rel == path;
    } else {
      var next := Find(node.children, rel[0]).value;
      FoundIsChild(node.children, rel[0]);
      var i :| 0 <= i < |node.children| && node.children[i].name == rel[0] && next == node.children[i].node;
      ReachableIsWalked(path + [rel[0]], next, rel[1..]);
      assert path + [rel[0]] + rel[1..] == path + rel;
      ChildIsWalked(path, node.children, i, EntryFor(path + rel, Lookup(node, rel).value));
    }
  }

  ghost predicate ComesFrom(path: seq<string>, node: Node, rel: seq<string>, e: Entry) {
    AllPlain(rel) && NulFree(rel) && Lookup(node, rel).Some? && e == EntryFor(path + rel, Lookup(node, rel).value)
  }

  predicate NulFree(parts: seq<string>) {
    forall p | p in parts :: '\0' !in p
  }

  /** Nothing else is walked: every entry is some node of the tree at its relative path. */
  lemma {:induction false} WalkedIsReachable(path: seq<string>, node: Node, e: Entry) returns (rel: seq<string>)
    requires WellFormed(node) && e in WalkNode(path, node)
    ensures ComesFrom(path, node, rel, e)
    decreases node, 1
  {
    if e == EntryFor(path, node) {
      rel := [];
      assert path + rel == path;
    } else {
      var i, rest := WalkedChild(path, node.children, e);
      rel := [node.children[i].name] + rest;
      FindIsUnique(node.children, i);
      assert rel[1..] == rest && path + rel == path + [node.children[i].name] + rest;
    }
  }

  lemma {:induction false} WalkedChild(path: seq<string>, children: seq<Child>, e: Entry)
    returns (i: nat, rest: seq<string>)
    requires e in WalkChildren(path, children)
    requires forall k | 0 <= k < |children| :: WellFormed(children[k].node)
    ensures i < |children| && ComesFrom(path + [children[i].name], children[i].node, rest, e)
    decreases children, 0
  {
    if e in WalkNode(path + [children[0].name], children[0].node) {
      i := 0;
      rest := WalkedIsReachable(path + [children[0].name], children[0].node, e);
    } else {
      assert forall k | 0 <= k < |children[1..]| :: children[1..][k] == children[k + 1];
      i, rest := WalkedChild(path, children[1..], e);
      i := i + 1;
    }
  }

  // ---- What the transcript detects ----

  predicate OneLineNames(entries: seq<Entry>) {
    forall e | e in entries :: '\n' !in e.name
  }

  lemma {:induction false} FirstLineDecides(a: string, b: string, x: string, y: string)
    requires '\n' !in a && '\n' !in b && a != b
    ensures a + "\n" + x != b + "\n" + y
  {
    var s, t := a + "\n" + x, b + "\n" + y;
    assert s[|a|] == '\n' && t[|b|] == '\n';
    if |a| < |b| {
      assert t[|a|] == b[|a|] && b[|a|] in b;
    } else if |b| < |a| {
      assert s[|b|] == a[|b|] && a[|b|] in a;
    } else {
      assert s[..|a|] == a && t[..|b|] == b;
    }
  }

  lemma TranscriptOf(front: seq<Entry>, e: Entry, rest: seq<Entry>, skipped: set<string>)
    requires e.name !in skipped
    ensures Transcript(front + [e] + rest, skipped) ==
            Transcript(front, skipped) + (e.name + "\n" + (Body(e) + Transcript(rest, skipped)))
  {
    TranscriptConcat(front + [e], rest, skipped);
    TranscriptConcat(front, [e], skipped);
    TranscriptOfOne(e, skipped);
    Regroup(Transcript(front, skipped), e.name + "\n", Body(e), Transcript(rest, skipped));
  }

  function Body(e: Entry): string {
    if e.kind == Regular then e.data else ""
  }

  lemma Regroup(a: string, b: string, c: string, d: string)
    ensures a + (b + c) + d == a + (b + (c + d))
  {
  }

  lemma SameFront(p: string, s: string, t: string)
    requires s != t
    ensures p + s != p + t
  {
    assert (p + s)[|p|..] == s && (p + t)[|p|..] == t;
  }

  /** Archives that first differ in the name of a member have different transcripts. */
  lemma FirstNameDifferenceIsDetected(
    front: seq<Entry>, a: Entry, x: seq<Entry>, b: Entry, y: seq<Entry>, skipped: set<string>)
    requires a.name != b.name && a.name !in skipped && b.name !in skipped
    requires '\n' !in a.name && '\n' !in b.name
    ensures Transcript(front + [a] + x, skipped) != Transcript(front + [b] + y, skipped)
  {
    TranscriptOf(front, a, x, skipped);
    TranscriptOf(front, b, y, skipped);
    FirstLineDecides(a.name, b.name, Body(a) + Transcript(x, skipped), Body(b) + Transcript(y, skipped));
    SameFront(Transcript(front, skipped), a.name + "\n" + (Body(a) + Transcript(x, skipped)),
              b.name + "\n" + (Body(b) + Transcript(y, skipped)));
  }

  ghost predicate DistinctNames(entries: seq<Entry>) {
    forall i, j | 0 <= i < j < |entries| :: entries[i].name != entries[j].name
  }

  /** Any reordering of members with distinct one-line names changes the transcript. */
  lemma ReorderingIsDetected(a: seq<Entry>, b: seq<Entry>, skipped: set<string>)
    requires multiset(a) == multiset(b) && a != b
    requires DistinctNames(a) && OneLineNames(a) && forall e | e in a :: e.name !in skipped
    ensures Transcript(a, skipped) != Transcript(b, skipped)
  {
    SameLength(a, b);
    var k := FirstDifference(a, b);
    var i := Counterpart(a, b, k);
    assert a[k] in a && b[k] in a;
    assert a == a[..k] + [a[k]] + a[k + 1..] && b == a[..k] + [b[k]] + b[k + 1..];
    FirstNameDifferenceIsDetected(a[..k], a[k], a[k + 1..], b[k], b[k + 1..], skipped);
  }

  lemma SameLength(a: seq<Entry>, b: seq<Entry>)
    requires multiset(a) == multiset(b)
    ensures |a| == |b|
  {
    assert |multiset(a)| == |a| && |multiset(b)| == |b|;
  }

  lemma Counterpart(a: seq<Entry>, b: seq<Entry>, k: nat) returns (i: nat)
    requires multiset(a) == multiset(b) && k < |b|
    ensures i < |a| && a[i] == b[k]
  {
    assert b[k] in multiset(b);
    assert b[k] in a;
    i :| 0 <= i < |a| && a[i] == b[k];
  }

  lemma {:induction false} FirstDifference(a: seq<Entry>, b: seq<Entry>) returns (k: nat)
    requires |a| == |b| && a != b
    ensures k < |a| && a[..k] == b[..k] && a[k] != b[k]
  {
    if a[0] != b[0] {
      k := 0;
    } else {
      assert a == [a[0]] + a[1..] && b == [b[0]] + b[1..];
      k := FirstDifference(a[1..], b[1..]);
      k := k + 1;
      assert a[..k] == [a[0]] + a[1..][..k - 1] && b[..k] == [b[0]] + b[1..][..k - 1];
    }
  }

  /** Renaming one member always changes the transcript, whatever characters the names hold. */
  lemma RenamingIsDetected(front: seq<Entry>, e: Entry, name: string, back: seq<Entry>, skipped: set<string>)
    requires e.name != name && e.name !in skipped && name !in skipped
    ensures Transcript(front + [e] + back, skipped) != Transcript(front + [e.(name := name)] + back, skipped)
  {
    TranscriptOf(front, e, back, skipped);
    TranscriptOf(front, e.(name := name), back, skipped);
    var rest := Body(e) + Transcript(back, skipped);
    DifferentFront(e.name, name, rest);
    SameFront(Transcript(front, skipped), e.name + "\n" + rest, name + "\n" + rest);
  }

  lemma DifferentFront(a: string, b: string, rest: string)
    requires a != b
    ensures a + "\n" + rest != b + "\n" + rest
  {
    var s, t := a + "\n" + rest, b + "\n" + rest;
    if |a| == |b| {
      assert s[..|a|] == a && t[..|b|] == b;
    }
  }

  // ---- Swapping two neighbours ----

  predicate NamesNest(a: string, b: string) {
    a + "\n" <= b + "\n" || b + "\n" <= a + "\n"
  }

  lemma TranscriptOfTwo(front: seq<Entry>, e: Entry, f: Entry, back: seq<Entry>, skipped: set<string>)
    requires e.name !in skipped && f.name !in skipped
    ensures Transcript(front + [e, f] + back, skipped) ==
            Transcript(front, skipped) + (Fed(e) + Fed(f)) + Transcript(back, skipped)
  {
    assert [e, f] == [e] + [f];
    TranscriptConcat(front + [e, f], back, skipped);
    TranscriptConcat(front, [e, f], skipped);
    TranscriptConcat([e], [f], skipped);
    TranscriptOfOne(e, skipped);
    TranscriptOfOne(f, skipped);
  }

  lemma SameMiddle(p: string, s: string, t: string, q: string)
    requires |s| == |t|
    ensures p + s + q == p + t + q <==> s == t
  {
    if p + s + q == p + t + q {
      assert (p + s + q)[|p|..][..|s|] == s && (p + t + q)[|p|..][..|t|] == t;
    }
  }

  // A swap goes unnoticed exactly when the two members feed the same bytes in either order.
  lemma SwapShowsInFed(front: seq<Entry>, e: Entry, f: Entry, back: seq<Entry>, skipped: set<string>)
    requires e.name !in skipped && f.name !in skipped
    ensures Transcript(front + [e, f] + back, skipped) == Transcript(front + [f, e] + back, skipped) <==>
            Fed(e) + Fed(f) == Fed(f) + Fed(e)
  {
    TranscriptOfTwo(front, e, f, back, skipped);
    TranscriptOfTwo(front, f, e, back, skipped);
    SameMiddle(Transcript(front, skipped), Fed(e) + Fed(f), Fed(f) + Fed(e), Transcript(back, skipped));
  }

  lemma EqualStartsNest(a: string, x: string, b: string, y: string)
    requires a + x == b + y
    ensures a <= b || b <= a
  {
    var s := a + x;
    assert s[..|a|] == a && s[..|b|] == b;
    if |a| <= |b| {
      assert b[..|a|] == s[..|a|];
    } else {
      assert a[..|b|] == s[..|b|];
    }
  }

  lemma FedStartsWithName(e: Entry, rest: string)
    ensures Fed(e) + rest == e.name + "\n" + (Body(e) + rest)
  {
    AppendPart(e.name + "\n", Body(e), rest);
  }

  // The bytes that let the name a sit inside the name b: what b adds to a line a.
  lemma NestedNamesHide(a: string, b: string) returns (x: string, y: string)
    requires a + "\n" <= b + "\n"
    ensures Fed(Entry(a, Regular, x)) + Fed(Entry(b, Regular, y)) ==
            Fed(Entry(b, Regular, y)) + Fed(Entry(a, Regular, x))
  {
    var line := a + "\n";
    x, y := (b + "\n")[|line|..], "";
    assert b + "\n" == line + x;
    assert Fed(Entry(b, Regular, y)) == line + x == Fed(Entry(a, Regular, x));
  }

  /**
    Swapping two neighbouring files is visible for all contents exactly when neither name, with its newline, starts
    the other.
   */
  lemma SwapShowsIff(front: seq<Entry>, a: string, b: string, back: seq<Entry>, skipped: set<string>)
    requires a != b && a !in skipped && b !in skipped
    ensures (forall x: string, y: string :: Swapped(front, a, x, b, y, back, skipped)) <==> !NamesNest(a, b)
  {
    if NamesNest(a, b) {
      var x, y;
      if a + "\n" <= b + "\n" {
        x, y := NestedNamesHide(a, b);
      } else {
        y, x := NestedNamesHide(b, a);
      }
      SwapShowsInFed(front, Entry(a, Regular, x), Entry(b, Regular, y), back, skipped);
      assert !Swapped(front, a, x, b, y, back, skipped);
    } else {
      forall x: string, y: string
        ensures Swapped(front, a, x, b, y, back, skipped)
      {
        var e, f := Entry(a, Regular, x), Entry(b, Regular, y);
        SwapShowsInFed(front, e, f, back, skipped);
        FedStartsWithName(e, Fed(f));
        FedStartsWithName(f, Fed(e));
        if Fed(e) + Fed(f) == Fed(f) + Fed(e) {
          EqualStartsNest(a + "\n", x + Fed(f), b + "\n", y + Fed(e));
        }
      }
    }
  }

  // Swapping the two files changes the transcript.
  predicate Swapped(
    front: seq<Entry>, a: string, x: string, b: string, y: string, back: seq<Entry>, skipped: set<string>)
  {
    var e, f := Entry(a, Regular, x), Entry(b, Regular, y);
    Transcript(front + [e, f] + back, skipped) != Transcript(front + [f, e] + back, skipped)
  }

  /** With a newline inside a name, swapping two members can go unnoticed. */
  lemma NewlineNamesHideASwap()
    ensures var a, b := Entry("x", Regular, ""), Entry("x\nx", Regular, "");
            Transcript([a, b], {MANIFEST}) == Transcript([b, a], {MANIFEST})
  {
    var a, b := Entry("x", Regular, ""), Entry("x\nx", Regular, "");
    assert a.name !in {MANIFEST} && b.name !in {MANIFEST};
    SwapShowsInFed([], a, b, [], {MANIFEST});
    assert [] + [a, b] + [] == [a, b] && [] + [b, a] + [] == [b, a];
  }
}
