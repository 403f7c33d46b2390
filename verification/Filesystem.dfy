/** A file system seen through cleaned path names: making directories, creating files, and what many writes leave. */
module Filesystem {
  import opened Wrappers
  import opened Text
  import opened Paths

  // The elements of a cleaned path; a path without elements is the root or the working directory.
  datatype Path = Path(rooted: bool, parts: seq<string>) {
    function Parent(): Path
      requires parts != []
    {
      Path(rooted, parts[..|parts| - 1])
    }
  }

  datatype Item = StoredFile(data: string) | StoredDir

  type Files = map<Path, Item>

  function PathOf(name: string): Path {
    Path(IsRooted(name), Normal(Split(name, '/'), IsRooted(name)))
  }

  predicate IsFile(files: Files, p: Path) {
    p in files && files[p].StoredFile?
  }

  predicate IsDirectory(files: Files, p: Path) {
    p.parts == [] || (p in files && files[p].StoredDir?)
  }

  // p is q or one of the directories above it, other than the root.
  predicate IsOnPath(p: Path, q: Path) {
    p.parts != [] && p.rooted == q.rooted && p.parts <= q.parts
  }

  // Everything stored lies in stored directories.
  ghost predicate IsTree(files: Files) {
    forall p | p in files :: p.parts != [] && IsDirectory(files, p.Parent())
  }

  // ---- os.MkdirAll and os.Create ----

  function MkdirAll(files: Files, p: Path): Option<Files>
    decreases |p.parts|
  {
    if p.parts == [] then Some(files)
    else if p in files then if files[p].StoredDir? then Some(files) else None
    else
      match MkdirAll(files, p.Parent())
      case None => None
      case Some(above) => Some(above[p := StoredDir])
  }

  function Create(files: Files, p: Path, data: string): Option<Files> {
    if p.parts == [] || (p in files && files[p].StoredDir?) || !IsDirectory(files, p.Parent()) then None
    else Some(files[p := StoredFile(data)])
  }

  datatype Write = Write(path: Path, item: Item)

  // A directory is made with everything above it; so is a file's directory before the file.
  function Put(files: Files, w: Write): Option<Files> {
    match w.item
    case StoredDir => MkdirAll(files, w.path)
    case StoredFile(data) =>
      if w.path.parts == [] then None else
        match MkdirAll(files, w.path.Parent())
        case None => None
        case Some(above) => Create(above, w.path, data)
  }

  // Writes one after the other, up to the first that fails.
  function PutAll(files: Files, ws: seq<Write>): Option<Files> {
    if ws == [] then Some(files) else
      match PutAll(files, ws[..|ws| - 1])
      case None => None
      case Some(before) => Put(before, ws[|ws| - 1])
  }

  // ---- One write ----

  // The directories a write relies on.
  predicate WantsDir(w: Write, p: Path) {
    IsOnPath(p, w.path) && (p != w.path || w.item.StoredDir?)
  }

  // Nothing of the other kind is in the way of a write.
  ghost predicate Fits(files: Files, w: Write) {
    (forall p | WantsDir(w, p) :: !IsFile(files, p)) && (w.item.StoredFile? ==> !IsDirectory(files, w.path))
  }

  lemma {:induction false} UnderDirectory(files: Files, p: Path, q: Path)
    requires IsTree(files) && IsOnPath(p, q) && IsDirectory(files, q)
    ensures IsDirectory(files, p)
    decreases |q.parts|
  {
    if p != q {
      assert q.parts != p.parts;
      UnderDirectory(files, p, q.Parent());
    }
  }

  // Nothing stored as a file at p or above it.
  ghost predicate Clear(files: Files, p: Path) {
    forall q | IsOnPath(q, p) :: !IsFile(files, q)
  }

  // p and everything above it are directories, nothing else has changed.
  ghost predicate Made(files: Files, p: Path, after: Files) {
    && IsTree(after) && IsDirectory(after, p)
    && forall q :: (q in after <==> q in files || IsOnPath(q, p)) &&
                   (q in after ==> after[q] == if IsOnPath(q, p) then StoredDir else files[q])
  }

  lemma OnParentPath(q: Path, p: Path)
    requires p.parts != []
    ensures IsOnPath(q, p) <==> q == p || IsOnPath(q, p.Parent())
  {
    if IsOnPath(q, p) && q != p {
      assert q.parts != p.parts;
    }
  }

  lemma ExistingDirectory(files: Files, p: Path)
    requires IsTree(files) && p in files && files[p].StoredDir?
    ensures Clear(files, p) && Made(files, p, files)
  {
    forall q | IsOnPath(q, p)
      ensures IsDirectory(files, q)
    {
      UnderDirectory(files, q, p);
    }
  }

  lemma ClearUp(files: Files, p: Path)
    requires p.parts != [] && p !in files
    ensures Clear(files, p) <==> Clear(files, p.Parent())
  {
    forall q
      ensures IsOnPath(q, p) <==> q == p || IsOnPath(q, p.Parent())
    {
      OnParentPath(q, p);
    }
  }

  lemma MadeBelow(files: Files, p: Path, above: Files)
    requires p.parts != [] && p !in files && Made(files, p.Parent(), above)
    ensures Made(files, p, above[p := StoredDir])
  {
    forall q
      ensures IsOnPath(q, p) <==> q == p || IsOnPath(q, p.Parent())
    {
      OnParentPath(q, p);
    }
  }

  lemma {:induction false} MkdirAllIff(files: Files, p: Path)
    requires IsTree(files)
    ensures MkdirAll(files, p).Some? <==> Clear(files, p)
    ensures MkdirAll(files, p).Some? ==> Made(files, p, MkdirAll(files, p).value)
    decreases |p.parts|
  {
    if p.parts == [] {
    } else if p in files {
      assert IsOnPath(p, p);
      if files[p].StoredDir? {
        ExistingDirectory(files, p);
      }
    } else {
      MkdirAllIff(files, p.Parent());
      ClearUp(files, p);
      if MkdirAll(files, p.Parent()).Some? {
        MadeBelow(files, p, MkdirAll(files, p.Parent()).value);
      }
    }
  }

  // The written path holds its item, everything above it is a directory, nothing else has changed.
  ghost predicate Placed(files: Files, w: Write, after: Files) {
    && IsTree(after)
    && forall q :: (q in after <==> q in files || IsOnPath(q, w.path)) &&
                   (q in after ==> after[q] == if q == w.path then w.item
                                               else if IsOnPath(q, w.path) then StoredDir else files[q])
  }

  lemma PutDirIff(files: Files, p: Path)
    requires IsTree(files) && p.parts != []
    ensures MkdirAll(files, p).Some? <==> Fits(files, Write(p, StoredDir))
    ensures MkdirAll(files, p).Some? ==> Placed(files, Write(p, StoredDir), MkdirAll(files, p).value)
  {
    MkdirAllIff(files, p);
    assert forall q :: WantsDir(Write(p, StoredDir), q) <==> IsOnPath(q, p);
    assert IsOnPath(p, p);
  }

  lemma PutFileIff(files: Files, p: Path, data: string)
    requires IsTree(files) && p.parts != []
    ensures var w := Write(p, StoredFile(data));
            && (Put(files, w).Some? <==> Fits(files, w))
            && (Put(files, w).Some? ==> Placed(files, w, Put(files, w).value))
  {
    var w := Write(p, StoredFile(data));
    MkdirAllIff(files, p.Parent());
    forall q
      ensures WantsDir(w, q) <==> IsOnPath(q, p.Parent())
      ensures IsOnPath(q, p) <==> q == p || IsOnPath(q, p.Parent())
    {
      OnParentPath(q, p);
    }
    assert !IsOnPath(p, p.Parent());
    assert Clear(files, p.Parent()) ==> (Fits(files, w) <==> !IsDirectory(files, p));
    if Put(files, w).Some? {
      FilePlaced(files, p, data, MkdirAll(files, p.Parent()).value);
    }
  }

  lemma FilePlaced(files: Files, p: Path, data: string, above: Files)
    requires p.parts != [] && Made(files, p.Parent(), above) && !IsDirectory(above, p)
    ensures Placed(files, Write(p, StoredFile(data)), above[p := StoredFile(data)])
  {
    forall q
      ensures IsOnPath(q, p) <==> q == p || IsOnPath(q, p.Parent())
    {
      OnParentPath(q, p);
    }
  }

  /**
    A write succeeds exactly when nothing of the other kind is in its way; it makes its path and changes nothing else.
   */
  lemma PutIff(files: Files, w: Write)
    requires IsTree(files) && w.path.parts != []
    ensures Put(files, w).Some? <==> Fits(files, w)
    ensures Put(files, w).Some? ==> Placed(files, w, Put(files, w).value)
  {
    match w.item
    case StoredDir => PutDirIff(files, w.path);
    case StoredFile(data) => PutFileIff(files, w.path, data);
  }

  // ---- Many writes ----

  ghost function Elements(ws: seq<Write>): iset<Write> {
    iset w | w in ws
  }

  ghost predicate AllBelowRoot(wanted: iset<Write>) {
    forall w | w in wanted :: w.path.parts != []
  }

  ghost predicate AllFit(files: Files, wanted: iset<Write>) {
    forall w | w in wanted :: Fits(files, w)
  }

  // The first write needs a directory where the second one stores a file.
  predicate Collides(v: Write, w: Write) {
    w.item.StoredFile? && WantsDir(v, w.path)
  }

  ghost predicate NoneCollide(wanted: iset<Write>) {
    forall v, w | v in wanted && w in wanted :: !Collides(v, w)
  }

  ghost predicate CollidesWithNone(wanted: iset<Write>, w: Write) {
    forall v | v in wanted :: !Collides(v, w) && !Collides(w, v)
  }

  ghost predicate AnyWantsDir(wanted: iset<Write>, p: Path) {
    exists w :: w in wanted && WantsDir(w, p)
  }

  ghost predicate AnyStoresFile(wanted: iset<Write>, p: Path) {
    exists w :: w in wanted && w.path == p && w.item.StoredFile?
  }

  // What successful writes leave, kind by kind.
  ghost predicate KindsAfter(files: Files, wanted: iset<Write>, after: Files) {
    && IsTree(after)
    && forall p: Path | p.parts != [] ::
         && (IsDirectory(after, p) <==> IsDirectory(files, p) || AnyWantsDir(wanted, p))
         && (IsFile(after, p) <==> IsFile(files, p) || AnyStoresFile(wanted, p))
  }

  lemma KindsOfPlaced(before: Files, w: Write, after: Files, p: Path)
    requires Placed(before, w, after) && Fits(before, w) && p.parts != []
    ensures IsDirectory(after, p) <==> IsDirectory(before, p) || WantsDir(w, p)
    ensures IsFile(after, p) <==> IsFile(before, p) || (w.path == p && w.item.StoredFile?)
  {
    assert IsOnPath(w.path, w.path) || w.path.parts == [];
  }

  lemma AnyNext(front: iset<Write>, w: Write, p: Path)
    ensures AnyWantsDir(front + iset{w}, p) <==> AnyWantsDir(front, p) || WantsDir(w, p)
    ensures AnyStoresFile(front + iset{w}, p) <==> AnyStoresFile(front, p) || (w.path == p && w.item.StoredFile?)
  {
    assert w in front + iset{w};
    assert forall v | v in front :: v in front + iset{w};
  }

  lemma KindsNext(files: Files, front: iset<Write>, before: Files, w: Write, after: Files)
    requires KindsAfter(files, front, before) && Placed(before, w, after) && Fits(before, w)
    ensures KindsAfter(files, front + iset{w}, after)
  {
    forall p: Path | p.parts != []
      ensures IsDirectory(after, p) <==> IsDirectory(files, p) || AnyWantsDir(front + iset{w}, p)
      ensures IsFile(after, p) <==> IsFile(files, p) || AnyStoresFile(front + iset{w}, p)
    {
      AnyNext(front, w, p);
      KindsOfPlaced(before, w, after, p);
    }
  }

  // A write fits behind others exactly when it fitted before them and collides with none.
  lemma FitsAfter(files: Files, front: iset<Write>, before: Files, w: Write)
    requires KindsAfter(files, front, before) && w.path.parts != []
    ensures Fits(before, w) <==> Fits(files, w) && CollidesWithNone(front, w)
  {
    if Fits(before, w) {
      forall p | WantsDir(w, p)
        ensures !IsFile(files, p) && !AnyStoresFile(front, p)
      {
        assert !IsFile(before, p);
      }
      forall v | v in front
        ensures !Collides(v, w) && !Collides(w, v)
      {
        assert WantsDir(v, w.path) ==> AnyWantsDir(front, w.path);
        assert v.item.StoredFile? ==> AnyStoresFile(front, v.path);
      }
    } else if CollidesWithNone(front, w) {
      forall p | WantsDir(w, p)
        ensures !AnyStoresFile(front, p)
      {
      }
    }
  }

  lemma ElementsNext(ws: seq<Write>)
    requires ws != []
    ensures Elements(ws) == Elements(ws[..|ws| - 1]) + iset{ws[|ws| - 1]}
  {
    assert ws == ws[..|ws| - 1] + [ws[|ws| - 1]];
  }

  lemma AllFitNext(files: Files, front: iset<Write>, w: Write)
    ensures AllFit(files, front + iset{w}) <==> AllFit(files, front) && Fits(files, w)
    ensures NoneCollide(front + iset{w}) <==> NoneCollide(front) && CollidesWithNone(front, w)
    ensures AllBelowRoot(front + iset{w}) <==> AllBelowRoot(front) && w.path.parts != []
  {
    var all := front + iset{w};
    assert w in all && forall v | v in front :: v in all;
    assert !Collides(w, w);
  }

  /**
    Many writes succeed exactly when each fits what was stored before and none needs a directory where another one
    stores a file.
   */
  lemma {:induction false} PutAllIff(files: Files, ws: seq<Write>)
    requires IsTree(files) && AllBelowRoot(Elements(ws))
    ensures PutAll(files, ws).Some? <==> AllFit(files, Elements(ws)) && NoneCollide(Elements(ws))
    ensures PutAll(files, ws).Some? ==> KindsAfter(files, Elements(ws), PutAll(files, ws).value)
  {
    if ws != [] {
      var front, w := ws[..|ws| - 1], ws[|ws| - 1];
      ElementsNext(ws);
      AllFitNext(files, Elements(front), w);
      PutAllIff(files, front);
      if PutAll(files, front).Some? {
        var before := PutAll(files, front).value;
        FitsAfter(files, Elements(front), before, w);
        PutIff(before, w);
        if Put(before, w).Some? {
          KindsNext(files, Elements(front), before, w, Put(before, w).value);
        }
      }
    }
  }

  // ---- What many writes leave ----

  ghost predicate AgreeAt(a: Files, b: Files, p: Path) {
    (p in a <==> p in b) && (p in a ==> a[p] == b[p])
  }

  predicate Holds(files: Files, p: Path, item: Item) {
    p in files && files[p] == item
  }

  ghost predicate AnyTouches(wanted: iset<Write>, p: Path) {
    exists w :: w in wanted && IsOnPath(p, w.path)
  }

  // Every written path holds its item, the directories above are there, nothing else has changed.
  ghost predicate AllWritten(files: Files, wanted: iset<Write>, after: Files) {
    && (forall w | w in wanted :: Holds(after, w.path, w.item))
    && (forall p | AnyWantsDir(wanted, p) :: IsDirectory(after, p))
    && (forall p | !AnyTouches(wanted, p) :: AgreeAt(after, files, p))
  }

  // The writes put different items at one path, or the first needs a directory where the second stores a file.
  predicate IsInTheWay(v: Write, w: Write) {
    (v.path == w.path && v.item != w.item) || Collides(v, w)
  }

  ghost predicate NoneInTheWay(wanted: iset<Write>) {
    forall v, w | v in wanted && w in wanted :: !IsInTheWay(v, w)
  }

  lemma LastPut(files: Files, ws: seq<Write>)
    requires IsTree(files) && AllBelowRoot(Elements(ws)) && ws != [] && PutAll(files, ws).Some?
    ensures AllBelowRoot(Elements(ws[..|ws| - 1])) && ws[|ws| - 1].path.parts != []
    ensures var before, w := PutAll(files, ws[..|ws| - 1]), ws[|ws| - 1];
            before.Some? && Fits(before.value, w) && Placed(before.value, w, PutAll(files, ws).value)
  {
    ElementsNext(ws);
    AllFitNext(files, Elements(ws[..|ws| - 1]), ws[|ws| - 1]);
    PutAllIff(files, ws[..|ws| - 1]);
    PutIff(PutAll(files, ws[..|ws| - 1]).value, ws[|ws| - 1]);
  }

  lemma {:induction false} UntouchedAgrees(files: Files, ws: seq<Write>, p: Path)
    requires IsTree(files) && AllBelowRoot(Elements(ws)) && PutAll(files, ws).Some?
    requires !AnyTouches(Elements(ws), p)
    ensures AgreeAt(PutAll(files, ws).value, files, p)
  {
    if ws != [] {
      LastPut(files, ws);
      ElementsNext(ws);
      assert ws[|ws| - 1] in Elements(ws);
      assert forall w | w in Elements(ws[..|ws| - 1]) :: w in Elements(ws);
      UntouchedAgrees(files, ws[..|ws| - 1], p);
    }
  }

  lemma StoredSurvives(before: Files, v: Write, after: Files, w: Write)
    requires Fits(before, v) && Placed(before, v, after) && Holds(before, w.path, w.item)
    requires v.path == w.path ==> v.item == w.item
    ensures Holds(after, w.path, w.item)
  {
    if w.path != v.path && IsOnPath(w.path, v.path) {
      assert WantsDir(v, w.path);
    }
  }

  lemma IsStored(before: Files, w: Write, after: Files)
    requires Placed(before, w, after) && w.path.parts != []
    ensures Holds(after, w.path, w.item)
  {
    assert IsOnPath(w.path, w.path);
  }

  // A path is written for good if all its writes agree.
  lemma {:induction false} WrittenIsHeld(files: Files, ws: seq<Write>, w: Write)
    requires IsTree(files) && AllBelowRoot(Elements(ws)) && PutAll(files, ws).Some? && w in Elements(ws)
    requires forall v | v in Elements(ws) && v.path == w.path :: v.item == w.item
    ensures Holds(PutAll(files, ws).value, w.path, w.item)
  {
    var front, v := ws[..|ws| - 1], ws[|ws| - 1];
    LastPut(files, ws);
    ElementsNext(ws);
    if v == w {
      IsStored(PutAll(files, front).value, w, PutAll(files, ws).value);
    } else {
      WrittenIsHeld(files, front, w);
      StoredSurvives(PutAll(files, front).value, v, PutAll(files, ws).value, w);
    }
  }

  /**
    Many writes succeed and all of them last, with nothing else changed, exactly when each fits what was stored before
    and no two of them are in each other's way.
   */
  lemma WrittenIff(files: Files, ws: seq<Write>)
    requires IsTree(files) && AllBelowRoot(Elements(ws))
    ensures PutAll(files, ws).Some? && AllWritten(files, Elements(ws), PutAll(files, ws).value) <==>
            AllFit(files, Elements(ws)) && NoneInTheWay(Elements(ws))
  {
    var wanted := Elements(ws);
    PutAllIff(files, ws);
    if PutAll(files, ws).Some? {
      var after := PutAll(files, ws).value;
      if NoneInTheWay(wanted) {
        ManyAreWritten(files, ws);
      } else if AllWritten(files, wanted, after) {
        WrittenAgree(files, wanted, after);
      }
    } else if NoneInTheWay(wanted) {
      assert forall v, w | v in wanted && w in wanted :: !IsInTheWay(v, w);
    }
  }

  lemma WrittenAgree(files: Files, wanted: iset<Write>, after: Files)
    requires AllWritten(files, wanted, after) && NoneCollide(wanted)
    ensures NoneInTheWay(wanted)
  {
    forall v, w | v in wanted && w in wanted
      ensures !IsInTheWay(v, w)
    {
      assert Holds(after, v.path, v.item) && Holds(after, w.path, w.item);
    }
  }

  lemma ManyAreWritten(files: Files, ws: seq<Write>)
    requires IsTree(files) && AllBelowRoot(Elements(ws)) && PutAll(files, ws).Some? && NoneInTheWay(Elements(ws))
    ensures AllWritten(files, Elements(ws), PutAll(files, ws).value)
  {
    var wanted, after := Elements(ws), PutAll(files, ws).value;
    PutAllIff(files, ws);
    forall w | w in wanted
      ensures Holds(after, w.path, w.item)
    {
      assert forall v | v in wanted :: !IsInTheWay(v, w);
      WrittenIsHeld(files, ws, w);
    }
    forall p | AnyWantsDir(wanted, p)
      ensures IsDirectory(after, p)
    {
      assert p.parts != [];
    }
    forall p | !AnyTouches(wanted, p)
      ensures AgreeAt(after, files, p)
    {
      UntouchedAgrees(files, ws, p);
    }
  }

  // Neither write lies on the other's path.
  predicate AreApart(v: Write, w: Write) {
    !IsOnPath(v.path, w.path) && !IsOnPath(w.path, v.path)
  }

  // A write apart from all the others is in nobody's way.
  lemma ApartIsNotInTheWay(wanted: iset<Write>, w: Write)
    requires NoneInTheWay(wanted) && AllBelowRoot(wanted) && forall v | v in wanted :: AreApart(v, w)
    ensures NoneInTheWay(wanted + iset{w})
  {
    forall u, v | u in wanted + iset{w} && v in wanted + iset{w}
      ensures !IsInTheWay(u, v)
    {
      assert u in wanted ==> IsOnPath(u.path, u.path);
      assert v in wanted ==> IsOnPath(v.path, v.path);
      assert u in wanted && v in wanted ==> !IsInTheWay(u, v);
    }
  }
}
