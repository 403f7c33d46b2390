/** Slash-separated paths: lexical cleaning, joining, and confining a member name to a directory. */
module Paths {
  import opened Wrappers
  import opened Text

  // ---- filepath.Clean and filepath.Join ----

  // Processes ".", ".." and empty elements from left to right.
  function Normal(parts: seq<string>, rooted: bool): seq<string> {
    if parts == [] then [] else NormalStep(Normal(parts[..|parts| - 1], rooted), parts[|parts| - 1], rooted)
  }

  function NormalStep(out: seq<string>, next: string, rooted: bool): seq<string> {
    if next == "" || next == "." then out
    else if next == ".." then
      if out != [] && out[|out| - 1] != ".." then out[..|out| - 1]
      else if rooted then out
      else out + [".."]
    else out + [next]
  }

  lemma NormalSnoc(parts: seq<string>, next: string, rooted: bool)
    ensures Normal(parts + [next], rooted) == NormalStep(Normal(parts, rooted), next, rooted)
  {
    assert (parts + [next])[..|parts|] == parts;
  }

  function Rendered(rooted: bool, parts: seq<string>): string {
    if rooted then "/" + Join(parts, '/') else if parts == [] then "." else Join(parts, '/')
  }

  predicate IsRooted(path: string) {
    path != "" && path[0] == '/'
  }

  function Clean(path: string): string {
    Rendered(IsRooted(path), Normal(Split(path, '/'), IsRooted(path)))
  }

  function JoinPath(dir: string, path: string): string {
    if dir == "" && path == "" then ""
    else if dir == "" then Clean(path)
    else Clean(dir + "/" + path)
  }

  // ---- Plain names ----

  predicate IsPlain(part: string) {
    part != "" && part != "." && part != ".." && '/' !in part
  }

  predicate AllPlain(parts: seq<string>) {
    forall p | p in parts :: IsPlain(p)
  }

  // What Normal produces: no empty or "." element, ".." only in front of an unrooted path.
  predicate IsNormal(parts: seq<string>, rooted: bool) {
    && (forall p | p in parts :: p != "" && p != "." && '/' !in p)
    && (forall i | 0 <= i < |parts| :: parts[i] == ".." ==> !rooted && (i == 0 || parts[i - 1] == ".."))
  }

  lemma {:induction false} NormalIsNormal(parts: seq<string>, rooted: bool)
    requires AllLack(parts, '/')
    ensures IsNormal(Normal(parts, rooted), rooted)
  {
    if parts != [] {
      var n := |parts| - 1;
      assert parts[n] in parts;
      NormalIsNormal(parts[..n], rooted);
    }
  }

  lemma {:induction false} NormalOfNormal(parts: seq<string>, rooted: bool)
    requires IsNormal(parts, rooted)
    ensures Normal(parts, rooted) == parts
  {
    if parts != [] {
      var n := |parts| - 1;
      assert parts[n] in parts;
      NormalOfNormal(parts[..n], rooted);
      assert parts == parts[..n] + [parts[n]];
    }
  }

  lemma {:induction false} NormalThenPlain(parts: seq<string>, plain: seq<string>, rooted: bool)
    requires AllPlain(plain)
    ensures Normal(parts + plain, rooted) == Normal(parts, rooted) + plain
  {
    if plain == [] {
      assert parts + plain == parts;
    } else {
      var n := |plain| - 1;
      assert plain[n] in plain;
      NormalThenPlain(parts, plain[..n], rooted);
      NormalSnoc(parts + plain[..n], plain[n], rooted);
      assert parts + plain == parts + plain[..n] + [plain[n]];
    }
  }

  lemma NormalThenSlash(parts: seq<string>, rooted: bool)
    ensures Normal(parts + [""], rooted) == Normal(parts, rooted)
  {
    NormalSnoc(parts, "", rooted);
  }

  lemma {:induction false} NormalAfterEmpty(parts: seq<string>, rooted: bool)
    ensures Normal([""] + parts, rooted) == Normal(parts, rooted)
  {
    if parts == [] {
      NormalSnoc([], "", rooted);
      assert [] + [""] == [""] + parts;
    } else {
      var n := |parts| - 1;
      NormalAfterEmpty(parts[..n], rooted);
      NormalSnoc([""] + parts[..n], parts[n], rooted);
      assert [""] + parts == [""] + parts[..n] + [parts[n]];
    }
  }

  // ---- Rendered paths read back ----

  lemma {:induction false} JoinConcat(a: seq<string>, b: seq<string>, sep: char)
    requires a != [] && b != []
    ensures Join(a + b, sep) == Join(a, sep) + [sep] + Join(b, sep)
  {
    if |a| == 1 {
      assert (a + b)[1..] == b;
    } else {
      assert (a + b)[1..] == a[1..] + b;
      JoinConcat(a[1..], b, sep);
    }
  }

  lemma SplitRendered(rooted: bool, parts: seq<string>)
    requires AllLack(parts, '/') && parts != []
    ensures Split(Rendered(rooted, parts), '/') == (if rooted then [""] else []) + parts
  {
    SplitAfterJoin(parts, '/');
    if rooted {
      assert Rendered(rooted, parts) == "" + ['/'] + Join(parts, '/');
      SplitConcat("", '/', Join(parts, '/'));
    }
  }

  lemma RootOfRendered(rooted: bool, parts: seq<string>)
    requires IsNormal(parts, rooted) && parts != []
    ensures IsRooted(Rendered(rooted, parts)) == rooted
    ensures Rendered(rooted, parts) != ""
  {
    assert parts[0] in parts && parts[0][0] in parts[0];
    if |parts| > 1 {
      assert Join(parts, '/') == parts[0] + ['/'] + Join(parts[1..], '/');
    }
    assert Join(parts, '/')[0] == parts[0][0];
  }

  lemma NormalOfRendered(rooted: bool, parts: seq<string>)
    requires IsNormal(parts, rooted) && parts != []
    ensures Normal(Split(Rendered(rooted, parts), '/'), rooted) == parts
  {
    SplitRendered(rooted, parts);
    NormalOfNormal(parts, rooted);
    if rooted {
      NormalAfterEmpty(parts, rooted);
    } else {
      assert [] + parts == parts;
    }
  }

  lemma CleanOfRendered(rooted: bool, parts: seq<string>)
    requires IsNormal(parts, rooted) && parts != []
    ensures Clean(Rendered(rooted, parts)) == Rendered(rooted, parts)
  {
    RootOfRendered(rooted, parts);
    NormalOfRendered(rooted, parts);
  }

  // ---- Member names ----

  // A member name: plain elements, with a trailing slash for a directory.
  function MemberName(parts: seq<string>, isDir: bool): string {
    Join(parts, '/') + if isDir then "/" else ""
  }

  predicate IsMember(parts: seq<string>) {
    parts != [] && AllPlain(parts)
  }

  lemma SplitMemberName(parts: seq<string>, isDir: bool)
    requires IsMember(parts)
    ensures Split(MemberName(parts, isDir), '/') == if isDir then parts + [""] else parts
    ensures MemberName(parts, isDir) != "" && parts[0] != "" && MemberName(parts, isDir)[0] == parts[0][0] != '/'
  {
    SplitAfterJoin(parts, '/');
    if isDir {
      assert MemberName(parts, isDir) == Join(parts, '/') + ['/'] + "";
      SplitConcat(Join(parts, '/'), '/', "");
    } else {
      assert MemberName(parts, isDir) == Join(parts, '/');
    }
    PlainIsNormal(parts, false);
    RootOfRendered(false, parts);
    assert parts[0] in parts && parts[0][0] in parts[0];
    assert |parts| > 1 ==> Join(parts, '/') == parts[0] + ['/'] + Join(parts[1..], '/');
  }

  lemma PlainIsNormal(parts: seq<string>, rooted: bool)
    requires AllPlain(parts)
    ensures IsNormal(parts, rooted)
  {
    forall i | 0 <= i < |parts|
      ensures parts[i] != ".."
    {
      assert parts[i] in parts;
    }
  }

  /** Joining a directory and a plain relative name appends the name's elements to the directory's cleaned ones. */
  lemma JoinMember(dir: string, parts: seq<string>, isDir: bool)
    requires IsMember(parts) && dir != ""
    ensures var out := Normal(Split(dir, '/'), IsRooted(dir));
            && JoinPath(dir, MemberName(parts, isDir)) == Rendered(IsRooted(dir), out + parts)
            && IsNormal(out + parts, IsRooted(dir))
  {
    var name, d := MemberName(parts, isDir), Split(dir, '/');
    SplitMemberName(parts, isDir);
    SplitConcat(dir, '/', name);
    assert dir + "/" + name == dir + ['/'] + name;
    NormalThenPlain(d, parts, IsRooted(dir));
    NormalThenSlash(d + parts, IsRooted(dir));
    assert d + (parts + [""]) == d + parts + [""];
    SplitPartsLackSep(dir, '/');
    NormalIsNormal(d, IsRooted(dir));
    NormalExtends(Normal(d, IsRooted(dir)), parts, IsRooted(dir));
  }

  lemma NormalExtends(parts: seq<string>, plain: seq<string>, rooted: bool)
    requires IsNormal(parts, rooted) && AllPlain(plain)
    ensures IsNormal(parts + plain, rooted)
  {
    var all := parts + plain;
    forall i | 0 <= i < |all|
      ensures all[i] == ".." ==> !rooted && (i == 0 || all[i - 1] == "..")
    {
      if i >= |parts| {
        assert all[i] == plain[i - |parts|] && plain[i - |parts|] in plain;
      }
    }
  }

  // ---- safeExtractPath ----

  datatype PathError = InvalidName | Escapes

  function SafeExtractPath(destDir: string, name: string): Result<string, PathError> {
    if '\0' in name then Err(InvalidName) else
      var cleaned := Clean(JoinPath(destDir, name));
      if cleaned != destDir && !(destDir + "/" <= cleaned) then Err(Escapes) else Ok(cleaned)
  }

  // A directory given in its cleaned form, and neither the root nor the current directory.
  predicate IsUsable(destDir: string) {
    Clean(destDir) == destDir && destDir != "/" && destDir != "."
  }

  lemma CleanedMember(destDir: string, parts: seq<string>, isDir: bool)
    requires IsMember(parts) && destDir != ""
    ensures Clean(JoinPath(destDir, MemberName(parts, isDir))) ==
            Rendered(IsRooted(destDir), Normal(Split(destDir, '/'), IsRooted(destDir)) + parts)
  {
    JoinMember(destDir, parts, isDir);
    CleanOfRendered(IsRooted(destDir), Normal(Split(destDir, '/'), IsRooted(destDir)) + parts);
  }

  lemma UsableRenders(destDir: string)
    requires IsUsable(destDir)
    ensures var out := Normal(Split(destDir, '/'), IsRooted(destDir));
            out != [] && Rendered(IsRooted(destDir), out) == destDir
    ensures destDir != ""
  {
    assert Clean("") == ".";
  }

  lemma RenderedConcat(rooted: bool, a: seq<string>, b: seq<string>)
    requires a != [] && b != []
    ensures Rendered(rooted, a + b) == Rendered(rooted, a) + "/" + Join(b, '/')
  {
    JoinConcat(a, b, '/');
  }

  lemma UsableAccepts(destDir: string, parts: seq<string>, isDir: bool)
    requires IsMember(parts) && IsUsable(destDir) && '\0' !in MemberName(parts, isDir)
    ensures SafeExtractPath(destDir, MemberName(parts, isDir)) == Ok(destDir + "/" + Join(parts, '/'))
  {
    UsableRenders(destDir);
    CleanedMember(destDir, parts, isDir);
    RenderedConcat(IsRooted(destDir), Normal(Split(destDir, '/'), IsRooted(destDir)), parts);
  }

  // The parts of a directory that a rendered path continues are the front of the path's parts.
  lemma FrontOfRendered(destDir: string, rooted: bool, parts: seq<string>, rest: string) returns (front: seq<string>)
    requires destDir != "" && IsRooted(destDir) == rooted && IsNormal(parts, rooted) && parts != []
    requires Rendered(rooted, parts) == destDir + "/" + rest
    ensures front <= parts && Split(destDir, '/') == (if rooted then [""] else []) + front
  {
    var d := Split(destDir, '/');
    SplitRendered(rooted, parts);
    assert destDir + "/" + rest == destDir + ['/'] + rest;
    SplitConcat(destDir, '/', rest);
    var all := (if rooted then [""] else []) + parts;
    assert d == all[..|d|];
    front := parts[..|d| - if rooted then 1 else 0];
    assert d == (if rooted then [""] else []) + front;
  }

  lemma PrefixIsRendered(destDir: string, rooted: bool, parts: seq<string>, rest: string)
    requires destDir != "" && IsRooted(destDir) == rooted && IsNormal(parts, rooted) && parts != []
    requires Rendered(rooted, parts) == destDir + "/" + rest
    ensures IsUsable(destDir)
  {
    var front := FrontOfRendered(destDir, rooted, parts, rest);
    assert forall p | p in front :: p in parts;
    JoinAfterSplit(destDir, '/');
    if rooted {
      assert Join([""], '/') == "";
      assert ([""] + front)[1..] == front;
    } else {
      assert [] + front == front;
    }
    assert destDir == Rendered(rooted, front);
    CleanOfRendered(rooted, front);
    RenderedIsUsable(rooted, front);
  }

  lemma RenderedIsUsable(rooted: bool, parts: seq<string>)
    requires IsNormal(parts, rooted) && parts != []
    ensures Rendered(rooted, parts) != "/" && Rendered(rooted, parts) != "."
  {
    SplitRendered(rooted, parts);
    assert parts[0] in parts;
    assert Split("/", '/') == ["", ""];
    SplitWithout(".", '/');
  }

  lemma CleanOfMember(parts: seq<string>, isDir: bool)
    requires IsMember(parts)
    ensures Clean(MemberName(parts, isDir)) == Rendered(false, parts)
  {
    SplitMemberName(parts, isDir);
    PlainIsNormal(parts, false);
    NormalOfNormal(parts, false);
    NormalThenSlash(parts, false);
  }

  lemma EmptyRejects(parts: seq<string>, isDir: bool)
    requires IsMember(parts)
    ensures SafeExtractPath("", MemberName(parts, isDir)).Err?
  {
    SplitMemberName(parts, isDir);
    CleanOfMember(parts, isDir);
    PlainIsNormal(parts, false);
    CleanOfRendered(false, parts);
    RootOfRendered(false, parts);
  }

  lemma NotTheDirectory(destDir: string, parts: seq<string>)
    requires parts != [] && IsNormal(Normal(Split(destDir, '/'), IsRooted(destDir)) + parts, IsRooted(destDir))
    ensures Rendered(IsRooted(destDir), Normal(Split(destDir, '/'), IsRooted(destDir)) + parts) != destDir
  {
    NormalOfRendered(IsRooted(destDir), Normal(Split(destDir, '/'), IsRooted(destDir)) + parts);
  }

  lemma RejectsUnlessUsable(destDir: string, parts: seq<string>, isDir: bool)
    requires IsMember(parts) && destDir != "" && SafeExtractPath(destDir, MemberName(parts, isDir)).Ok?
    ensures IsUsable(destDir)
  {
    var rooted := IsRooted(destDir);
    var all := Normal(Split(destDir, '/'), rooted) + parts;
    CleanedMember(destDir, parts, isDir);
    JoinMember(destDir, parts, isDir);
    NotTheDirectory(destDir, parts);
    var rest := RestOf(Rendered(rooted, all), destDir + "/");
    PrefixIsRendered(destDir, rooted, all, rest);
  }

  lemma RestOf(s: string, prefix: string) returns (rest: string)
    requires prefix <= s
    ensures s == prefix + rest
  {
    rest := s[|prefix|..];
  }

  /**
    A member name is accepted exactly when the destination directory is in cleaned form and is neither "/" nor ".";
    it then lands under that directory at its own relative path.
   */
  lemma MemberIsAcceptedIff(destDir: string, parts: seq<string>, isDir: bool)
    requires IsMember(parts) && '\0' !in MemberName(parts, isDir)
    ensures SafeExtractPath(destDir, MemberName(parts, isDir)).Ok? <==> IsUsable(destDir)
    ensures IsUsable(destDir) ==>
              SafeExtractPath(destDir, MemberName(parts, isDir)) == Ok(destDir + "/" + Join(parts, '/'))
  {
    if IsUsable(destDir) {
      UsableAccepts(destDir, parts, isDir);
    }
    if destDir == "" {
      EmptyRejects(parts, isDir);
      assert Clean("") == ".";
    } else if SafeExtractPath(destDir, MemberName(parts, isDir)).Ok? {
      RejectsUnlessUsable(destDir, parts, isDir);
    }
  }

  // ---- Any name at all ----

  /** Cleaning keeps a plain name, removes it together with a ".." behind it, and drops "." and empty elements. */
  lemma DotDotUndoes(parts: seq<string>, name: string, rooted: bool)
    requires IsPlain(name)
    ensures Normal(parts + [name], rooted) == Normal(parts, rooted) + [name]
    ensures Normal(parts + [name] + [".."], rooted) == Normal(parts, rooted)
    ensures Normal(parts + ["."], rooted) == Normal(parts, rooted)
    ensures Normal(parts + [""], rooted) == Normal(parts, rooted)
  {
    var out := Normal(parts, rooted);
    NormalSnoc(parts, name, rooted);
    NormalSnoc(parts + [name], "..", rooted);
    assert (out + [name])[..|out|] == out;
    NormalSnoc(parts, ".", rooted);
    NormalSnoc(parts, "", rooted);
  }

  // At the root ".." leads nowhere; in front of a relative path it stays.
  lemma DotDotInFront(n: nat)
    ensures Normal(seq(n, _ => ".."), true) == []
    ensures Normal(seq(n, _ => ".."), false) == seq(n, _ => "..")
  {
    if n > 0 {
      DotDotInFront(n - 1);
      assert seq(n, _ => "..")[..n - 1] == seq(n - 1, _ => "..");
      assert seq(n, _ => "..") == seq(n - 1, _ => "..") + [".."];
    }
  }

  lemma CleanedName(destDir: string, name: string)
    requires IsUsable(destDir)
    ensures var all := Normal(Split(destDir, '/') + Split(name, '/'), IsRooted(destDir));
            Clean(JoinPath(destDir, name)) == Rendered(IsRooted(destDir), all) && IsNormal(all, IsRooted(destDir))
  {
    var rooted := IsRooted(destDir);
    var parts := Split(destDir, '/') + Split(name, '/');
    UsableRenders(destDir);
    assert destDir + "/" + name == destDir + ['/'] + name;
    SplitConcat(destDir, '/', name);
    SplitPartsLackSep(destDir + "/" + name, '/');
    NormalIsNormal(parts, rooted);
    if Normal(parts, rooted) == [] {
      CleanOfRoot();
      CleanOfDot();
    } else {
      CleanOfRendered(rooted, Normal(parts, rooted));
    }
  }

  lemma CleanOfRoot()
    ensures Clean("/") == "/"
  {
    SplitConcat("", '/', "");
    assert "" + ['/'] + "" == "/";
    assert Split("", '/') == [""];
    NormalThenSlash([""], true);
    NormalThenSlash([], true);
    assert [] + [""] == [""];
    assert Join([], '/') == "";
  }

  lemma CleanOfDot()
    ensures Clean(".") == "."
  {
    SplitWithout(".", '/');
    NormalSnoc([], ".", false);
    assert [] + ["."] == ["."];
  }

  // A rendered path continues another one by whole elements.
  lemma ContinuesIff(destDir: string, all: seq<string>)
    requires IsUsable(destDir) && IsNormal(all, IsRooted(destDir))
    ensures var cleaned, dir := Rendered(IsRooted(destDir), all), Normal(Split(destDir, '/'), IsRooted(destDir));
            (cleaned == destDir || destDir + "/" <= cleaned) <==> dir <= all
  {
    var rooted := IsRooted(destDir);
    var cleaned, dir := Rendered(rooted, all), Normal(Split(destDir, '/'), rooted);
    UsableRenders(destDir);
    if all == [] {
      assert |cleaned| == 1;
    } else if dir <= all {
      if |dir| < |all| {
        assert all == dir + all[|dir|..];
        RenderedConcat(rooted, dir, all[|dir|..]);
      } else {
        assert all == dir;
      }
    } else if cleaned == destDir {
      NormalOfRendered(rooted, all);
    } else if destDir + "/" <= cleaned {
      var rest := RestOf(cleaned, destDir + "/");
      DirectoryIsFront(destDir, all, rest);
    }
  }

  lemma DirectoryIsFront(destDir: string, all: seq<string>, rest: string)
    requires IsUsable(destDir) && IsNormal(all, IsRooted(destDir)) && all != []
    requires Rendered(IsRooted(destDir), all) == destDir + "/" + rest
    ensures Normal(Split(destDir, '/'), IsRooted(destDir)) <= all
  {
    var rooted := IsRooted(destDir);
    UsableRenders(destDir);
    var front := FrontOfRendered(destDir, rooted, all, rest);
    assert forall p | p in front :: p in all;
    assert IsNormal(front, rooted);
    NormalOfNormal(front, rooted);
    if rooted {
      NormalAfterEmpty(front, rooted);
    } else {
      assert [] + front == front;
    }
  }

  /**
    Confinement: below a usable directory any name whatever is accepted exactly when it holds no NUL and, cleaned
    together with the directory, still starts with the directory's elements.
   */
  lemma ConfinedIff(destDir: string, name: string)
    requires IsUsable(destDir)
    ensures var rooted := IsRooted(destDir);
            var dir, all := Normal(Split(destDir, '/'), rooted), Normal(Split(destDir, '/') + Split(name, '/'), rooted);
            && (SafeExtractPath(destDir, name).Ok? <==> '\0' !in name && dir <= all)
            && (SafeExtractPath(destDir, name).Ok? ==> SafeExtractPath(destDir, name).value == Rendered(rooted, all))
            && (SafeExtractPath(destDir, name).Err? ==>
                  SafeExtractPath(destDir, name).error == if '\0' in name then InvalidName else Escapes)
  {
    CleanedName(destDir, name);
    ContinuesIff(destDir, Normal(Split(destDir, '/') + Split(name, '/'), IsRooted(destDir)));
  }

  lemma RenderedEndsInName(rooted: bool, parts: seq<string>, dir: string)
    requires IsNormal(parts, rooted) && parts != []
    ensures Rendered(rooted, parts) != dir + "/"
  {
    SplitRendered(rooted, parts);
    var all := Split(Rendered(rooted, parts), '/');
    assert all[|all| - 1] == parts[|parts| - 1] && parts[|parts| - 1] in parts;
    assert dir + "/" == dir + ['/'] + "";
    SplitConcat(dir, '/', "");
  }

  lemma SlashIsNotUsable(dir: string)
    ensures !IsUsable(dir + "/")
  {
    var d := dir + "/";
    if IsUsable(d) {
      UsableRenders(d);
      SplitPartsLackSep(d, '/');
      NormalIsNormal(Split(d, '/'), IsRooted(d));
      RenderedEndsInName(IsRooted(d), Normal(Split(d, '/'), IsRooted(d)), dir);
    }
  }

  /** With a trailing slash on the destination directory every member is rejected. */
  lemma TrailingSlashRejects(dir: string, parts: seq<string>, isDir: bool)
    requires IsMember(parts)
    ensures SafeExtractPath(dir + "/", MemberName(parts, isDir)).Err?
  {
    SlashIsNotUsable(dir);
    if '\0' !in MemberName(parts, isDir) {
      MemberIsAcceptedIff(dir + "/", parts, isDir);
    }
  }
}
