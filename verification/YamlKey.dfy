/** Rewriting one dotted key of a settings file line by line. */
module YamlKey {
  import opened Text
  import opened Wrappers
  import opened YamlScalar

  // ---- Keys and values ----

  lemma SplitAtDot(key: string, start: nat, i: nat)
    requires start <= i < |key| && key[i] == '.' && '.' !in key[start..i]
    ensures Split(key[start..], '.') == [key[start..i]] + Split(key[i + 1..], '.')
  {
    assert key[start..] == key[start..i] + ['.'] + key[i + 1..];
    SplitConcat(key[start..i], '.', key[i + 1..]);
    SplitWithout(key[start..i], '.');
  }

  // Scans the key once, cutting a part at every dot.
  method SplitKey(key: string) returns (parts: seq<string>)
    ensures parts == Split(key, '.')
    ensures Join(parts, '.') == key
  {
    parts := [];
    var start := 0;
    assert key[0..] == key;
    for i := 0 to |key|
      invariant start <= i && '.' !in key[start..i]
      invariant IsSplitUpTo(key, parts, start)
    {
      if key[i] == '.' {
        NextPart(key, parts, start, i);
        parts := parts + [key[start..i]];
        start := i + 1;
      } else {
        assert key[start..i + 1] == key[start..i] + [key[i]];
      }
    }
    assert key[start..|key|] == key[start..];
    LastPart(key, parts, start);
    parts := parts + [key[start..]];
    JoinAfterSplit(key, '.');
  }

  // The parts found so far, and the split of the rest, make up the split of the key.
  predicate IsSplitUpTo(key: string, parts: seq<string>, start: nat) {
    start <= |key| && parts + Split(key[start..], '.') == Split(key, '.')
  }

  lemma NextPart(key: string, parts: seq<string>, start: nat, i: nat)
    requires IsSplitUpTo(key, parts, start) && start <= i < |key| && key[i] == '.' && '.' !in key[start..i]
    ensures IsSplitUpTo(key, parts + [key[start..i]], i + 1)
  {
    SplitAtDot(key, start, i);
    var part, rest := key[start..i], Split(key[i + 1..], '.');
    assert parts + ([part] + rest) == parts + [part] + rest;
  }

  lemma LastPart(key: string, parts: seq<string>, start: nat)
    requires IsSplitUpTo(key, parts, start) && '.' !in key[start..]
    ensures Split(key, '.') == parts + [key[start..]]
  {
    SplitWithout(key[start..], '.');
  }

  function Section(key: string): string {
    Split(key, '.')[0]
  }

  function SubKey(key: string): string {
    Join(Split(key, '.')[1..], '.')
  }

  // A written value.
  type Scalar = s: string | '\n' !in s

  function NewLine(key: string, scalar: Scalar): string {
    "  " + SubKey(key) + ": " + scalar
  }

  // ---- The scan ----

  predicate IsHeader(line: string, key: string) {
    Section(key) + ":" <= TrimSpace(line) && !(" " <= line)
  }

  // The value of inSection after a line.
  function After(inSection: bool, line: string, key: string): bool {
    if IsHeader(line, key) then true
    else if inSection && !(" " <= line) && TrimSpace(line) != "" then false
    else inSection
  }

  // The value of inSection before line i.
  function InSection(lines: seq<string>, key: string, i: nat): bool
    requires i <= |lines|
  {
    if i == 0 then false else After(InSection(lines, key, i - 1), lines[i - 1], key)
  }

  // Line i is one the scan overwrites.
  predicate Matched(lines: seq<string>, key: string, i: nat)
    requires i < |lines|
  {
    && !IsHeader(lines[i], key)
    && After(InSection(lines, key, i), lines[i], key)
    && SubKey(key) + ":" <= TrimSpace(lines[i])
  }

  // A line at the margin that starts with the section's name and a colon.
  predicate OpensSection(line: string, section: string) {
    section + ":" <= TrimSpace(line) && (line == "" || line[0] != ' ')
  }

  // Neither blank nor indented: it ends the section it follows.
  predicate EndsSection(line: string) {
    TrimSpace(line) != "" && (line == "" || line[0] != ' ')
  }

  // Some line in front of i opens the section, and no line from there up to i ends it, unless it opens it again.
  ghost predicate IsWithin(lines: seq<string>, section: string, i: nat)
    requires i <= |lines|
  {
    exists h | 0 <= h < i ::
      OpensSection(lines[h], section) &&
      forall j | h < j < i :: OpensSection(lines[j], section) || !EndsSection(lines[j])
  }

  lemma IsWithinNext(lines: seq<string>, section: string, i: nat)
    requires i < |lines|
    ensures IsWithin(lines, section, i + 1) <==>
            OpensSection(lines[i], section) || (IsWithin(lines, section, i) && !EndsSection(lines[i]))
  {
    if IsWithin(lines, section, i) && !EndsSection(lines[i]) {
      var h :| 0 <= h < i && OpensSection(lines[h], section) &&
               forall j | h < j < i :: OpensSection(lines[j], section) || !EndsSection(lines[j]);
      assert forall j | h < j < i + 1 :: OpensSection(lines[j], section) || !EndsSection(lines[j]);
    }
  }

  lemma {:induction false} InSectionIs(lines: seq<string>, key: string, i: nat)
    requires i <= |lines|
    ensures InSection(lines, key, i) <==> IsWithin(lines, Split(key, '.')[0], i)
  {
    if i > 0 {
      InSectionIs(lines, key, i - 1);
      IsWithinNext(lines, Split(key, '.')[0], i - 1);
      StartsWithSpace(lines[i - 1]);
    }
  }

  lemma StartsWithSpace(line: string)
    ensures " " <= line <==> line != "" && line[0] == ' '
  {
  }

  /**
    The scan overwrites exactly the lines that lie within the key's section, do not open it, and start with the rest of
    the key and a colon.
   */
  lemma MatchedIff(lines: seq<string>, key: string, i: nat)
    requires i < |lines|
    ensures var section, subKey := Split(key, '.')[0], Join(Split(key, '.')[1..], '.');
            Matched(lines, key, i) <==>
            && !OpensSection(lines[i], section) && !EndsSection(lines[i]) && IsWithin(lines, section, i)
            && subKey + ":" <= TrimSpace(lines[i])
  {
    InSectionIs(lines, key, i);
    StartsWithSpace(lines[i]);
  }

  predicate AnyMatched(lines: seq<string>, key: string) {
    exists i | 0 <= i < |lines| :: Matched(lines, key, i)
  }

  function Overwritten(lines: seq<string>, key: string, newLine: string): seq<string> {
    seq(|lines|, i requires 0 <= i < |lines| => if Matched(lines, key, i) then newLine else lines[i])
  }

  // strings.TrimRight(s, "\n")
  function TrimNewlines(s: string): string {
    if s != "" && s[|s| - 1] == '\n' then TrimNewlines(s[..|s| - 1]) else s
  }

  function Appended(yaml: string, key: string, newLine: string): string {
    TrimNewlines(yaml) + "\n\n" + (Section(key) + ":") + "\n" + newLine + "\n"
  }

  function Updated(yaml: string, key: string, scalar: Scalar): string {
    var lines := Split(yaml, '\n');
    if |Split(key, '.')| < 2 then yaml
    else if AnyMatched(lines, key) then Join(Overwritten(lines, key, NewLine(key, scalar)), '\n')
    else Appended(yaml, key, NewLine(key, scalar))
  }

  // The values of inSection before each line and at the end, and which lines are overwritten.
  function Sections(lines: seq<string>, key: string): seq<bool> {
    seq(|lines| + 1, i requires 0 <= i <= |lines| => InSection(lines, key, i))
  }

  function Matches(lines: seq<string>, key: string): seq<bool> {
    seq(|lines|, i requires 0 <= i < |lines| => Matched(lines, key, i))
  }

  predicate AnyBefore(flags: seq<bool>, i: nat)
    requires i <= |flags|
  {
    i > 0 && (AnyBefore(flags, i - 1) || flags[i - 1])
  }

  lemma {:induction false} AnyBeforeIs(flags: seq<bool>, i: nat)
    requires i <= |flags|
    ensures AnyBefore(flags, i) <==> exists k :: 0 <= k < i && flags[k]
  {
    if i > 0 {
      AnyBeforeIs(flags, i - 1);
    }
  }

  lemma MatchesTell(lines: seq<string>, key: string, newLine: string)
    ensures AnyBefore(Matches(lines, key), |lines|) <==> AnyMatched(lines, key)
    ensures Overwritten(lines, key, newLine) ==
            seq(|lines|, i requires 0 <= i < |lines| => if Matches(lines, key)[i] then newLine else lines[i])
  {
    var matches := Matches(lines, key);
    AnyBeforeIs(matches, |lines|);
    assert forall i | 0 <= i < |lines| :: matches[i] == Matched(lines, key, i);
  }

  // The scan itself: two flags carried over the lines, matched lines overwritten in place.
  method OverwriteMatched(lines: array<string>, section: string, subKey: string, newLine: string, ghost key: string)
      returns (replaced: bool)
    requires section == Section(key) && subKey == SubKey(key)
    modifies lines
    ensures replaced == AnyMatched(old(lines[..]), key)
    ensures lines[..] == Overwritten(old(lines[..]), key, newLine)
  {
    ghost var was := lines[..];
    ghost var sections, matches := Sections(was, key), Matches(was, key);
    var inSection := false;
    replaced := false;
    for i := 0 to lines.Length
      invariant inSection == sections[i] && replaced == AnyBefore(matches, i)
      invariant forall k | 0 <= k < i :: lines[k] == if matches[k] then newLine else was[k]
      invariant forall k | i <= k < lines.Length :: lines[k] == was[k]
    {
      var matched;
      inSection, matched := ScanLine(inSection, lines[i], section, subKey, key, was, i);
      if matched {
        lines[i] := newLine;
        replaced := true;
      }
    }
    MatchesTell(was, key, newLine);
  }

  // One turn of the scan: what the line does to inSection, and whether it is to be overwritten.
  method ScanLine(wasInSection: bool, line: string, section: string, subKey: string,
      ghost key: string, ghost lines: seq<string>, ghost i: nat)
      returns (inSection: bool, matched: bool)
    requires section == Section(key) && subKey == SubKey(key)
    requires i < |lines| && line == lines[i] && wasInSection == Sections(lines, key)[i]
    ensures inSection == Sections(lines, key)[i + 1] && matched == Matches(lines, key)[i]
  {
    assert InSection(lines, key, i + 1) == After(wasInSection, line, key);
    inSection := wasInSection;
    var trimmed := TrimSpace(line);
    if section + ":" <= trimmed && !(" " <= line) {
      return true, false;
    }
    if inSection && !(" " <= line) && trimmed != "" {
      inSection := false;
    }
    matched := inSection && subKey + ":" <= TrimSpace(line);
  }

  method UpdateYamlKey(yaml: string, key: string, value: string, table: char -> bool) returns (r: string)
    ensures r == Updated(yaml, key, YamlQuote(value, table))
    ensures '.' !in key ==> r == yaml
  {
    if '.' !in key {
      SplitWithout(key, '.');
    }
    var parts := SplitKey(key);
    if |parts| < 2 {
      return yaml;
    }
    var section, subKey := parts[0], Join(parts[1..], '.');
    var newLine := "  " + subKey + ": " + YamlQuote(value, table);
    var split := Split(yaml, '\n');
    var lines := new string[|split|](i requires 0 <= i < |split| => split[i]);
    assert lines[..] == split;
    var replaced := OverwriteMatched(lines, section, subKey, newLine, key);
    if replaced {
      return Join(lines[..], '\n');
    }
    r := TrimNewlines(yaml) + "\n\n" + (section + ":") + "\n" + newLine + "\n";
  }

  // ---- Lens laws ----

  predicate CleanStart(s: string) {
    '\n' !in s && (s != "" ==> !IsSpace(s[0]))
  }

  // Neither the section nor the rest of the key starts with white space or holds a newline.
  predicate WellFormed(key: string) {
    CleanStart(Section(key)) && CleanStart(SubKey(key))
  }

  lemma NewLineIsMatchable(key: string, scalar: Scalar)
    requires WellFormed(key)
    ensures var line := NewLine(key, scalar);
            '\n' !in line && !IsHeader(line, key) && After(true, line, key) && SubKey(key) + ":" <= TrimSpace(line)
  {
    var line := NewLine(key, scalar);
    var rest := SubKey(key) + ": " + scalar;
    assert line[1..][1..] == rest;
    assert !IsSpace(rest[0]);
    assert TrimLeft(line) == TrimLeft(line[1..]) == TrimLeft(rest) == rest;
    assert SubKey(key) + ":" <= rest;
    TrimRightKeeps(rest, SubKey(key) + ":");
  }

  lemma HeaderLineIsHeader(key: string)
    requires WellFormed(key)
    ensures IsHeader(Section(key) + ":", key)
  {
    var line := Section(key) + ":";
    assert TrimLeft(line) == line;
    TrimRightKeeps(line, line);
  }

  // Overwriting matched lines changes nothing the scan looks at.
  lemma {:induction false} ScanIgnoresOverwrites(lines: seq<string>, key: string, scalar: Scalar, i: nat)
    requires WellFormed(key) && i <= |lines|
    ensures var lines' := Overwritten(lines, key, NewLine(key, scalar));
            && InSection(lines', key, i) == InSection(lines, key, i)
            && (i < |lines| ==> Matched(lines', key, i) == Matched(lines, key, i))
  {
    NewLineIsMatchable(key, scalar);
    if i > 0 {
      ScanIgnoresOverwrites(lines, key, scalar, i - 1);
    }
  }

  lemma SplitOverwritten(yaml: string, key: string, scalar: Scalar)
    requires WellFormed(key)
    ensures var lines' := Overwritten(Split(yaml, '\n'), key, NewLine(key, scalar));
            Split(Join(lines', '\n'), '\n') == lines'
  {
    NewLineIsMatchable(key, scalar);
    SplitPartsLackSep(yaml, '\n');
    SplitAfterJoin(Overwritten(Split(yaml, '\n'), key, NewLine(key, scalar)), '\n');
  }

  // The lines of an appended section.
  function Tail(key: string, newLine: string): seq<string> {
    ["", Section(key) + ":", newLine, ""]
  }

  lemma SplitEntry(header: string, line: string)
    requires '\n' !in header && '\n' !in line
    ensures Split(header + "\n" + (line + "\n" + ""), '\n') == [header, line, ""]
  {
    SplitFirst(line, '\n', "");
    SplitFirst(header, '\n', line + "\n" + "");
  }

  lemma Regroup(text: string, header: string, line: string)
    ensures text + "\n\n" + header + "\n" + line + "\n" ==
            text + ['\n'] + ("" + "\n" + (header + "\n" + (line + "\n" + "")))
  {
  }

  lemma SplitFour(text: string, header: string, line: string)
    requires '\n' !in header && '\n' !in line
    ensures Split(text + "\n\n" + header + "\n" + line + "\n", '\n') == Split(text, '\n') + ["", header, line, ""]
  {
    var section := header + "\n" + (line + "\n" + "");
    Regroup(text, header, line);
    SplitEntry(header, line);
    SplitFirst("", '\n', section);
    SplitConcat(text, '\n', "" + "\n" + section);
  }

  lemma SplitAppended(yaml: string, key: string, scalar: Scalar)
    requires WellFormed(key)
    ensures Split(Appended(yaml, key, NewLine(key, scalar)), '\n') ==
            Split(TrimNewlines(yaml), '\n') + Tail(key, NewLine(key, scalar))
  {
    NewLineIsMatchable(key, scalar);
    SplitFour(TrimNewlines(yaml), Section(key) + ":", NewLine(key, scalar));
  }

  // Trailing newlines are trailing blank lines.
  lemma {:induction false} TrimNewlinesDropsBlankLines(s: string)
    ensures Split(TrimNewlines(s), '\n') <= Split(s, '\n')
    ensures forall i | |Split(TrimNewlines(s), '\n')| <= i < |Split(s, '\n')| :: Split(s, '\n')[i] == ""
  {
    if s != "" && s[|s| - 1] == '\n' {
      var t := s[..|s| - 1];
      assert s == t + ['\n'] + "";
      SplitConcat(t, '\n', "");
      TrimNewlinesDropsBlankLines(t);
    }
  }

  lemma {:induction false} ScanOfPrefix(lines: seq<string>, more: seq<string>, key: string, i: nat)
    requires i <= |lines|
    ensures InSection(lines + more, key, i) == InSection(lines, key, i)
    ensures i < |lines| ==> Matched(lines + more, key, i) == Matched(lines, key, i)
  {
    if i > 0 {
      ScanOfPrefix(lines, more, key, i - 1);
    }
  }

  // In lines that did not match followed by an appended section, exactly the appended entry matches.
  lemma OnlyAppendedMatches(lines: seq<string>, key: string, scalar: Scalar)
    requires WellFormed(key) && !AnyMatched(lines, key)
    ensures var all := lines + Tail(key, NewLine(key, scalar));
            forall i | 0 <= i < |all| :: Matched(all, key, i) <==> i == |lines| + 2
  {
    var all := lines + Tail(key, NewLine(key, scalar));
    forall i | 0 <= i < |lines|
      ensures !Matched(all, key, i)
    {
      ScanOfPrefix(lines, Tail(key, NewLine(key, scalar)), key, i);
    }
    NewLineIsMatchable(key, scalar);
    HeaderLineIsHeader(key);
    assert InSection(all, key, |lines| + 2);
  }

  lemma PrefixUnmatched(yaml: string, key: string)
    requires !AnyMatched(Split(yaml, '\n'), key)
    ensures !AnyMatched(Split(TrimNewlines(yaml), '\n'), key)
  {
    TrimNewlinesDropsBlankLines(yaml);
    var short, all := Split(TrimNewlines(yaml), '\n'), Split(yaml, '\n');
    assert all == short + all[|short|..];
    forall i | 0 <= i < |short|
      ensures !Matched(short, key, i)
    {
      ScanOfPrefix(short, all[|short|..], key, i);
    }
  }

  /**
    After an update of a well-formed key the scan matches some line, and every line it matches carries the new one.
   */
  lemma UpdateIsRead(yaml: string, key: string, scalar: Scalar)
    requires |Split(key, '.')| >= 2 && WellFormed(key)
    ensures var lines := Split(Updated(yaml, key, scalar), '\n');
            && AnyMatched(lines, key)
            && forall i | 0 <= i < |lines| && Matched(lines, key, i) :: lines[i] == NewLine(key, scalar)
  {
    var lines := Split(yaml, '\n');
    var newLine := NewLine(key, scalar);
    if AnyMatched(lines, key) {
      SplitOverwritten(yaml, key, scalar);
      forall i | 0 <= i < |lines|
        ensures Matched(Overwritten(lines, key, newLine), key, i) == Matched(lines, key, i)
      {
        ScanIgnoresOverwrites(lines, key, scalar, i);
      }
      var k :| 0 <= k < |lines| && Matched(lines, key, k);
      assert Matched(Overwritten(lines, key, newLine), key, k);
    } else {
      SplitAppended(yaml, key, scalar);
      PrefixUnmatched(yaml, key);
      var short := Split(TrimNewlines(yaml), '\n');
      OnlyAppendedMatches(short, key, scalar);
      assert Matched(short + Tail(key, newLine), key, |short| + 2);
    }
  }

  // What stands behind the sub-key and its colon.
  function Behind(line: string, key: string): string {
    var n := |"  " + SubKey(key) + ": "|;
    if |line| < n then "" else line[n..]
  }

  /** A value written by an update of a well-formed key is read back exactly when it was quoted or is plain text. */
  lemma UpdateIsReadBackIff(yaml: string, key: string, value: string, table: char -> bool)
    requires |Split(key, '.')| >= 2 && WellFormed(key) && IsPrintTable(table)
    ensures var lines := Split(Updated(yaml, key, YamlQuote(value, table)), '\n');
            (forall i | 0 <= i < |lines| && Matched(lines, key, i) :: ReadScalar(Behind(lines[i], key)) == Some(value))
            <==> NeedsQuotes(value) || IsPlainText(value)
  {
    var scalar := YamlQuote(value, table);
    var lines := Split(Updated(yaml, key, scalar), '\n');
    UpdateIsRead(yaml, key, scalar);
    QuoteIsReadBackIff(value, table);
    assert Behind(NewLine(key, scalar), key) == scalar;
    assert exists i :: 0 <= i < |lines| && Matched(lines, key, i);
  }

  /** Every line an update does not match keeps its text and place; an append drops trailing blank lines only. */
  lemma UpdateKeepsOtherLines(yaml: string, key: string, scalar: Scalar)
    requires |Split(key, '.')| >= 2 && WellFormed(key)
    ensures var lines, lines' := Split(yaml, '\n'), Split(Updated(yaml, key, scalar), '\n');
            if AnyMatched(lines, key) then
              |lines'| == |lines| && forall i | 0 <= i < |lines| && !Matched(lines, key, i) :: lines'[i] == lines[i]
            else
              exists n | 1 <= n <= |lines| ::
                && lines' == lines[..n] + Tail(key, NewLine(key, scalar))
                && (n > 1 ==> lines[n - 1] != "") && forall i | n <= i < |lines| :: lines[i] == ""
  {
    if AnyMatched(Split(yaml, '\n'), key) {
      SplitOverwritten(yaml, key, scalar);
    } else {
      var n := AppendKeepsLines(yaml, key, scalar);
    }
  }

  lemma AppendKeepsLines(yaml: string, key: string, scalar: Scalar) returns (n: nat)
    requires WellFormed(key)
    ensures var lines := Split(yaml, '\n');
            && 1 <= n <= |lines|
            && Split(Appended(yaml, key, NewLine(key, scalar)), '\n') == lines[..n] + Tail(key, NewLine(key, scalar))
            && (n > 1 ==> lines[n - 1] != "") && forall i | n <= i < |lines| :: lines[i] == ""
  {
    var lines, short := Split(yaml, '\n'), Split(TrimNewlines(yaml), '\n');
    SplitAppended(yaml, key, scalar);
    TrimNewlinesDropsBlankLines(yaml);
    LastLineStays(yaml);
    n := |short|;
    assert lines[..n] == short;
    assert n > 1 ==> lines[n - 1] == short[n - 1];
  }

  lemma {:induction false} TrimmedEnd(s: string)
    ensures var t := TrimNewlines(s); t == "" || t[|t| - 1] != '\n'
  {
    if s != "" && s[|s| - 1] == '\n' {
      TrimmedEnd(s[..|s| - 1]);
    }
  }

  lemma {:induction false} LastLine(t: string)
    requires t != "" && t[|t| - 1] != '\n'
    ensures var lines := Split(t, '\n'); lines[|lines| - 1] != ""
  {
    if |t| > 1 {
      LastLine(t[1..]);
    }
  }

  // Behind the newlines that are trimmed stands a line with text, or nothing at all.
  lemma LastLineStays(yaml: string)
    ensures var short := Split(TrimNewlines(yaml), '\n'); |short| > 1 ==> short[|short| - 1] != ""
  {
    TrimmedEnd(yaml);
    if TrimNewlines(yaml) != "" {
      LastLine(TrimNewlines(yaml));
    }
  }

  lemma UpdateTwiceOverwritten(yaml: string, key: string, first: Scalar, second: Scalar)
    requires |Split(key, '.')| >= 2 && WellFormed(key) && AnyMatched(Split(yaml, '\n'), key)
    ensures Updated(Updated(yaml, key, first), key, second) == Updated(yaml, key, second)
  {
    var lines := Split(yaml, '\n');
    var lines' := Overwritten(lines, key, NewLine(key, first));
    SplitOverwritten(yaml, key, first);
    UpdateIsRead(yaml, key, first);
    OverwriteTwice(lines, key, first, second);
  }

  lemma OverwriteTwice(lines: seq<string>, key: string, first: Scalar, second: Scalar)
    requires WellFormed(key)
    ensures var lines' := Overwritten(lines, key, NewLine(key, first));
            && AnyMatched(lines', key) == AnyMatched(lines, key)
            && Overwritten(lines', key, NewLine(key, second)) == Overwritten(lines, key, NewLine(key, second))
  {
    var lines' := Overwritten(lines, key, NewLine(key, first));
    forall i | 0 <= i < |lines|
      ensures Matched(lines', key, i) == Matched(lines, key, i)
    {
      ScanIgnoresOverwrites(lines, key, first, i);
    }
  }

  lemma UpdateTwiceAppended(yaml: string, key: string, first: Scalar, second: Scalar)
    requires |Split(key, '.')| >= 2 && WellFormed(key) && !AnyMatched(Split(yaml, '\n'), key)
    ensures Updated(Updated(yaml, key, first), key, second) == Updated(yaml, key, second)
  {
    var short := Split(TrimNewlines(yaml), '\n');
    var lines' := short + Tail(key, NewLine(key, first));
    SplitAppended(yaml, key, first);
    SplitAppended(yaml, key, second);
    PrefixUnmatched(yaml, key);
    OnlyAppendedMatches(short, key, first);
    assert Matched(lines', key, |short| + 2);
    assert Overwritten(lines', key, NewLine(key, second)) == short + Tail(key, NewLine(key, second));
    JoinAfterSplit(Appended(yaml, key, NewLine(key, second)), '\n');
  }

  lemma UpdateTwice(yaml: string, key: string, first: Scalar, second: Scalar)
    requires |Split(key, '.')| >= 2 && WellFormed(key)
    ensures Updated(Updated(yaml, key, first), key, second) == Updated(yaml, key, second)
  {
    if AnyMatched(Split(yaml, '\n'), key) {
      UpdateTwiceOverwritten(yaml, key, first, second);
    } else {
      UpdateTwiceAppended(yaml, key, first, second);
    }
  }

  ghost predicate SecondUpdateWins(key: string, table: char -> bool) {
    forall yaml, first, second ::
      Updated(Updated(yaml, key, YamlQuote(first, table)), key, YamlQuote(second, table)) ==
      Updated(yaml, key, YamlQuote(second, table))
  }

  lemma IllFormedNeverMatches(yaml: string, key: string)
    requires !WellFormed(key)
    ensures !AnyMatched(Split(yaml, '\n'), key)
  {
    var lines := Split(yaml, '\n');
    SplitPartsLackSep(yaml, '\n');
    forall i | 0 <= i < |lines|
      ensures !Matched(lines, key, i)
    {
      NoMatchForIllFormed(lines, key, i);
    }
  }

  lemma {:induction false} NoMatchForIllFormed(lines: seq<string>, key: string, i: nat)
    requires !WellFormed(key) && AllLack(lines, '\n') && i <= |lines|
    ensures i < |lines| ==> !Matched(lines, key, i)
    ensures !CleanStart(Section(key)) ==> !InSection(lines, key, i)
  {
    if i > 0 {
      NoMatchForIllFormed(lines, key, i - 1);
      UncleanIsNoPrefix(lines[i - 1], Section(key));
    }
    if i < |lines| {
      UncleanIsNoPrefix(lines[i], Section(key));
      UncleanIsNoPrefix(lines[i], SubKey(key));
    }
  }

  lemma UncleanIsNoPrefix(line: string, s: string)
    requires '\n' !in line
    ensures !CleanStart(s) ==> !(s + ":" <= TrimSpace(line))
  {
    TrimSpaceStart(line);
    if s + ":" <= TrimSpace(line) {
      forall c | c in s
        ensures c in line
      {
        var i :| 0 <= i < |s| && s[i] == c;
        assert TrimSpace(line)[i] == (s + ":")[i];
      }
      assert s != "" ==> TrimSpace(line)[0] == s[0];
    }
  }

  lemma TrimOneNewline(s: string)
    requires |s| >= 2 && s[|s| - 1] == '\n' && s[|s| - 2] != '\n'
    ensures |TrimNewlines(s)| == |s| - 1
  {
    var t := s[..|s| - 1];
    assert t[|t| - 1] == s[|s| - 2];
    assert TrimNewlines(t) == t;
  }

  lemma AppendedEnd(yaml: string, key: string, line: string)
    requires line != ""
    ensures var r := Appended(yaml, key, line);
            |r| >= |TrimNewlines(yaml)| + 2 && r[|r| - 1] == '\n' && r[|r| - 2] == line[|line| - 1]
  {
  }

  lemma EmptyValueEnd(key: string)
    ensures var line := NewLine(key, ""); line != "" && line[|line| - 1] == ' '
  {
  }

  lemma IllFormedAppendsAgain(key: string)
    requires |Split(key, '.')| >= 2 && !WellFormed(key)
    ensures Updated(Updated("", key, ""), key, "") != Updated("", key, "")
  {
    var line := NewLine(key, "");
    var once := Appended("", key, line);
    IllFormedNeverMatches("", key);
    IllFormedNeverMatches(once, key);
    EmptyValueEnd(key);
    AppendedEnd("", key, line);
    TrimOneNewline(once);
    AppendedEnd(once, key, line);
  }

  /** A second update overwrites the first, on every file and for all values, exactly when the key is well-formed. */
  lemma SecondUpdateWinsIff(key: string, table: char -> bool)
    requires |Split(key, '.')| >= 2
    ensures SecondUpdateWins(key, table) <==> WellFormed(key)
  {
    if WellFormed(key) {
      forall yaml, v, w
        ensures Updated(Updated(yaml, key, YamlQuote(v, table)), key, YamlQuote(w, table)) ==
                Updated(yaml, key, YamlQuote(w, table))
      {
        UpdateTwice(yaml, key, YamlQuote(v, table), YamlQuote(w, table));
      }
    } else {
      IllFormedAppendsAgain(key);
      assert YamlQuote("", table) == "";
    }
  }
}
