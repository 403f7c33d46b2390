/** Greedy wrapping of a text to a line width. */
module WrapText {
  import opened Text

  predicate IsWord(w: string) {
    w != "" && forall c | c in w :: !IsSpace(c)
  }

  function WordLength(s: string): (n: nat)
    ensures n <= |s|
  {
    if s == "" || IsSpace(s[0]) then 0 else 1 + WordLength(s[1..])
  }

  // strings.Fields: the maximal runs of characters that are not white space.
  function Fields(s: string): seq<string>
    decreases |s|
  {
    if s == "" then []
    else if IsSpace(s[0]) then Fields(s[1..])
    else [s[..WordLength(s)]] + Fields(s[WordLength(s)..])
  }

  function Line(group: seq<string>): string {
    Join(group, ' ')
  }

  function Lines(groups: seq<seq<string>>): seq<string> {
    seq(|groups|, i requires 0 <= i < |groups| => Line(groups[i]))
  }

  function FieldsOfAll(lines: seq<string>): seq<string> {
    if lines == [] then [] else
      var n := |lines| - 1;
      FieldsOfAll(lines[..n]) + Fields(lines[n])
  }

  predicate Fits(group: seq<string>, width: int) {
    Bytes(Line(group)) <= width || |group| == 1
  }

  // A way to break the words into lines: in order, none lost, each line within the width or a single word.
  ghost predicate IsWrap(groups: seq<seq<string>>, words: seq<string>, width: int) {
    Flat(groups) == words && forall g | g in groups :: g != [] && Fits(g, width)
  }

  // No line had room for the first word of the next one.
  ghost predicate IsGreedy(groups: seq<seq<string>>, width: int) {
    forall i, j | 0 <= i < |groups| && j == i + 1 < |groups| :: NoRoom(groups[i], groups[j], width)
  }

  predicate NoRoom(group: seq<string>, next: seq<string>, width: int) {
    next != [] && Bytes(Line(group + [next[0]])) > width
  }

  // ---- Lengths ----

  // The bytes of a character in UTF-8.
  function Width(c: char): nat {
    var n := c as int;
    if n < 0x80 then 1 else if n < 0x800 then 2 else if n < 0x10000 then 3 else 4
  }

  // len of a Go string.
  function Bytes(s: string): (n: nat)
    ensures s != "" ==> n > 0
  {
    if s == "" then 0 else Width(s[0]) + Bytes(s[1..])
  }

  lemma {:induction false} BytesConcat(a: string, b: string)
    ensures Bytes(a + b) == Bytes(a) + Bytes(b)
  {
    if a == "" {
      assert a + b == b;
    } else {
      assert (a + b)[1..] == a[1..] + b;
      BytesConcat(a[1..], b);
    }
  }

  lemma SpacedBytes(a: string, b: string)
    ensures Bytes(a + [' '] + b) == Bytes(a) + 1 + Bytes(b)
  {
    BytesConcat(a + [' '], b);
    BytesConcat(a, [' ']);
    assert [' '][1..] == "";
  }

  // The words and one space behind each.
  function Cost(words: seq<string>): nat {
    if words == [] then 0 else Bytes(words[0]) + 1 + Cost(words[1..])
  }

  lemma {:induction false} LineLength(group: seq<string>)
    requires group != []
    ensures Bytes(Line(group)) == Cost(group) - 1
  {
    if |group| > 1 {
      LineLength(group[1..]);
      SpacedBytes(group[0], Line(group[1..]));
    } else {
      assert group[1..] == [];
    }
  }

  lemma {:induction false} CostConcat(a: seq<string>, b: seq<string>)
    ensures Cost(a + b) == Cost(a) + Cost(b)
  {
    if a == [] {
      assert a + b == b;
    } else {
      assert (a + b)[1..] == a[1..] + b;
      CostConcat(a[1..], b);
    }
  }

  lemma CostOfSlice(words: seq<string>, outer: nat, lo: nat, hi: nat, end: nat)
    requires outer <= lo <= hi <= end <= |words|
    ensures Cost(words[lo..hi]) <= Cost(words[outer..end])
  {
    assert words[outer..end] == words[outer..lo] + (words[lo..hi] + words[hi..end]);
    CostConcat(words[outer..lo], words[lo..hi] + words[hi..end]);
    CostConcat(words[lo..hi], words[hi..end]);
  }

  // ---- Optimality ----

  lemma {:induction false} FlatGrows(groups: seq<seq<string>>, k: nat)
    requires k <= |groups|
    ensures Flat(groups[..k]) <= Flat(groups)
    ensures k < |groups| ==> Flat(groups[..k + 1]) == Flat(groups[..k]) + groups[k]
    decreases |groups|
  {
    if k < |groups| {
      var n := |groups| - 1;
      assert groups[..k + 1][..k] == groups[..k];
      if k == n {
        assert groups[..k + 1] == groups;
      } else {
        FlatGrows(groups[..n], k);
        assert groups[..n][..k] == groups[..k] && groups[..n][..k + 1] == groups[..k + 1];
      }
    } else {
      assert groups[..k] == groups;
    }
  }

  // Group k is the stretch of words behind the first k groups.
  lemma GroupIsSlice(groups: seq<seq<string>>, words: seq<string>, k: nat)
    requires Flat(groups) == words && k < |groups|
    ensures var a, b := |Flat(groups[..k])|, |Flat(groups[..k + 1])|;
            b == a + |groups[k]| && b <= |words| && words[a..b] == groups[k]
  {
    FlatGrows(groups, k);
    FlatGrows(groups, k + 1);
    var prefix := Flat(groups[..k + 1]);
    assert words[..|prefix|] == prefix;
  }

  // After k lines the greedy wrap has placed at least as many words as any other.
  lemma {:induction false} GreedyStaysAhead(
      greedy: seq<seq<string>>, other: seq<seq<string>>, words: seq<string>, width: int, k: nat)
    requires IsWrap(greedy, words, width) && IsGreedy(greedy, width) && IsWrap(other, words, width)
    requires k <= |greedy| && k <= |other|
    ensures |Flat(greedy[..k])| >= |Flat(other[..k])|
  {
    if k > 0 {
      GreedyStaysAhead(greedy, other, words, width, k - 1);
      GroupIsSlice(greedy, words, k - 1);
      GroupIsSlice(other, words, k - 1);
      if k < |greedy| {
        GroupIsSlice(greedy, words, k);
        NextWordDoesNotFit(greedy, other, words, width, k);
      } else {
        assert greedy[..k] == greedy;
      }
    }
  }

  lemma NextWordDoesNotFit(
      greedy: seq<seq<string>>, other: seq<seq<string>>, words: seq<string>, width: int, k: nat)
    requires IsWrap(greedy, words, width) && IsGreedy(greedy, width) && IsWrap(other, words, width)
    requires 0 < k < |greedy| && k <= |other|
    requires |Flat(greedy[..k - 1])| >= |Flat(other[..k - 1])|
    ensures |Flat(greedy[..k])| >= |Flat(other[..k])|
  {
    var a, a' := |Flat(greedy[..k - 1])|, |Flat(greedy[..k])|;
    var b, b' := |Flat(other[..k - 1])|, |Flat(other[..k])|;
    LineOfWrap(other, words, width, k - 1);
    Overlong(greedy, words, width, k);
    AheadOfFitting(words, width, b, a, a', b');
  }

  lemma AheadOfFitting(words: seq<string>, width: int, b: nat, a: nat, a': nat, b': nat)
    requires b <= a < a' < |words| && Cost(words[a..a' + 1]) - 1 > width
    requires b <= b' <= |words| && Fits(words[b..b'], width)
    ensures a' >= b'
  {
    if a' < b' {
      SliceDoesNotFit(words, width, b, a, a', b');
    }
  }

  lemma LineOfWrap(groups: seq<seq<string>>, words: seq<string>, width: int, k: nat)
    requires IsWrap(groups, words, width) && k < |groups|
    ensures groups[k] != []
    ensures var a, a' := |Flat(groups[..k])|, |Flat(groups[..k + 1])|;
            a <= a' <= |words| && Fits(words[a..a'], width)
  {
    GroupIsSlice(groups, words, k);
    assert groups[k] in groups;
  }

  lemma SliceDoesNotFit(words: seq<string>, width: int, b: nat, a: nat, a': nat, b': nat)
    requires b <= a < a' < b' <= |words| && Cost(words[a..a' + 1]) - 1 > width
    ensures !Fits(words[b..b'], width)
  {
    CostOfSlice(words, b, a, a' + 1, b');
    LineLength(words[b..b']);
  }

  // The next word after a greedy line would have made that line too long.
  lemma Overlong(greedy: seq<seq<string>>, words: seq<string>, width: int, k: nat)
    requires IsWrap(greedy, words, width) && IsGreedy(greedy, width) && 0 < k < |greedy|
    ensures |Flat(greedy[..k - 1])| < |Flat(greedy[..k])| < |words|
    ensures Cost(words[|Flat(greedy[..k - 1])|..|Flat(greedy[..k])| + 1]) - 1 > width
  {
    assert greedy[k - 1] in greedy && greedy[k] in greedy;
    OverIsSlice(greedy, words, k);
    assert NoRoom(greedy[k - 1], greedy[k], width);
    LineLength(greedy[k - 1] + [greedy[k][0]]);
  }

  lemma OverIsSlice(groups: seq<seq<string>>, words: seq<string>, k: nat)
    requires Flat(groups) == words && 0 < k < |groups| && groups[k - 1] != [] && groups[k] != []
    ensures var a, a' := |Flat(groups[..k - 1])|, |Flat(groups[..k])|;
            a < a' < |words| && words[a..a' + 1] == groups[k - 1] + [groups[k][0]]
  {
    GroupIsSlice(groups, words, k - 1);
    GroupIsSlice(groups, words, k);
    var a, a', e := |Flat(groups[..k - 1])|, |Flat(groups[..k])|, |Flat(groups[..k + 1])|;
    assert words[a'] == words[a'..e][0];
    assert words[a..a' + 1] == words[a..a'] + [words[a']];
  }

  lemma PrefixIsShorter(groups: seq<seq<string>>, words: seq<string>, k: nat)
    requires Flat(groups) == words && k < |groups| && groups[k] != []
    ensures |Flat(groups[..k])| < |words|
  {
    GroupIsSlice(groups, words, k);
  }

  /** No way to break the words into lines uses fewer lines than a greedy one. */
  lemma GreedyIsOptimal(greedy: seq<seq<string>>, other: seq<seq<string>>, words: seq<string>, width: int)
    requires IsWrap(greedy, words, width) && IsGreedy(greedy, width) && IsWrap(other, words, width)
    ensures |greedy| <= |other|
  {
    assert other[..|other|] == other;
    if |other| < |greedy| {
      assert greedy[|other|] in greedy;
      GreedyStaysAhead(greedy, other, words, width, |other|);
      PrefixIsShorter(greedy, words, |other|);
    }
  }

  // ---- Losslessness ----

  lemma {:induction false} FieldsAreWords(s: string)
    ensures forall w | w in Fields(s) :: IsWord(w)
    decreases |s|
  {
    if s != "" {
      if IsSpace(s[0]) {
        FieldsAreWords(s[1..]);
      } else {
        WordLengthStops(s);
        FieldsAreWords(s[WordLength(s)..]);
      }
    }
  }

  lemma {:induction false} WordLengthStops(s: string)
    ensures forall i | 0 <= i < WordLength(s) :: !IsSpace(s[i])
  {
    if s != "" && !IsSpace(s[0]) {
      WordLengthStops(s[1..]);
    }
  }

  lemma {:induction false} WordLengthOf(w: string, rest: string)
    requires (forall c | c in w :: !IsSpace(c)) && (rest == "" || IsSpace(rest[0]))
    ensures WordLength(w + rest) == |w|
  {
    if w == "" {
      assert w + rest == rest;
    } else {
      assert (w + rest)[1..] == w[1..] + rest;
      assert w[0] in w;
      WordLengthOf(w[1..], rest);
    }
  }

  lemma {:induction false} FieldsOfLine(group: seq<string>)
    requires forall w | w in group :: IsWord(w)
    ensures Fields(Line(group)) == group
  {
    if group != [] {
      var w := group[0];
      assert w in group && w[0] in w;
      if |group| == 1 {
        assert Line(group) == w + "";
        WordLengthOf(w, "");
      } else {
        var rest := " " + Line(group[1..]);
        assert Line(group) == w + rest;
        WordLengthOf(w, rest);
        assert (w + rest)[|w|..] == rest && rest[1..] == Line(group[1..]);
        FieldsOfLine(group[1..]);
      }
    }
  }

  /** Reading the lines back word by word gives the words of the text. */
  lemma {:induction false} LinesKeepWords(groups: seq<seq<string>>)
    requires forall w | w in Flat(groups) :: IsWord(w)
    ensures FieldsOfAll(Lines(groups)) == Flat(groups)
  {
    if groups != [] {
      var n := |groups| - 1;
      assert Lines(groups)[..n] == Lines(groups[..n]);
      LinesKeepWords(groups[..n]);
      FieldsOfLine(groups[n]);
    }
  }

  // ---- Words ----

  lemma {:induction false} SpaceHasNoWords(s: string)
    requires AllSpace(s)
    ensures Fields(s) == []
  {
    if s != "" {
      assert s[0] in s;
      SpaceHasNoWords(s[1..]);
    }
  }

  lemma {:induction false} WordEndsAtSpace(a: string, c: char, b: string)
    requires IsSpace(c)
    ensures WordLength(a + [c] + b) == WordLength(a)
  {
    var s := a + [c] + b;
    if a != "" {
      assert s[0] == a[0] && s[1..] == a[1..] + [c] + b;
      WordEndsAtSpace(a[1..], c, b);
    }
  }

  /** White space separates: the words of a text are those in front of a space and those behind it. */
  lemma {:induction false} FieldsConcat(a: string, c: char, b: string)
    requires IsSpace(c)
    ensures Fields(a + [c] + b) == Fields(a) + Fields(b)
    decreases |a|
  {
    var s := a + [c] + b;
    if a == "" {
      assert s[1..] == b;
    } else if IsSpace(a[0]) {
      assert s[1..] == a[1..] + [c] + b;
      FieldsConcat(a[1..], c, b);
    } else {
      var n := WordLength(a);
      WordEndsAtSpace(a, c, b);
      assert s[..n] == a[..n] && s[n..] == a[n..] + [c] + b;
      FieldsConcat(a[n..], c, b);
    }
  }

  /** A word on its own is one word, and white space is none. */
  lemma FieldsOfOne(w: string)
    ensures IsWord(w) ==> Fields(w) == [w]
    ensures AllSpace(w) ==> Fields(w) == []
  {
    if IsWord(w) {
      FieldsOfLine([w]);
    }
    if AllSpace(w) {
      SpaceHasNoWords(w);
    }
  }

  // ---- The loop ----

  lemma {:induction false} LineSnoc(group: seq<string>, w: string)
    requires group != []
    ensures Line(group + [w]) == Line(group) + " " + w
  {
    if |group| == 1 {
      assert (group + [w])[1..] == [w] && Line([w]) == w;
      assert Line(group + [w]) == (group + [w])[0] + [' '] + Line([w]);
    } else {
      assert (group + [w])[1..] == group[1..] + [w];
      LineSnoc(group[1..], w);
    }
  }

  // The words placed so far: closed lines and the one being filled.
  ghost predicate Placed(groups: seq<seq<string>>, current: seq<string>, words: seq<string>, width: int) {
    if current == [] then groups == [] && words == [] else
      IsWrap(groups + [current], words, width) && IsGreedy(groups + [current], width)
  }

  lemma AddedWord(groups: seq<seq<string>>, current: seq<string>, w: string)
    ensures Flat(groups + [current + [w]]) == Flat(groups + [current]) + [w]
  {
    FlatSnoc(groups, current);
    FlatSnoc(groups, current + [w]);
    AppendPart(Flat(groups), current, [w]);
  }

  // Whether a line had room depends only on the first word behind it.
  lemma SameBreaks(groups: seq<seq<string>>, current: seq<string>, w: string, width: int)
    requires IsGreedy(groups + [current], width) && current != []
    ensures IsGreedy(groups + [current + [w]], width)
  {
    var was, now := groups + [current], groups + [current + [w]];
    forall i, j | 0 <= i < |now| && j == i + 1 < |now|
      ensures NoRoom(now[i], now[j], width)
    {
      assert NoRoom(was[i], was[j], width);
      assert now[i] == was[i] && now[j][0] == was[j][0];
    }
  }

  lemma LongerLineFits(current: seq<string>, w: string, width: int)
    requires current != [] && Bytes(Line(current)) + Bytes(w) + 1 <= width
    ensures Fits(current + [w], width)
  {
    LineSnoc(current, w);
    SpacedBytes(Line(current), w);
  }

  lemma PlaceOnLine(groups: seq<seq<string>>, current: seq<string>, words: seq<string>, width: int, w: string)
    requires Placed(groups, current, words, width) && w != ""
    requires Bytes(Line(current)) + Bytes(w) + 1 <= width
    ensures Placed(groups, current + [w], words + [w], width)
  {
    AddedWord(groups, current, w);
    if current != [] {
      SameBreaks(groups, current, w, width);
      LongerLineFits(current, w, width);
      forall g | g in groups + [current + [w]]
        ensures g != [] && Fits(g, width)
      {
        assert g in groups + [current] || g == current + [w];
      }
    } else {
      FlatOfOne([w]);
    }
  }

  lemma StartLine(groups: seq<seq<string>>, current: seq<string>, words: seq<string>, width: int, w: string)
    requires Placed(groups, current, words, width)
    requires Bytes(Line(current)) + Bytes(w) + 1 > width
    ensures Placed(if current == [] then groups else groups + [current], [w], words + [w], width)
  {
    var closed := if current == [] then groups else groups + [current];
    FlatSnoc(closed, [w]);
    assert Flat(closed) == words;
    if current != [] {
      LineSnoc(current, w);
      SpacedBytes(Line(current), w);
    }
    var all := closed + [[w]];
    forall g | g in all
      ensures g != [] && Fits(g, width)
    {
      assert g in closed || g == [w];
    }
  }

  // What the loop's two variables hold after the given words.
  ghost predicate Wrapping(lines: seq<string>, currentLine: string, groups: seq<seq<string>>, current: seq<string>,
                           words: seq<string>, width: int) {
    && lines == Lines(groups) && currentLine == Line(current)
    && (currentLine == "" <==> current == [])
    && Placed(groups, current, words, width)
  }

  lemma StaysOnLine(lines: seq<string>, currentLine: string, groups: seq<seq<string>>, current: seq<string>,
                    words: seq<string>, width: int, word: string)
    requires Wrapping(lines, currentLine, groups, current, words, width) && IsWord(word)
    requires Bytes(currentLine) + Bytes(word) + 1 <= width
    ensures Wrapping(lines, (if currentLine == "" then "" else currentLine + " ") + word, groups, current + [word],
                     words + [word], width)
  {
    PlaceOnLine(groups, current, words, width, word);
    LineGrows(current + [word]);
    assert (current + [word])[..|current|] == current;
  }

  lemma OpensLine(lines: seq<string>, currentLine: string, groups: seq<seq<string>>, current: seq<string>,
                  words: seq<string>, width: int, word: string)
    requires Wrapping(lines, currentLine, groups, current, words, width) && IsWord(word)
    requires Bytes(currentLine) + Bytes(word) + 1 > width
    ensures Wrapping(if currentLine == "" then lines else lines + [currentLine], word,
                     if currentLine == "" then groups else groups + [current], [word], words + [word], width)
  {
    StartLine(groups, current, words, width, word);
    assert Line([word]) == word;
  }

  /**
    Wrapping loses nothing and is optimal: the lines hold the words of the text in order, each line fits the width
    or is a single word, and no other such split uses fewer lines.
   */
  method Wrap(text: string, width: int) returns (lines: seq<string>)
    ensures FieldsOfAll(lines) == Fields(text)
    ensures forall line | line in lines :: Bytes(line) <= width || |Fields(line)| == 1
    ensures forall other: seq<seq<string>> | IsWrap(other, Fields(text), width) :: |lines| <= |other|
    ensures exists groups :: IsWrap(groups, Fields(text), width) && lines == Lines(groups)
  {
    var words := Fields(text);
    var currentLine := "";
    lines := [];
    ghost var groups: seq<seq<string>>, current: seq<string> := [], [];
    FieldsAreWords(text);
    for i := 0 to |words|
      invariant Wrapping(lines, currentLine, groups, current, words[..i], width)
    {
      var word := words[i];
      assert word in words;
      assert words[..i + 1] == words[..i] + [word];
      if Bytes(currentLine) + Bytes(word) + 1 <= width {
        StaysOnLine(lines, currentLine, groups, current, words[..i], width, word);
        if currentLine != "" {
          currentLine := currentLine + " ";
        }
        currentLine := currentLine + word;
        current := current + [word];
      } else {
        OpensLine(lines, currentLine, groups, current, words[..i], width, word);
        if currentLine != "" {
          lines := lines + [currentLine];
          groups := groups + [current];
        }
        currentLine := word;
        current := [word];
      }
    }
    assert words[..|words|] == words;
    Conclude(lines, currentLine, groups, current, words, width);
    if currentLine != "" {
      lines := lines + [currentLine];
    }
  }

  lemma LineGrows(group: seq<string>)
    requires group != []
    ensures var before := group[..|group| - 1];
            Line(group) == (if before == [] then "" else Line(before) + " ") + group[|group| - 1]
  {
    var before := group[..|group| - 1];
    assert group == before + [group[|group| - 1]];
    if before != [] {
      LineSnoc(before, group[|group| - 1]);
    }
  }

  lemma Conclude(lines: seq<string>, currentLine: string, groups: seq<seq<string>>, current: seq<string>,
                 words: seq<string>, width: int)
    requires Wrapping(lines, currentLine, groups, current, words, width) && forall w | w in words :: IsWord(w)
    ensures var all := if currentLine == "" then lines else lines + [currentLine];
            && FieldsOfAll(all) == words
            && (forall line | line in all :: Bytes(line) <= width || |Fields(line)| == 1)
            && (forall other: seq<seq<string>> | IsWrap(other, words, width) :: |all| <= |other|)
            && exists groups :: IsWrap(groups, words, width) && all == Lines(groups)
  {
    var whole := if current == [] then groups else groups + [current];
    assert Lines(whole) == if currentLine == "" then lines else lines + [currentLine];
    LinesKeepWords(whole);
    forall i | 0 <= i < |whole|
      ensures Bytes(Lines(whole)[i]) <= width || |Fields(Lines(whole)[i])| == 1
    {
      LineFitsOrIsOneWord(whole, words, width, i);
    }
    forall other: seq<seq<string>> | IsWrap(other, words, width)
      ensures |whole| <= |other|
    {
      GreedyIsOptimal(whole, other, words, width);
    }
  }

  lemma LineFitsOrIsOneWord(groups: seq<seq<string>>, words: seq<string>, width: int, i: nat)
    requires IsWrap(groups, words, width) && i < |groups| && forall w | w in words :: IsWord(w)
    ensures Bytes(Line(groups[i])) <= width || |Fields(Line(groups[i]))| == 1
  {
    GroupIsSlice(groups, words, i);
    assert groups[i] in groups;
    FieldsOfLine(groups[i]);
  }
}
