/** Email templates: parsing the subject and body, and filling in {variables} one at a time. */
module EmailTemplate {
  import opened Wrappers
  import opened Text

  datatype Template = Template(subject: string, body: string)

  datatype ParseError = TooShort | NoSubject | NoSeparator

  const PREFIX := "Subject:"

  // ---- Parsing ----

  // The index of the first line that is "---" once trimmed, or |lines|.
  function Separator(lines: seq<string>): (n: nat)
    ensures n <= |lines|
    ensures n < |lines| ==> TrimSpace(lines[n]) == "---"
    ensures forall i | 0 <= i < n :: TrimSpace(lines[i]) != "---"
  {
    if lines == [] || TrimSpace(lines[0]) == "---" then 0 else 1 + Separator(lines[1..])
  }

  function Parsed(content: string): Result<Template, ParseError> {
    ParsedLines(Split(content, '\n'))
  }

  function ParsedLines(lines: seq<string>): Result<Template, ParseError> {
    if |lines| < 3 then Err(TooShort)
    else if !(PREFIX <= lines[0]) then Err(NoSubject)
    else if Separator(lines) == |lines| then Err(NoSeparator)
    else Ok(Template(TrimSpace(lines[0][|PREFIX|..]), Join(lines[Separator(lines) + 1..], '\n')))
  }

  // The three errors, and otherwise the trimmed subject and what stands behind the first separator.
  ghost predicate IsParsed(content: string, r: Result<Template, ParseError>) {
    var lines := Split(content, '\n');
    && (r == Err(TooShort) <==> |lines| < 3)
    && (r == Err(NoSubject) <==> |lines| >= 3 && !("Subject:" <= lines[0]))
    && (r == Err(NoSeparator) <==>
          |lines| >= 3 && "Subject:" <= lines[0] && forall i | 0 <= i < |lines| :: TrimSpace(lines[i]) != "---")
    && (r.Ok? ==> |lines| >= 3 && "Subject:" <= lines[0] && exists n | 0 <= n < |lines| ::
          IsFirstSeparator(lines, n) && r.value == Template(TrimSpace(lines[0][8..]), Join(lines[n + 1..], '\n')))
  }

  predicate IsFirstSeparator(lines: seq<string>, n: nat)
    requires n < |lines|
  {
    TrimSpace(lines[n]) == "---" && forall i | 0 <= i < n :: TrimSpace(lines[i]) != "---"
  }

  lemma ParsedIs(content: string)
    ensures IsParsed(content, Parsed(content))
  {
    var lines := Split(content, '\n');
    assert Separator(lines) < |lines| ==> IsFirstSeparator(lines, Separator(lines));
  }

  method ParseTemplate(content: string) returns (r: Result<Template, ParseError>)
    ensures r == Parsed(content)
    ensures IsParsed(content, r)
  {
    ParsedIs(content);
    r := ParseLines(Split(content, '\n'));
  }

  method ParseLines(lines: seq<string>) returns (r: Result<Template, ParseError>)
    ensures r == ParsedLines(lines)
  {
    if |lines| < 3 {
      return Err(TooShort);
    }
    if !(PREFIX <= lines[0]) {
      return Err(NoSubject);
    }
    var subject := TrimSpace(lines[0][|PREFIX|..]);
    var bodyStart := -1;
    for i := 0 to |lines|
      invariant bodyStart == -1 && i <= Separator(lines)
    {
      if TrimSpace(lines[i]) == "---" {
        bodyStart := i + 1;
        break;
      }
    }
    if bodyStart == -1 {
      return Err(NoSeparator);
    }
    r := Ok(Template(subject, Join(lines[bodyStart..], '\n')));
  }

  // The documented layout of a template file.
  function Composed(t: Template): string {
    "Subject: " + t.subject + "\n---\n" + t.body
  }

  lemma RegroupLines(head: string, body: string)
    ensures head + "\n---\n" + body == head + ['\n'] + ("---" + ['\n'] + body)
  {
  }

  lemma ComposedLines(head: string, body: string)
    requires '\n' !in head
    ensures Split(head + "\n---\n" + body, '\n') == [head, "---"] + Split(body, '\n')
  {
    RegroupLines(head, body);
    SplitFirst("---", '\n', body);
    SplitFirst(head, '\n', "---" + ['\n'] + body);
  }

  lemma SeparatorIsSecond(lines: seq<string>)
    requires |lines| >= 2 && PREFIX <= lines[0] && lines[1] == "---"
    ensures Separator(lines) == 1
  {
    SubjectLineIsNoSeparator(lines[0]);
    SeparatorIsTrimmed();
    assert lines[1..][0] == lines[1];
  }

  /** A template written in the documented layout is read back, whatever its body holds. */
  lemma ParseReadsComposed(t: Template)
    requires '\n' !in t.subject && TrimSpace(t.subject) == t.subject
    ensures Parsed(Composed(t)) == Ok(t)
  {
    var head := "Subject: " + t.subject;
    var lines := Split(Composed(t), '\n');
    ComposedLines(head, t.body);
    assert lines[0] == head && lines[1] == "---" && lines[2..] == Split(t.body, '\n');
    SeparatorIsSecond(lines);
    JoinAfterSplit(t.body, '\n');
    SubjectAfterPrefix(t.subject);
  }

  lemma SubjectAfterPrefix(subject: string)
    requires TrimSpace(subject) == subject
    ensures PREFIX <= "Subject: " + subject && TrimSpace(("Subject: " + subject)[|PREFIX|..]) == subject
  {
    assert ("Subject: " + subject)[|PREFIX|..] == " " + subject;
    assert (" " + subject)[1..] == subject;
  }

  lemma SeparatorIsTrimmed()
    ensures TrimSpace("---") == "---"
  {
    assert TrimLeft("---") == "---";
    assert TrimRight("---") == "---";
  }

  lemma SubjectLineIsNoSeparator(line: string)
    requires PREFIX <= line
    ensures TrimSpace(line) != "---"
  {
    assert TrimLeft(line) == line;
    TrimRightKeeps(line, PREFIX);
    assert TrimSpace(line)[0] == 'S';
  }

  // ---- One variable ----

  // strings.ReplaceAll for a non-empty pattern: leftmost first, without overlap.
  function ReplaceAll(s: string, pattern: string, value: string): string
    requires pattern != ""
  {
    if s == "" then ""
    else if pattern <= s then value + ReplaceAll(s[|pattern|..], pattern, value)
    else [s[0]] + ReplaceAll(s[1..], pattern, value)
  }

  /** The leftmost occurrence is replaced, and the rest behind it in the same way. */
  lemma {:induction false} LeftmostIsReplaced(front: string, rest: string, pattern: string, value: string)
    requires pattern != "" && pattern <= rest
    requires forall j | 0 <= j < |front| :: !(pattern <= (front + rest)[j..])
    ensures ReplaceAll(front + rest, pattern, value) == front + value + ReplaceAll(rest[|pattern|..], pattern, value)
  {
    var s := front + rest;
    if front == "" {
      assert s == rest;
    } else {
      assert s[0..] == s && s[1..] == front[1..] + rest;
      forall j | 0 <= j < |front[1..]|
        ensures !(pattern <= (front[1..] + rest)[j..])
      {
        assert (front[1..] + rest)[j..] == s[j + 1..];
      }
      LeftmostIsReplaced(front[1..], rest, pattern, value);
      Regroup(front, value, ReplaceAll(rest[|pattern|..], pattern, value));
    }
  }

  lemma Regroup(front: string, value: string, rest: string)
    requires front != ""
    ensures [front[0]] + (front[1..] + value + rest) == front + value + rest
  {
  }

  /** Without an occurrence nothing is replaced. */
  lemma {:induction false} AbsentIsNotReplaced(s: string, pattern: string, value: string)
    requires pattern != "" && forall j | 0 <= j <= |s| :: !(pattern <= s[j..])
    ensures ReplaceAll(s, pattern, value) == s
  {
    if s != "" {
      assert s[0..] == s && forall j | 0 <= j <= |s| - 1 :: s[1..][j..] == s[j + 1..];
      AbsentIsNotReplaced(s[1..], pattern, value);
    }
  }

  function Placeholder(key: string): string {
    "{" + key + "}"
  }

  predicate BraceFree(s: string) {
    '{' !in s && '}' !in s
  }

  // ---- All variables at once ----

  predicate IsBrace(c: char) {
    c == '{' || c == '}'
  }

  // The index of the first brace, or |s|.
  function FirstBrace(s: string): (n: nat)
    ensures n <= |s|
    ensures n < |s| ==> IsBrace(s[n])
    ensures forall i | 0 <= i < n :: !IsBrace(s[i])
  {
    if s == "" || IsBrace(s[0]) then 0 else 1 + FirstBrace(s[1..])
  }

  // The first brace closes.
  predicate ClosesNext(s: string) {
    FirstBrace(s) < |s| && s[FirstBrace(s)] == '}'
  }

  // s starts with a slot: an opening brace, a key without braces, a closing brace.
  predicate AtSlot(s: string) {
    s != "" && s[0] == '{' && ClosesNext(s[1..])
  }

  function SlotKey(s: string): (key: string)
    requires AtSlot(s)
    ensures BraceFree(key) && |key| < |s|
  {
    s[1..][..FirstBrace(s[1..])]
  }

  function AfterSlot(s: string): (rest: string)
    requires AtSlot(s)
    ensures |rest| < |s|
    ensures s == "{" + SlotKey(s) + "}" + rest
  {
    s[1..][FirstBrace(s[1..])..][1..]
  }

  // Simultaneous substitution: each slot of the template is looked up once; unknown ones stay.
  function Fill(s: string, vars: map<string, string>): string
    decreases |s|
  {
    if s == "" then ""
    else if AtSlot(s) then
      (if SlotKey(s) in vars then vars[SlotKey(s)] else Placeholder(SlotKey(s))) + Fill(AfterSlot(s), vars)
    else [s[0]] + Fill(s[1..], vars)
  }

  function Keys(s: string): (keys: set<string>)
    ensures forall k | k in keys :: BraceFree(k) && |k| < |s|
    decreases |s|
  {
    if s == "" then {}
    else if AtSlot(s) then {SlotKey(s)} + Keys(AfterSlot(s))
    else Keys(s[1..])
  }

  // The braces outside all slots.
  function Left(s: string): string
    decreases |s|
  {
    if s == "" then ""
    else if AtSlot(s) then Left(AfterSlot(s))
    else if IsBrace(s[0]) then [s[0]] + Left(s[1..])
    else Left(s[1..])
  }

  // No filling can build a new slot: outside the slots no brace opens before one that closes.
  predicate Settled(s: string) {
    forall i, j | 0 <= i < j < |Left(s)| :: !(Left(s)[i] == '{' && Left(s)[j] == '}')
  }

  ghost predicate PlainValues(vars: map<string, string>) {
    forall k | k in vars :: BraceFree(k) && BraceFree(vars[k])
  }

  lemma {:induction false} FirstBraceAfter(text: string, rest: string)
    requires BraceFree(text)
    ensures FirstBrace(text + rest) == |text| + FirstBrace(rest)
    ensures ClosesNext(text + rest) == ClosesNext(rest)
  {
    if text == "" {
      assert text + rest == rest;
    } else {
      assert (text + rest)[1..] == text[1..] + rest;
      assert text[0] in text;
      FirstBraceAfter(text[1..], rest);
    }
  }

  lemma SlotShape(key: string, rest: string)
    requires BraceFree(key)
    ensures var s := Placeholder(key) + rest; AtSlot(s) && SlotKey(s) == key && AfterSlot(s) == rest
  {
    var s := Placeholder(key) + rest;
    assert s[1..] == key + ("}" + rest);
    FirstBraceAfter(key, "}" + rest);
    assert s[1..][..|key|] == key && s[1..][|key|..] == "}" + rest;
    assert ("}" + rest)[1..] == rest;
  }

  lemma CharInFront(c: char, rest: string, vars: map<string, string>)
    requires c != '{'
    ensures Fill([c] + rest, vars) == [c] + Fill(rest, vars)
    ensures Keys([c] + rest) == Keys(rest)
    ensures c != '}' ==> Left([c] + rest) == Left(rest)
  {
    assert ([c] + rest)[1..] == rest;
  }

  // Text without braces, or with closing braces alone, is carried over.
  lemma {:induction false} TextInFront(text: string, rest: string, vars: map<string, string>)
    requires '{' !in text
    ensures Fill(text + rest, vars) == text + Fill(rest, vars)
    ensures Keys(text + rest) == Keys(rest)
    ensures '}' !in text ==> Left(text + rest) == Left(rest)
  {
    if text == "" {
      assert text + rest == rest;
    } else {
      assert text + rest == [text[0]] + (text[1..] + rest) && text == [text[0]] + text[1..];
      CharInFront(text[0], text[1..] + rest, vars);
      TextInFront(text[1..], rest, vars);
      AppendPart([text[0]], text[1..], Fill(rest, vars));
    }
  }

  // ReplaceAll never finds a placeholder inside text without opening braces.
  lemma {:induction false} ReplacePlain(text: string, rest: string, key: string, value: string)
    requires '{' !in text
    ensures ReplaceAll(text + rest, Placeholder(key), value) == text + ReplaceAll(rest, Placeholder(key), value)
  {
    if text == "" {
      assert text + rest == rest;
    } else {
      assert (text + rest)[1..] == text[1..] + rest;
      assert text[0] in text && Placeholder(key)[0] == '{';
      ReplacePlain(text[1..], rest, key, value);
    }
  }

  // ... and finds it at a slot only when the slot is its own.
  lemma ReplaceSlot(slot: string, rest: string, key: string, value: string)
    requires BraceFree(slot) && BraceFree(key)
    ensures ReplaceAll("{" + slot + "}" + rest, Placeholder(key), value) ==
            (if slot == key then value else "{" + slot + "}") + ReplaceAll(rest, Placeholder(key), value)
  {
    var s := "{" + slot + "}" + rest;
    if slot == key {
      assert s[|Placeholder(key)|..] == rest;
    } else {
      SlotsMatchExactly(slot, key, rest);
      assert s[1..] == slot + ("}" + rest);
      ReplacePlain(slot + "}", rest, key, value);
      assert slot + "}" + rest == slot + ("}" + rest);
    }
  }

  lemma SlotsMatchExactly(slot: string, key: string, rest: string)
    requires BraceFree(slot) && BraceFree(key)
    ensures Placeholder(key) <= "{" + slot + "}" + rest ==> slot == key
  {
    var s := "{" + slot + "}" + rest;
    var p := Placeholder(key);
    assert s[1 + |slot|] == '}' && p[1 + |key|] == '}';
    if |key| < |slot| {
      assert s[1 + |key|] == slot[|key|] && slot[|key|] in slot;
    } else if |slot| < |key| {
      assert p[1 + |slot|] == key[|slot|] && key[|slot|] in key;
    } else {
      assert p[1..][..|key|] == key && s[1..][..|slot|] == slot;
    }
  }

  lemma PrefixCharacters(p: string, s: string)
    ensures p <= s ==> forall c | c in p :: c in s
  {
    if p <= s {
      forall c | c in p
        ensures c in s
      {
        var i :| 0 <= i < |p| && p[i] == c;
        assert s[i] == c;
      }
    }
  }

  lemma MatchIsSlot(s: string, key: string)
    requires BraceFree(key) && Placeholder(key) <= s
    ensures AtSlot(s) && SlotKey(s) == key
  {
    var rest := s[|Placeholder(key)|..];
    assert s == Placeholder(key) + rest;
    SlotShape(key, rest);
  }

  /** Replacing one variable everywhere is filling in that variable alone, whatever the template and the value. */
  lemma {:induction false} ReplaceIsFill(s: string, key: string, value: string)
    requires BraceFree(key)
    ensures ReplaceAll(s, Placeholder(key), value) == Fill(s, map[key := value])
    decreases |s|
  {
    if s == "" {
    } else if AtSlot(s) {
      ReplaceSlot(SlotKey(s), AfterSlot(s), key, value);
      ReplaceIsFill(AfterSlot(s), key, value);
    } else {
      if Placeholder(key) <= s {
        MatchIsSlot(s, key);
      }
      ReplaceIsFill(s[1..], key, value);
    }
  }

  // ---- Filling in two steps ----

  // Filling in the first variables builds no slot that the second ones would fill.
  predicate NoNewSlot(s: string, first: map<string, string>, second: map<string, string>)
    decreases |s|
  {
    if s == "" then true
    else if AtSlot(s) then NoNewSlot(AfterSlot(s), first, second)
    else
      && (var t := "{" + Fill(s[1..], first); s[0] == '{' && AtSlot(t) ==> SlotKey(t) !in second)
      && NoNewSlot(s[1..], first, second)
  }

  // An opening brace in front of text: a slot it completes leaves the rest of the text as it was.
  lemma BraceInFront(rest: string, vars: map<string, string>)
    requires AtSlot("{" + rest) ==> SlotKey("{" + rest) !in vars
    ensures Fill("{" + rest, vars) == "{" + Fill(rest, vars)
    ensures Keys(rest) <= Keys("{" + rest)
  {
    var s := "{" + rest;
    assert s[1..] == rest;
    if AtSlot(s) {
      CompletedSlot(SlotKey(s), AfterSlot(s), rest, vars);
    }
  }

  lemma CompletedSlot(key: string, after: string, rest: string, vars: map<string, string>)
    requires BraceFree(key) && "{" + rest == Placeholder(key) + after
    ensures "{" + Fill(rest, vars) == Placeholder(key) + Fill(after, vars) && Keys(rest) == Keys(after)
  {
    assert ("{" + rest)[1..] == (Placeholder(key) + after)[1..] == key + "}" + after;
    assert rest == key + "}" + after;
    TextInFront(key + "}", after, vars);
    AppendPart("{", key + "}", Fill(after, vars));
    AppendPart("{", key, "}");
  }

  /**
    Filling in two sets of variables one after the other is filling in both at once, unless the first builds a slot
    that the second would fill.
   */
  lemma {:induction false} FillInTwoSteps(s: string, first: map<string, string>, second: map<string, string>)
    requires NoNewSlot(s, first, second) && PlainValues(first) && first.Keys !! second.Keys
    ensures Fill(Fill(s, first), second) == Fill(s, first + second)
    decreases |s|
  {
    if s == "" {
    } else if AtSlot(s) {
      var key, rest := SlotKey(s), AfterSlot(s);
      FillInTwoSteps(rest, first, second);
      if key in first {
        TextInFront(first[key], Fill(rest, first), second);
      } else {
        SlotShape(key, Fill(rest, first));
      }
    } else {
      FillInTwoSteps(s[1..], first, second);
      if s[0] == '{' {
        BraceInFront(Fill(s[1..], first), second);
      } else {
        TextInFront([s[0]], Fill(s[1..], first), second);
      }
    }
  }

  // Where no brace outside the slots closes, filling shows no closing brace first.
  lemma {:induction false} OnlyOpens(s: string, vars: map<string, string>)
    requires '}' !in Left(s) && PlainValues(vars)
    ensures !ClosesNext(Fill(s, vars))
    decreases |s|
  {
    if s == "" {
    } else if AtSlot(s) {
      OnlyOpens(AfterSlot(s), vars);
      FirstOfSlot(s, vars);
    } else {
      OnlyOpens(s[1..], vars);
      FirstOfChar(s, vars);
    }
  }

  lemma FirstOfSlot(s: string, vars: map<string, string>)
    requires AtSlot(s) && PlainValues(vars)
    ensures var t, rest := Fill(s, vars), Fill(AfterSlot(s), vars);
            if SlotKey(s) in vars then
              ClosesNext(t) == ClosesNext(rest) && FirstBrace(t) == |vars[SlotKey(s)]| + FirstBrace(rest)
            else
              !ClosesNext(t)
  {
    if SlotKey(s) in vars {
      FirstBraceAfter(vars[SlotKey(s)], Fill(AfterSlot(s), vars));
    } else {
      assert Fill(s, vars)[0] == '{';
    }
  }

  lemma FirstOfChar(s: string, vars: map<string, string>)
    requires s != "" && !AtSlot(s) && PlainValues(vars)
    ensures var t, rest := Fill(s, vars), Fill(s[1..], vars);
            if IsBrace(s[0]) then ClosesNext(t) == ClosesNext(s) == (s[0] == '}')
            else
              && ClosesNext(t) == ClosesNext(rest) && FirstBrace(t) == 1 + FirstBrace(rest)
              && ClosesNext(s) == ClosesNext(s[1..])
  {
    if IsBrace(s[0]) {
      assert Fill(s, vars)[0] == s[0];
    } else {
      FirstBraceAfter([s[0]], Fill(s[1..], vars));
      FirstBraceAfter([s[0]], s[1..]);
      assert s == [s[0]] + s[1..];
    }
  }

  lemma {:induction false} SettledBuildsNoSlot(s: string, first: map<string, string>, second: map<string, string>)
    requires Settled(s) && PlainValues(first)
    ensures NoNewSlot(s, first, second)
    decreases |s|
  {
    if s == "" {
    } else if AtSlot(s) {
      assert Left(s) == Left(AfterSlot(s));
      SettledBuildsNoSlot(AfterSlot(s), first, second);
    } else {
      SettledTail(s);
      SettledBuildsNoSlot(s[1..], first, second);
      if s[0] == '{' {
        OnlyOpens(s[1..], first);
        assert ("{" + Fill(s[1..], first))[1..] == Fill(s[1..], first);
      }
    }
  }

  lemma SettledTail(s: string)
    requires Settled(s) && s != "" && !AtSlot(s)
    ensures Settled(s[1..]) && (s[0] == '{' ==> '}' !in Left(s[1..]))
  {
    var all, tail := Left(s), Left(s[1..]);
    if IsBrace(s[0]) {
      assert all == [s[0]] + tail;
      assert forall i | 0 <= i < |tail| :: tail[i] == all[i + 1];
    }
  }

  // Values longer than every later key: a slot they complete is none of the later ones.
  ghost predicate LongValues(vars: map<string, string>, n: nat) {
    forall k | k in vars :: |vars[k]| > n
  }

  lemma {:induction false} LongFirst(s: string, vars: map<string, string>, n: nat)
    requires PlainValues(vars) && LongValues(vars, n) && !ClosesNext(s)
    ensures ClosesNext(Fill(s, vars)) ==> FirstBrace(Fill(s, vars)) > n
    decreases |s|
  {
    if s == "" {
    } else if AtSlot(s) {
      FirstOfSlot(s, vars);
    } else {
      FirstOfChar(s, vars);
      if !IsBrace(s[0]) {
        LongFirst(s[1..], vars, n);
      }
    }
  }

  lemma {:induction false} LongBuildsNoSlot(
    s: string, first: map<string, string>, second: map<string, string>, n: nat)
    requires PlainValues(first) && LongValues(first, n) && forall k | k in second :: |k| <= n
    ensures NoNewSlot(s, first, second)
    decreases |s|
  {
    if s == "" {
    } else if AtSlot(s) {
      LongBuildsNoSlot(AfterSlot(s), first, second, n);
    } else {
      LongBuildsNoSlot(s[1..], first, second, n);
      if s[0] == '{' {
        LongFirst(s[1..], first, n);
        assert ("{" + Fill(s[1..], first))[1..] == Fill(s[1..], first);
      }
    }
  }

  // ---- Render ----

  // One pass of the map in a given order.
  function InOrder(s: string, order: seq<string>, vars: map<string, string>): string
    requires forall k | k in order :: k in vars
  {
    if order == [] then s else
      var n := |order| - 1;
      ReplaceAll(InOrder(s, order[..n], vars), Placeholder(order[n]), vars[order[n]])
  }

  ghost predicate IsOrder(order: seq<string>, vars: map<string, string>) {
    && (forall k :: k in order <==> k in vars)
    && forall i, j | 0 <= i < j < |order| :: order[i] != order[j]
  }

  /**
    Rendering does not depend on the order in which a map yields its variables: for a settled template and
    brace-free keys and values every order gives the simultaneous substitution.
   */
  lemma AnyOrderFillsIn(s: string, order: seq<string>, vars: map<string, string>)
    requires Settled(s) && PlainValues(vars) && IsOrder(order, vars)
    ensures InOrder(s, order, vars) == Fill(s, vars)
  {
    FilledByPrefix(s, order, vars);
    assert Chosen(order, vars) == vars;
  }

  function Chosen(keys: seq<string>, vars: map<string, string>): map<string, string> {
    map k | k in vars && k in keys :: vars[k]
  }

  lemma ChosenOneMore(keys: seq<string>, key: string, vars: map<string, string>)
    requires key in vars && key !in keys
    ensures Chosen(keys + [key], vars) == Chosen(keys, vars) + map[key := vars[key]]
    ensures key !in Chosen(keys, vars)
  {
  }

  // Every key fits into the template, every value is longer than it.
  ghost predicate LongOver(s: string, order: seq<string>, vars: map<string, string>) {
    forall k | k in order :: k in vars && |k| <= |s| < |vars[k]|
  }

  lemma BuildsNoSlot(s: string, order: seq<string>, vars: map<string, string>)
    requires Settled(s) || LongOver(s, order, vars)
    requires order != [] && PlainValues(vars) && forall k | k in order :: k in vars
    ensures var n := |order| - 1; NoNewSlot(s, Chosen(order[..n], vars), map[order[n] := vars[order[n]]])
  {
    var n := |order| - 1;
    var first, second := Chosen(order[..n], vars), map[order[n] := vars[order[n]]];
    if Settled(s) {
      SettledBuildsNoSlot(s, first, second);
    } else {
      assert order[n] in order;
      LongBuildsNoSlot(s, first, second, |s|);
    }
  }

  lemma {:induction false} FilledByPrefix(s: string, order: seq<string>, vars: map<string, string>)
    requires Settled(s) || LongOver(s, order, vars)
    requires PlainValues(vars) && forall k | k in order :: k in vars
    requires forall i, j | 0 <= i < j < |order| :: order[i] != order[j]
    ensures InOrder(s, order, vars) == Fill(s, Chosen(order, vars))
  {
    if order == [] {
      FillNothing(s);
      assert Chosen(order, vars) == map[];
    } else {
      var n := |order| - 1;
      var key := order[n];
      assert order == order[..n] + [key];
      FilledByPrefix(s, order[..n], vars);
      ChosenOneMore(order[..n], key, vars);
      BuildsNoSlot(s, order, vars);
      FillInTwoSteps(s, Chosen(order[..n], vars), map[key := vars[key]]);
      ReplaceIsFill(Fill(s, Chosen(order[..n], vars)), key, vars[key]);
    }
  }

  // Some text and the key of the slot behind it.
  datatype Piece = Piece(text: string, key: string)

  // A template made of texts and slots, and what it should become.
  function Built(pieces: seq<Piece>, tail: string): string {
    if pieces == [] then tail
    else pieces[0].text + ("{" + pieces[0].key + "}" + Built(pieces[1..], tail))
  }

  function Expected(pieces: seq<Piece>, tail: string, vars: map<string, string>): string {
    if pieces == [] then tail
    else
      var key := pieces[0].key;
      pieces[0].text + ((if key in vars then vars[key] else "{" + key + "}") + Expected(pieces[1..], tail, vars))
  }

  ghost predicate ArePlain(pieces: seq<Piece>, tail: string) {
    BraceFree(tail) && forall i | 0 <= i < |pieces| :: BraceFree(pieces[i].text) && BraceFree(pieces[i].key)
  }

  lemma {:induction false} BuiltIsFilled(pieces: seq<Piece>, tail: string, vars: map<string, string>)
    requires ArePlain(pieces, tail)
    ensures Fill(Built(pieces, tail), vars) == Expected(pieces, tail, vars) && Left(Built(pieces, tail)) == ""
  {
    if pieces == [] {
      TextInFront(tail, "", vars);
      assert tail + "" == tail;
    } else {
      var key, rest := pieces[0].key, Built(pieces[1..], tail);
      BuiltIsFilled(pieces[1..], tail, vars);
      SlotShape(key, rest);
      TextInFront(pieces[0].text, Placeholder(key) + rest, vars);
    }
  }

  /** A template made of texts and slots without braces in them becomes the texts with the variables between them. */
  lemma RendersPieces(pieces: seq<Piece>, tail: string, order: seq<string>, vars: map<string, string>)
    requires ArePlain(pieces, tail) && PlainValues(vars) && IsOrder(order, vars)
    ensures InOrder(Built(pieces, tail), order, vars) == Expected(pieces, tail, vars)
  {
    BuiltIsFilled(pieces, tail, vars);
    AnyOrderFillsIn(Built(pieces, tail), order, vars);
  }

  // Replaces the variables one at a time in whatever order the map yields them.
  method Render(t: Template, vars: map<string, string>)
    returns (subject: string, body: string, ghost order: seq<string>)
    ensures IsOrder(order, vars)
    ensures subject == InOrder(t.subject, order, vars) && body == InOrder(t.body, order, vars)
    ensures Settled(t.subject) && PlainValues(vars) ==> subject == Fill(t.subject, vars)
    ensures Settled(t.body) && PlainValues(vars) ==> body == Fill(t.body, vars)
  {
    subject, body, order := t.subject, t.body, [];
    var rest := vars.Keys;
    while rest != {}
      invariant rest <= vars.Keys && forall k | k in vars :: k in order <==> k !in rest
      invariant forall k | k in order :: k in vars
      invariant forall i, j | 0 <= i < j < |order| :: order[i] != order[j]
      invariant subject == InOrder(t.subject, order, vars) && body == InOrder(t.body, order, vars)
      decreases rest
    {
      var key :| key in rest;
      subject := ReplaceAll(subject, Placeholder(key), vars[key]);
      body := ReplaceAll(body, Placeholder(key), vars[key]);
      assert (order + [key])[..|order|] == order;
      order := order + [key];
      rest := rest - {key};
    }
    if Settled(t.subject) && PlainValues(vars) {
      AnyOrderFillsIn(t.subject, order, vars);
    }
    if Settled(t.body) && PlainValues(vars) {
      AnyOrderFillsIn(t.body, order, vars);
    }
  }

  lemma {:induction false} FillNothing(s: string)
    ensures Fill(s, map[]) == s
    decreases |s|
  {
    if s != "" {
      FillNothing(if AtSlot(s) then AfterSlot(s) else s[1..]);
    }
  }

  // ---- Exactly when the order shows ----

  lemma {:induction false} FillLeavesOthers(s: string, vars: map<string, string>)
    requires Keys(s) !! vars.Keys
    ensures Fill(s, vars) == s
    decreases |s|
  {
    if s != "" {
      FillLeavesOthers(if AtSlot(s) then AfterSlot(s) else s[1..], vars);
    }
  }

  // Emptying a variable that has a slot makes the text shorter.
  lemma {:induction false} EmptyingShrinks(s: string, key: string)
    ensures |Fill(s, map[key := ""])| <= |s|
    ensures key in Keys(s) ==> |Fill(s, map[key := ""])| < |s|
    decreases |s|
  {
    if s != "" {
      EmptyingShrinks(if AtSlot(s) then AfterSlot(s) else s[1..], key);
    }
  }

  lemma {:induction false} InOrderCons(s: string, key: string, order: seq<string>, vars: map<string, string>)
    requires key in vars && forall k | k in order :: k in vars
    ensures InOrder(s, [key] + order, vars) == InOrder(ReplaceAll(s, Placeholder(key), vars[key]), order, vars)
  {
    var all := [key] + order;
    if order == [] {
      assert all[..0] == [];
    } else {
      var n := |order| - 1;
      InOrderCons(s, key, order[..n], vars);
      assert all[..n + 1] == [key] + order[..n];
    }
  }

  // Some new slot appears, with a key longer than n, once every slot holds a long value.
  lemma {:induction false} NewSlot(s: string, vars: map<string, string>, n: nat) returns (key: string)
    requires !Settled(s) && Keys(s) <= vars.Keys && PlainValues(vars) && LongValues(vars, n)
    ensures key in Keys(Fill(s, vars)) && |key| > n
    decreases |s|
  {
    if AtSlot(s) {
      assert Left(s) == Left(AfterSlot(s));
      key := NewSlot(AfterSlot(s), vars, n);
      TextInFront(vars[SlotKey(s)], Fill(AfterSlot(s), vars), vars);
    } else if s[0] != '{' {
      UnsettledTail(s);
      key := NewSlot(s[1..], vars, n);
      TextInFront([s[0]], Fill(s[1..], vars), vars);
    } else {
      var rest := Fill(s[1..], vars);
      assert ("{" + rest)[1..] == rest;
      if !Settled(s[1..]) {
        key := NewSlot(s[1..], vars, n);
        BraceInFront(rest, map[]);
      } else {
        ClosesFirst(s[1..], vars) by {
          UnsettledTail(s);
        }
        LongFirst(s[1..], vars, n);
        key := SlotKey("{" + rest);
      }
    }
  }

  lemma UnsettledTail(s: string)
    requires s != "" && !Settled(s) && !AtSlot(s)
    ensures s[0] != '{' ==> !Settled(s[1..])
    ensures s[0] == '{' && Settled(s[1..]) ==> Left(s[1..]) != "" && Left(s[1..])[0] == '}'
  {
    var all, tail := Left(s), Left(s[1..]);
    var i, j :| 0 <= i < j < |all| && all[i] == '{' && all[j] == '}';
    if IsBrace(s[0]) {
      assert all == [s[0]] + tail;
      assert tail[j - 1] == '}';
      if i > 0 {
        assert tail[i - 1] == '{';
      }
      BracesOnly(s[1..]);
      assert tail[0] in tail;
      assert tail[0] == '{' && j > 1 ==> !Settled(s[1..]);
    }
  }

  lemma {:induction false} BracesOnly(s: string)
    ensures forall c | c in Left(s) :: IsBrace(c)
    decreases |s|
  {
    if s != "" {
      BracesOnly(if AtSlot(s) then AfterSlot(s) else s[1..]);
    }
  }

  // With every slot filled, the first brace left is the first one outside the slots.
  lemma {:induction false} ClosesFirst(s: string, vars: map<string, string>)
    requires Left(s) != "" && Left(s)[0] == '}' && Keys(s) <= vars.Keys && PlainValues(vars)
    ensures ClosesNext(Fill(s, vars))
    decreases |s|
  {
    if AtSlot(s) {
      ClosesFirst(AfterSlot(s), vars);
      FirstOfSlot(s, vars);
    } else {
      FirstOfChar(s, vars);
      if !IsBrace(s[0]) {
        ClosesFirst(s[1..], vars);
      }
    }
  }

  lemma {:induction false} Listed(keys: set<string>) returns (order: seq<string>)
    ensures forall k :: k in order <==> k in keys
    ensures forall i, j | 0 <= i < j < |order| :: order[i] != order[j]
    decreases keys
  {
    if keys == {} {
      order := [];
    } else {
      var key :| key in keys;
      var rest := Listed(keys - {key});
      order := rest + [key];
    }
  }

  ghost predicate OrdersAgree(s: string, vars: map<string, string>) {
    forall a, b | IsOrder(a, vars) && IsOrder(b, vars) :: InOrder(s, a, vars) == InOrder(s, b, vars)
  }

  // Every slot gets a long value, which builds a slot with a longer key.
  lemma LongFilling(s: string) returns (first: map<string, string>, order: seq<string>, key: string)
    requires !Settled(s)
    ensures PlainValues(first) && LongValues(first, |s|) && forall k | k in first :: |k| <= |s|
    ensures IsOrder(order, first) && key in Keys(Fill(s, first)) && |key| > |s|
  {
    var long := LongText(|s|);
    first := map k | k in Keys(s) :: long;
    key := NewSlot(s, first, |s|);
    order := Listed(Keys(s));
  }

  // Filling every slot and then emptying the new slot, against the other way round.
  lemma UnsettledShowsTheOrder(s: string) returns (vars: map<string, string>)
    requires !Settled(s)
    ensures PlainValues(vars) && !OrdersAgree(s, vars)
  {
    var first, order, key := LongFilling(s);
    vars := first + map[key := ""];
    FilledByLong(s, order, first, key, vars);
    assert key !in first && key !in Keys(s);
    EmptyingShows(s, order, key, vars);
  }

  // A variable that empties a slot the others have built: last it does something, first it does not.
  lemma EmptyingShows(s: string, order: seq<string>, key: string, vars: map<string, string>)
    requires key !in order && forall k :: k in vars <==> k == key || k in order
    requires forall i, j | 0 <= i < j < |order| :: order[i] != order[j]
    requires vars[key] == "" && BraceFree(key) && key !in Keys(s) && key in Keys(InOrder(s, order, vars))
    ensures !OrdersAgree(s, vars)
  {
    EmptiedLast(s, order, key, vars);
    EmptiedFirst(s, order, key, vars);
    OrdersBothWays(order, key, vars);
    LengthsTell(s, order + [key], [key] + order, vars);
  }

  lemma LengthsTell(s: string, a: seq<string>, b: seq<string>, vars: map<string, string>)
    requires IsOrder(a, vars) && IsOrder(b, vars) && |InOrder(s, a, vars)| < |InOrder(s, b, vars)|
    ensures !OrdersAgree(s, vars)
  {
  }

  lemma LongText(n: nat) returns (text: string)
    ensures BraceFree(text) && |text| > n
  {
    text := seq(n + 1, _ => 'x');
  }

  lemma OrdersBothWays(order: seq<string>, key: string, vars: map<string, string>)
    requires key !in order && forall k :: k in vars <==> k == key || k in order
    requires forall i, j | 0 <= i < j < |order| :: order[i] != order[j]
    ensures IsOrder(order + [key], vars) && IsOrder([key] + order, vars)
  {
  }

  lemma FilledByLong(
    s: string, order: seq<string>, first: map<string, string>, key: string, vars: map<string, string>)
    requires PlainValues(first) && LongValues(first, |s|) && key !in first && BraceFree(key)
    requires vars == first + map[key := ""] && IsOrder(order, first) && forall k | k in first :: |k| <= |s|
    ensures InOrder(s, order, vars) == Fill(s, first)
  {
    assert Chosen(order, vars) == first;
    FilledByPrefix(s, order, vars);
  }

  lemma EmptiedLast(s: string, order: seq<string>, key: string, vars: map<string, string>)
    requires key in vars && vars[key] == "" && BraceFree(key) && forall k | k in order :: k in vars
    requires key in Keys(InOrder(s, order, vars))
    ensures |InOrder(s, order + [key], vars)| < |InOrder(s, order, vars)|
  {
    var t := InOrder(s, order, vars);
    assert (order + [key])[..|order|] == order;
    ReplaceIsFill(t, key, "");
    EmptyingShrinks(t, key);
  }

  lemma EmptiedFirst(s: string, order: seq<string>, key: string, vars: map<string, string>)
    requires key in vars && BraceFree(key) && key !in Keys(s) && forall k | k in order :: k in vars
    ensures InOrder(s, [key] + order, vars) == InOrder(s, order, vars)
  {
    InOrderCons(s, key, order, vars);
    ReplaceIsFill(s, key, vars[key]);
    FillLeavesOthers(s, map[key := vars[key]]);
  }

  /** For brace-free variables the map order never shows exactly when the template is settled. */
  lemma OrderNeverShowsIff(s: string)
    ensures (forall vars: map<string, string> | PlainValues(vars) :: OrdersAgree(s, vars)) <==> Settled(s)
  {
    if Settled(s) {
      forall vars: map<string, string>, a, b | PlainValues(vars) && IsOrder(a, vars) && IsOrder(b, vars)
        ensures InOrder(s, a, vars) == InOrder(s, b, vars)
      {
        AnyOrderFillsIn(s, a, vars);
        AnyOrderFillsIn(s, b, vars);
      }
    } else {
      var vars := UnsettledShowsTheOrder(s);
    }
  }

  ghost predicate PlainKeys(vars: map<string, string>) {
    forall k | k in vars :: BraceFree(k)
  }

  // A value that is itself a slot puts that slot into the text.
  lemma {:induction false} ValueIsSlot(s: string, key: string, inner: string)
    requires key in Keys(s) && BraceFree(inner)
    ensures inner in Keys(Fill(s, map[key := Placeholder(inner)]))
    decreases |s|
  {
    var vars := map[key := Placeholder(inner)];
    if AtSlot(s) {
      var rest := Fill(AfterSlot(s), vars);
      if SlotKey(s) == key {
        SlotShape(inner, rest);
      } else {
        SlotShape(SlotKey(s), rest);
        ValueIsSlot(AfterSlot(s), key, inner);
      }
    } else {
      var rest := Fill(s[1..], vars);
      ValueIsSlot(s[1..], key, inner);
      if s[0] == '{' {
        BraceInFront(rest, map[]);
      } else {
        TextInFront([s[0]], rest, vars);
      }
    }
  }

  lemma OneInOrder(s: string, key: string, vars: map<string, string>)
    requires key in vars
    ensures InOrder(s, [key], vars) == ReplaceAll(s, Placeholder(key), vars[key])
  {
    assert [key][..0] == [];
  }

  lemma SlotShowsTheOrder(s: string, key: string) returns (vars: map<string, string>)
    requires key in Keys(s)
    ensures PlainKeys(vars) && !OrdersAgree(s, vars)
  {
    var inner := LongText(|s|);
    vars := map[key := Placeholder(inner), inner := ""];
    OneInOrder(s, key, vars);
    ReplaceIsFill(s, key, Placeholder(inner));
    ValueIsSlot(s, key, inner);
    EmptyingShows(s, [key], inner, vars);
  }

  lemma {:induction false} NoSlotNoChange(s: string, order: seq<string>, vars: map<string, string>)
    requires Keys(s) == {} && PlainKeys(vars) && forall k | k in order :: k in vars
    ensures InOrder(s, order, vars) == s
  {
    if order != [] {
      var n := |order| - 1;
      NoSlotNoChange(s, order[..n], vars);
      ReplaceIsFill(s, order[n], vars[order[n]]);
      FillLeavesOthers(s, map[order[n] := vars[order[n]]]);
    }
  }

  /** With braces allowed in values, the order never shows exactly in a template without any slot. */
  lemma BracedOrderNeverShowsIff(s: string)
    ensures (forall vars: map<string, string> | PlainKeys(vars) :: OrdersAgree(s, vars)) <==> Keys(s) == {}
  {
    if Keys(s) == {} {
      forall vars: map<string, string>, a, b | PlainKeys(vars) && IsOrder(a, vars) && IsOrder(b, vars)
        ensures InOrder(s, a, vars) == InOrder(s, b, vars)
      {
        NoSlotNoChange(s, a, vars);
        NoSlotNoChange(s, b, vars);
      }
    } else {
      var key :| key in Keys(s);
      var vars := SlotShowsTheOrder(s, key);
    }
  }

  // ---- Small cases where the order shows ----

  lemma TwoInTurn(s: string, k: string, k': string, vars: map<string, string>)
    requires k in vars && k' in vars
    ensures InOrder(s, [k, k'], vars) == ReplaceAll(ReplaceAll(s, Placeholder(k), vars[k]), Placeholder(k'), vars[k'])
  {
    assert [k, k'][..1] == [k];
    assert InOrder(s, [k], vars) == ReplaceAll(InOrder(s, [], vars), Placeholder(k), vars[k]) by {
      assert [k][..0] == [];
    }
  }

  /** Nested braces make the order visible: a -> "b" can build the placeholder of b. */
  lemma NestedBracesShowTheOrder()
    ensures !Settled("{{a}}")
    ensures InOrder("{{a}}", ["a", "b"], map["a" := "b", "b" := "c"]) == "c"
    ensures InOrder("{{a}}", ["b", "a"], map["a" := "b", "b" := "c"]) == "{b}"
  {
    var s, vars := "{{a}}", map["a" := "b", "b" := "c"];
    TwoInTurn(s, "a", "b", vars);
    TwoInTurn(s, "b", "a", vars);
    InnerFirst();
    NestedIsNotSettled();
  }

  lemma NestedIsNotSettled()
    ensures !Settled("{{a}}")
  {
    var s := "{{a}}";
    assert s == "{" + (Placeholder("a") + "}");
    SlotShape("a", "}");
    assert s[1..] == Placeholder("a") + "}";
    assert FirstBrace(s[1..]) == 0;
    assert Left("}") == "}" + Left("");
    assert Left(s[1..]) == Left("}") == "}";
    assert Left(s) == "{" + Left(s[1..]) == "{}";
    assert Left(s)[0] == '{' && Left(s)[1] == '}';
  }

  lemma InnerFirst()
    ensures ReplaceAll(ReplaceAll("{{a}}", Placeholder("a"), "b"), Placeholder("b"), "c") == "c"
    ensures ReplaceAll(ReplaceAll("{{a}}", Placeholder("b"), "c"), Placeholder("a"), "b") == "{b}"
  {
    assert Placeholder("a") == "{a}" && Placeholder("b") == "{b}";
    NoOccurrence("{{a}}", "{b}", "c", 'b');
    assert ReplaceAll("{a}}", "{a}", "b") == "b" + ReplaceAll("}", "{a}", "b") == "b}";
    assert ReplaceAll("{{a}}", "{a}", "b") == "{" + ReplaceAll("{a}}", "{a}", "b") == "{b}";
    assert ReplaceAll("{b}", "{b}", "c") == "c" + ReplaceAll("", "{b}", "c") == "c";
  }

  /** So do braces in a value: a -> "{b}" is filled in again when b comes later. */
  lemma BracesInValuesShowTheOrder()
    ensures InOrder("{a}", ["a", "b"], map["a" := "{b}", "b" := "c"]) == "c"
    ensures InOrder("{a}", ["b", "a"], map["a" := "{b}", "b" := "c"]) == "{b}"
  {
    TwoInTurn("{a}", "a", "b", map["a" := "{b}", "b" := "c"]);
    TwoInTurn("{a}", "b", "a", map["a" := "{b}", "b" := "c"]);
    assert Placeholder("a") == "{a}" && Placeholder("b") == "{b}";
    assert ReplaceAll("{a}", "{a}", "{b}") == "{b}" + ReplaceAll("", "{a}", "{b}") == "{b}";
    assert ReplaceAll("{b}", "{b}", "c") == "c" + ReplaceAll("", "{b}", "c") == "c";
    NoOccurrence("{a}", "{b}", "c", 'b');
  }

  lemma {:induction false} NoOccurrence(s: string, pattern: string, value: string, c: char)
    requires c in pattern && c !in s
    ensures ReplaceAll(s, pattern, value) == s
  {
    if s != "" {
      PrefixCharacters(pattern, s);
      NoOccurrence(s[1..], pattern, value, c);
    }
  }
}
