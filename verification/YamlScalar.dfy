/** How a settings value is written behind its key, and which values a YAML reader gets back. */
module YamlScalar {
  import opened Wrappers

  // ---- Writing ----

  predicate NeedsQuotes(v: string) {
    exists c | c in v :: c in {':', '#', '\"', '\'', '\n', '{', '}', '[', ']'}
  }

  // strconv.IsPrint; above the Latin-1 range its table is the parameter.
  predicate IsPrint(c: char, table: char -> bool) {
    var n := c as int;
    if n <= 0xFF then 0x20 <= n < 0x7F || (0xA1 <= n && n != 0xAD) else table(c)
  }

  // A table that holds neither line breaks nor noncharacters.
  ghost predicate IsPrintTable(table: char -> bool) {
    forall c: char | table(c) :: IsText(c)
  }

  function HexDigit(n: nat): char
    requires n < 16
  {
    "0123456789abcdef"[n]
  }

  function Hex(n: nat, width: nat): (r: string)
    ensures |r| == width && '\n' !in r
  {
    if width == 0 then "" else Hex(n / 16, width - 1) + [HexDigit(n % 16)]
  }

  // One character of a double-quoted Go literal.
  function Escape(c: char, table: char -> bool): (r: string)
    ensures r != "" && '\n' !in r
  {
    var n := c as int;
    if c == '\"' || c == '\\' then ['\\', c]
    else if IsPrint(c, table) then [c]
    else if n == 7 then "\\a"
    else if n == 8 then "\\b"
    else if n == 12 then "\\f"
    else if c == '\n' then "\\n"
    else if c == '\r' then "\\r"
    else if c == '\t' then "\\t"
    else if n == 11 then "\\v"
    else if n < 0x20 || n == 0x7F then "\\x" + Hex(n, 2)
    else if n < 0x1_0000 then "\\u" + Hex(n, 4)
    else "\\U" + Hex(n, 8)
  }

  function EscapeAll(v: string, table: char -> bool): (r: string)
    ensures '\n' !in r
  {
    if v == "" then "" else Escape(v[0], table) + EscapeAll(v[1..], table)
  }

  // Quoted exactly when it holds a colon, a hash, a quote, a newline, a brace or a bracket.
  function YamlQuote(v: string, table: char -> bool): (r: string)
    ensures '\n' !in r
    ensures (forall c | c in v :: c !in ":#\"'\n{}[]") ==> r == v
    ensures (exists c | c in v :: c in ":#\"'\n{}[]") ==> |r| >= 2 && r[0] == r[|r| - 1] == '\"'
  {
    if NeedsQuotes(v) then "\"" + EscapeAll(v, table) + "\"" else v
  }

  // ---- Reading: YAML 1.2.2 ----

  // Section 6.2: spaces and tabs separate.
  predicate IsBlank(c: char) {
    c == ' ' || c == '\t'
  }

  // Section 5.1: a printable character, and none that yaml.v3 takes for a line break.
  predicate IsText(c: char) {
    var n := c as int;
    && (n == 9 || 0x20 <= n <= 0x7E || 0xA0 <= n <= 0xD7FF || 0xE000 <= n <= 0xFFFD || 0x1_0000 <= n)
    && n != 0x2028 && n != 0x2029
  }

  function SkipBlanks(s: string): string {
    if s != "" && IsBlank(s[0]) then SkipBlanks(s[1..]) else s
  }

  function DropBlanks(s: string): string {
    if s != "" && IsBlank(s[|s| - 1]) then DropBlanks(s[..|s| - 1]) else s
  }

  // Section 7.3.3: an indicator starts no plain scalar, except these three in front of a character that is not blank.
  predicate StartsPlain(s: string)
    requires s != ""
  {
    if s[0] in {'-', '?', ':'} then |s| > 1 && !IsBlank(s[1])
    else s[0] !in {',', '[', ']', '{', '}', '#', '&', '*', '!', '|', '>', '\'', '\"', '%', '@', '`'}
  }

  // A plain scalar up to a comment. A colon that ends a key would start a mapping.
  function ReadPlain(s: string, afterBlank: bool): Option<string> {
    if s == "" || (s[0] == '#' && afterBlank) then Some("")
    else if !IsText(s[0]) || (s[0] == ':' && (|s| == 1 || IsBlank(s[1]))) then None
    else
      match ReadPlain(s[1..], IsBlank(s[0]))
      case None => None
      case Some(rest) => Some([s[0]] + rest)
  }

  function HexValueOf(c: char): Option<nat> {
    if '0' <= c <= '9' then Some(c as int - '0' as int)
    else if 'a' <= c <= 'f' then Some(c as int - 'a' as int + 10)
    else if 'A' <= c <= 'F' then Some(c as int - 'A' as int + 10)
    else None
  }

  function HexValue(s: string): Option<nat> {
    if s == "" then Some(0) else
      match (HexValue(s[..|s| - 1]), HexValueOf(s[|s| - 1]))
      case (Some(high), Some(low)) => Some(16 * high + low)
      case _ => None
  }

  predicate IsScalarValue(n: nat) {
    n < 0xD800 || 0xE000 <= n < 0x11_0000
  }

  // Section 5.7: what the character behind a backslash stands for, if it takes no digits.
  function ShortEscape(c: char): Option<char> {
    match c
    case '0' => Some(0 as char)
    case 'a' => Some(7 as char)
    case 'b' => Some(8 as char)
    case 't' => Some('\t')
    case 'n' => Some('\n')
    case 'v' => Some(11 as char)
    case 'f' => Some(12 as char)
    case 'r' => Some('\r')
    case 'e' => Some(27 as char)
    case 'N' => Some(0x85 as char)
    case '_' => Some(0xA0 as char)
    case 'L' => Some(0x2028 as char)
    case 'P' => Some(0x2029 as char)
    case _ => if c in {' ', '\t', '\"', '/', '\\'} then Some(c) else None
  }

  // How many hexadecimal digits follow.
  function DigitsAfter(c: char): nat {
    if c == 'x' then 2 else if c == 'u' then 4 else if c == 'U' then 8 else 0
  }

  // A character inside double quotes, and how much of the text stands for it.
  datatype Unit = Unit(c: char, length: nat)

  function ReadUnit(s: string): (u: Option<Unit>)
    requires s != ""
    ensures u.Some? ==> 0 < u.value.length <= |s|
  {
    if s[0] != '\\' then if IsText(s[0]) then Some(Unit(s[0], 1)) else None
    else if |s| == 1 then None
    else if DigitsAfter(s[1]) == 0 then
      match ShortEscape(s[1])
      case None => None
      case Some(c) => Some(Unit(c, 2))
    else
      var end := 2 + DigitsAfter(s[1]);
      if |s| < end then None else
        match HexValue(s[2..end])
        case None => None
        case Some(n) => if IsScalarValue(n) then Some(Unit(n as char, end)) else None
  }

  // Section 7.3.1: the rest of a double-quoted scalar, which only a comment may follow.
  function ReadQuoted(s: string): Option<string> {
    if s == "" then None
    else if s[0] == '\"' then if IsComment(s[1..]) then Some("") else None
    else
      match ReadUnit(s)
      case None => None
      case Some(u) => Prepend(u.c, ReadQuoted(s[u.length..]))
  }

  function Prepend(c: char, rest: Option<string>): Option<string> {
    match rest
    case None => None
    case Some(s) => Some([c] + s)
  }

  predicate IsComment(s: string) {
    SkipBlanks(s) == "" || (IsBlank(s[0]) && SkipBlanks(s)[0] == '#')
  }

  // Section 10.3.2: the plain scalars that stand for no value.
  predicate IsNull(s: string) {
    s in {"", "~", "null", "Null", "NULL"}
  }

  // The text that one plain or double-quoted scalar behind a key and its colon holds. None for everything else: no
  // value, an alias, a tag, a collection, a block scalar, an error.
  function ReadScalar(s: string): Option<string> {
    var text := SkipBlanks(s);
    if text == "" then None
    else if text[0] == '\"' then ReadQuoted(text[1..])
    else if !StartsPlain(text) then None
    else
      match ReadPlain(text, false)
      case None => None
      case Some(plain) => if IsNull(DropBlanks(plain)) then None else Some(DropBlanks(plain))
  }

  // ---- A quoted value is read back ----

  function Pow16(width: nat): nat {
    if width == 0 then 1 else 16 * Pow16(width - 1)
  }

  lemma HexDigitIsRead(n: nat)
    requires n < 16
    ensures HexValueOf(HexDigit(n)) == Some(n)
  {
    assert HexDigit(n) == if n < 10 then '0' + n as char else 'a' + (n - 10) as char;
  }

  lemma {:induction false} HexIsRead(n: nat, width: nat)
    requires n < Pow16(width)
    ensures HexValue(Hex(n, width)) == Some(n)
  {
    if width > 0 {
      var front := Hex(n / 16, width - 1);
      HexIsRead(n / 16, width - 1);
      HexDigitIsRead(n % 16);
      assert (front + [HexDigit(n % 16)])[..|front|] == front;
    }
  }

  lemma DigitsAreRead(c: char, letter: char, rest: string)
    requires var width := DigitsAfter(letter); width > 0 && c as int < Pow16(width)
    ensures ReadUnit(['\\', letter] + Hex(c as int, DigitsAfter(letter)) + rest) ==
            Some(Unit(c, 2 + DigitsAfter(letter)))
  {
    var digits := Hex(c as int, DigitsAfter(letter));
    var s := ['\\', letter] + digits + rest;
    HexIsRead(c as int, |digits|);
    assert s[2..2 + |digits|] == digits;
  }

  lemma WidthsSuffice()
    ensures Pow16(2) == 0x100 && Pow16(4) == 0x1_0000 && Pow16(8) == 0x1_0000_0000
  {
    assert Pow16(2) == 0x100 && Pow16(4) == 256 * Pow16(2) && Pow16(6) == 256 * Pow16(4);
  }

  lemma EscapeIsRead(c: char, table: char -> bool, rest: string)
    requires IsPrintTable(table)
    ensures var e := Escape(c, table); e[0] != '\"' && ReadUnit(e + rest) == Some(Unit(c, |e|))
  {
    var e, n := Escape(c, table), c as int;
    WidthsSuffice();
    if |e| > 2 {
      var letter := if n < 0x100 && (n < 0x20 || n == 0x7F) then 'x' else if n < 0x1_0000 then 'u' else 'U';
      assert e == ['\\', letter] + Hex(n, DigitsAfter(letter));
      DigitsAreRead(c, letter, rest);
    }
  }

  lemma UnitIsRead(e: string, c: char, rest: string)
    requires e != "" && e[0] != '\"' && ReadUnit(e + rest) == Some(Unit(c, |e|))
    ensures ReadQuoted(e + rest) == Prepend(c, ReadQuoted(rest))
  {
    assert (e + rest)[|e|..] == rest;
  }

  lemma {:induction false} EscapedIsRead(v: string, table: char -> bool)
    requires IsPrintTable(table)
    ensures ReadQuoted(EscapeAll(v, table) + "\"") == Some(v)
  {
    if v == "" {
      assert EscapeAll(v, table) + "\"" == "\"";
    } else {
      var e, rest := Escape(v[0], table), EscapeAll(v[1..], table) + "\"";
      EscapedIsRead(v[1..], table);
      EscapeIsRead(v[0], table, rest);
      UnitIsRead(e, v[0], rest);
      assert EscapeAll(v, table) + "\"" == e + rest;
      assert [v[0]] + v[1..] == v;
    }
  }

  lemma QuoteStartsQuoted(rest: string)
    ensures ReadScalar("\"" + rest) == ReadQuoted(rest)
  {
    assert ("\"" + rest)[1..] == rest;
  }

  lemma QuotedIsRead(v: string, table: char -> bool)
    requires IsPrintTable(table) && NeedsQuotes(v)
    ensures ReadScalar(YamlQuote(v, table)) == Some(v)
  {
    var rest := EscapeAll(v, table) + "\"";
    EscapedIsRead(v, table);
    QuoteStartsQuoted(rest);
    assert YamlQuote(v, table) == "\"" + rest;
  }

  lemma QuotedHasQuote(v: string, table: char -> bool)
    requires NeedsQuotes(v)
    ensures NeedsQuotes(YamlQuote(v, table))
  {
    var quoted := YamlQuote(v, table);
    assert quoted[0] == '\"' && quoted[0] in quoted;
  }

  /** Different values are written differently. */
  lemma QuoteIsInjective(v: string, w: string, table: char -> bool)
    requires IsPrintTable(table) && YamlQuote(v, table) == YamlQuote(w, table)
    ensures v == w
  {
    if NeedsQuotes(v) {
      QuotedHasQuote(v, table);
      QuotedIsRead(v, table);
      QuotedIsRead(w, table);
    } else if NeedsQuotes(w) {
      QuotedHasQuote(w, table);
    }
  }

  // ---- A value without quotes ----

  predicate IsPlainText(v: string) {
    && !IsNull(v) && (forall c | c in v :: IsText(c))
    && !IsBlank(v[0]) && !IsBlank(v[|v| - 1]) && StartsPlain(v)
  }

  lemma {:induction false} PlainIsKept(s: string, afterBlank: bool)
    requires ':' !in s && '#' !in s
    ensures ReadPlain(s, afterBlank) == if forall c | c in s :: IsText(c) then Some(s) else None
  {
    if s != "" {
      PlainIsKept(s[1..], IsBlank(s[0]));
      assert s == [s[0]] + s[1..];
    }
  }

  lemma {:induction false} DropBlanksShrinks(s: string)
    ensures |DropBlanks(s)| <= |s| && (|DropBlanks(s)| == |s| ==> DropBlanks(s) == s)
    ensures DropBlanks(s) == s <==> s == "" || !IsBlank(s[|s| - 1])
  {
    if s != "" && IsBlank(s[|s| - 1]) {
      DropBlanksShrinks(s[..|s| - 1]);
    }
  }

  lemma {:induction false} SkipBlanksShrinks(s: string)
    ensures |SkipBlanks(s)| <= |s| && (|SkipBlanks(s)| == |s| ==> SkipBlanks(s) == s)
    ensures SkipBlanks(s) == s <==> s == "" || !IsBlank(s[0])
    ensures forall c | c in SkipBlanks(s) :: c in s
  {
    if s != "" && IsBlank(s[0]) {
      SkipBlanksShrinks(s[1..]);
    }
  }

  lemma PlainIsReadIff(v: string)
    requires !NeedsQuotes(v)
    ensures ReadScalar(v) == Some(v) <==> IsPlainText(v)
  {
    var text := SkipBlanks(v);
    SkipBlanksShrinks(v);
    assert text != "" ==> text[0] in text && text[0] in v;
    assert ':' !in text && '#' !in text && '\"' !in v;
    PlainIsKept(text, false);
    DropBlanksShrinks(text);
  }

  /**
    A written value is read back exactly when it was quoted or is a plain scalar: printable, without blanks at either
    end, not a word for null, and not starting with an indicator.
   */
  lemma QuoteIsReadBackIff(v: string, table: char -> bool)
    requires IsPrintTable(table)
    ensures ReadScalar(YamlQuote(v, table)) == Some(v) <==> NeedsQuotes(v) || IsPlainText(v)
  {
    if NeedsQuotes(v) {
      QuotedIsRead(v, table);
    } else {
      PlainIsReadIff(v);
    }
  }

  /** The default of the allowed origins, a star, is written without quotes and is no scalar to a reader. */
  lemma StarIsNotReadBack(table: char -> bool)
    ensures YamlQuote("*", table) == "*" && ReadScalar(YamlQuote("*", table)) == None
  {
    assert SkipBlanks("*") == "*";
  }
}
