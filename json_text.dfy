/**
 * JSON.stringify(names, null, 2) for an array of strings: the quoting of one string
 * (QuoteJSONString, section 25.5.2.3 of ECMAScript 2019 and later) and the two-space
 * indented array layout. Unescape is the reading of a JSON string literal's body
 * (section 7 of RFC 8259), used here as the inverse of the quoting.
 */
module JsonText {
  import opened Wrappers
  import opened JsString

  /** A lower-case hexadecimal digit. */
  function HexDigit(d: nat): char
    requires d < 16
  {
    "0123456789abcdef"[d]
  }

  /** The value of a hexadecimal digit of either case. */
  function HexValue(c: char): Option<nat> {
    if '0' <= c <= '9' then Some(c as int - '0' as int)
    else if 'a' <= c <= 'f' then Some(c as int - 'a' as int + 10)
    else if 'A' <= c <= 'F' then Some(c as int - 'A' as int + 10)
    else None
  }

  /** How QuoteJSONString writes one character. */
  function EscapeChar(c: char): string {
    var n := c as int;
    if n == 0x08 then "\\b"
    else if n == 0x09 then "\\t"
    else if n == 0x0A then "\\n"
    else if n == 0x0C then "\\f"
    else if n == 0x0D then "\\r"
    else if c == '"' then "\\\""
    else if c == '\\' then "\\\\"
    else if n < 0x20 then "\\u00" + [HexDigit(n / 16), HexDigit(n % 16)]
    else [c]
  }

  /** The characters of a string, each written as QuoteJSONString writes it. */
  function EscapeAll(s: string): string {
    if |s| == 0 then "" else EscapeChar(s[0]) + EscapeAll(s[1..])
  }

  /** JSON.stringify of a string. */
  function QuoteJson(s: string): string {
    "\"" + EscapeAll(s) + "\""
  }

  /** Prefixes a decoded character to a decoding that may have failed. */
  function Cons(c: char, rest: Option<string>): Option<string> {
    if rest.Some? then Some([c] + rest.value) else None
  }

  /** Decodes the body of a JSON string literal; None if it is not well formed. Escapes of
      surrogate code units are refused: a Dafny string holds no lone surrogate. */
  function Unescape(t: string): Option<string>
    decreases |t|
  {
    if |t| == 0 then Some("")
    else if t[0] == '"' || t[0] as int < 0x20 then None
    else if t[0] != '\\' then Cons(t[0], Unescape(t[1..]))
    else if |t| < 2 then None
    else if t[1] == '"' then Cons('"', Unescape(t[2..]))
    else if t[1] == '\\' then Cons('\\', Unescape(t[2..]))
    else if t[1] == '/' then Cons('/', Unescape(t[2..]))
    else if t[1] == 'b' then Cons(0x08 as char, Unescape(t[2..]))
    else if t[1] == 'f' then Cons(0x0C as char, Unescape(t[2..]))
    else if t[1] == 'n' then Cons(0x0A as char, Unescape(t[2..]))
    else if t[1] == 'r' then Cons(0x0D as char, Unescape(t[2..]))
    else if t[1] == 't' then Cons(0x09 as char, Unescape(t[2..]))
    else if t[1] == 'u' && |t| >= 6 then
      var h0, h1, h2, h3 := HexValue(t[2]), HexValue(t[3]), HexValue(t[4]), HexValue(t[5]);
      if h0.None? || h1.None? || h2.None? || h3.None? then None
      else
        var v := ((h0.value * 16 + h1.value) * 16 + h2.value) * 16 + h3.value;
        if 0xD800 <= v < 0xE000 then None else Cons(v as char, Unescape(t[6..]))
    else None
  }

  /** Reading a written hexadecimal digit gives its value. */
  lemma HexDigitValue(d: nat)
    requires d < 16
    ensures HexValue(HexDigit(d)) == Some(d)
  {
  }

  /** A two-character escape reads back as its character. */
  lemma UnescapeShortEscape(c: char, rest: string)
    requires var n := c as int;
      n == 0x08 || n == 0x09 || n == 0x0A || n == 0x0C || n == 0x0D || c == '"' || c == '\\'
    ensures Unescape(EscapeChar(c) + rest) == Cons(c, Unescape(rest))
  {
    var t := EscapeChar(c) + rest;
    assert |EscapeChar(c)| == 2;
    assert t[2..] == rest;
  }

  /** A \u00xx escape whose last two digits read as hi and lo decodes as the character
      16 * hi + lo. */
  lemma UnescapeControlEscape(t: string, hi: nat, lo: nat)
    requires |t| >= 6 && t[0] == '\\' && t[1] == 'u'
    requires HexValue(t[2]) == Some(0) && HexValue(t[3]) == Some(0)
    requires HexValue(t[4]) == Some(hi) && HexValue(t[5]) == Some(lo)
    requires hi < 2 && lo < 16
    ensures Unescape(t) == Cons((16 * hi + lo) as char, Unescape(t[6..]))
  {
    assert ((0 * 16 + 0) * 16 + hi) * 16 + lo == 16 * hi + lo;
  }

  /** A \u00xx escape of a control character reads back as that character. */
  lemma UnescapeUnicodeEscape(c: char, rest: string)
    requires var n := c as int;
      n < 0x20 && n != 0x08 && n != 0x09 && n != 0x0A && n != 0x0C && n != 0x0D
    ensures Unescape(EscapeChar(c) + rest) == Cons(c, Unescape(rest))
  {
    var n := c as int;
    var hi, lo := n / 16, n % 16;
    var e := "\\u00" + [HexDigit(hi), HexDigit(lo)];
    assert EscapeChar(c) == e;
    var t := e + rest;
    assert t[0] == '\\' && t[1] == 'u' && t[2] == '0' && t[3] == '0';
    assert t[4] == HexDigit(hi) && t[5] == HexDigit(lo);
    assert t[6..] == rest;
    HexDigitValue(hi);
    HexDigitValue(lo);
    UnescapeControlEscape(t, hi, lo);
  }

  /** Decoding one written character gives that character back. */
  lemma UnescapeChar(c: char, rest: string)
    ensures Unescape(EscapeChar(c) + rest) == Cons(c, Unescape(rest))
  {
    var n := c as int;
    if n == 0x08 || n == 0x09 || n == 0x0A || n == 0x0C || n == 0x0D || c == '"' || c == '\\' {
      UnescapeShortEscape(c, rest);
    } else if n < 0x20 {
      UnescapeUnicodeEscape(c, rest);
    } else {
      var t := EscapeChar(c) + rest;
      assert EscapeChar(c) == [c];
      assert t[0] == c && t[1..] == rest;
    }
  }

  /** Quoting is undone by decoding: JSON.stringify loses nothing of a name. */
  lemma {:induction false} UnescapeEscapeAll(s: string)
    ensures Unescape(EscapeAll(s)) == Some(s)
  {
    if |s| > 0 {
      UnescapeChar(s[0], EscapeAll(s[1..]));
      UnescapeEscapeAll(s[1..]);
      assert [s[0]] + s[1..] == s;
    }
  }

  /** Reads a JSON string literal: its quotes, then its decoded body. */
  function ReadString(t: string): Option<string> {
    if |t| >= 2 && t[0] == '"' && t[|t| - 1] == '"' then Unescape(t[1..|t| - 1]) else None
  }

  /** Reading back what JSON.stringify wrote for a string gives that string. */
  lemma ReadQuoteJson(s: string)
    ensures ReadString(QuoteJson(s)) == Some(s)
  {
    var t := QuoteJson(s);
    assert t[1..|t| - 1] == EscapeAll(s);
    UnescapeEscapeAll(s);
  }

  /** A character JSON.stringify writes as itself. */
  predicate Plain(c: char) {
    c != '"' && c != '\\' && c as int >= 0x20
  }

  /** A name made of plain characters is written between quotes unchanged. */
  lemma {:induction false} EscapeAllPlain(s: string)
    requires forall i :: 0 <= i < |s| ==> Plain(s[i])
    ensures EscapeAll(s) == s
  {
    if |s| > 0 {
      EscapeAllPlain(s[1..]);
      assert [s[0]] + s[1..] == s;
    }
  }

  /** One array element on its own line, indented by two spaces. */
  function Item(s: string): string {
    "  " + QuoteJson(s)
  }

  /** The lines of the array's elements. */
  function Items(names: seq<string>): (r: seq<string>)
    ensures |r| == |names|
    ensures forall i :: 0 <= i < |names| ==> r[i] == Item(names[i])
  {
    if |names| == 0 then [] else [Item(names[0])] + Items(names[1..])
  }

  /** JSON.stringify(names, null, 2): "[]" for no names, otherwise one element per line
      between a line "[" and a line "]", lines separated by "\n" and elements by ",". */
  function ArrayJson(names: seq<string>): string {
    if |names| == 0 then "[]" else "[\n" + Join(Items(names), ",\n") + "\n]"
  }

  // ---------------------------------------------------------------------------
  // Reading the array back, line by line, as the page's res.json() does for the
  // layout written above.
  // ---------------------------------------------------------------------------

  /** No character is written as a text holding a line break: "\n" is escaped. */
  lemma NoNewlineInEscape(c: char)
    ensures '\n' !in EscapeChar(c)
  {
    var n := c as int;
    if n < 0x20 && n != 0x08 && n != 0x09 && n != 0x0A && n != 0x0C && n != 0x0D {
      var e := "\\u00" + [HexDigit(n / 16), HexDigit(n % 16)];
      assert HexDigit(n / 16) != '\n' && HexDigit(n % 16) != '\n';
      assert forall i :: 0 <= i < |e| ==> e[i] != '\n';
    }
  }

  /** A quoted string is on one line. */
  lemma {:induction false} NoNewlineInEscapeAll(s: string)
    ensures '\n' !in EscapeAll(s)
  {
    if |s| > 0 {
      NoNewlineInEscape(s[0]);
      NoNewlineInEscapeAll(s[1..]);
    }
  }

  /** The element lines of the array: each element, and a comma after all but the last. */
  function ItemLines(names: seq<string>): (r: seq<string>)
    ensures |r| == |names|
    ensures forall i :: 0 <= i < |names| ==>
              r[i] == Item(names[i]) + (if i < |names| - 1 then "," else "")
  {
    if |names| == 0 then []
    else if |names| == 1 then [Item(names[0])]
    else [Item(names[0]) + ","] + ItemLines(names[1..])
  }

  /** Joining the elements with ",\n" is joining the comma-ended lines with "\n". */
  lemma {:induction false} JoinItemLines(names: seq<string>)
    ensures Join(Items(names), ",\n") == Join(ItemLines(names), "\n")
  {
    if |names| > 1 {
      JoinItemLines(names[1..]);
      assert Items(names)[1..] == Items(names[1..]);
      assert ItemLines(names)[1..] == ItemLines(names[1..]);
      CommaThenBreak(Item(names[0]), Join(ItemLines(names[1..]), "\n"));
    }
  }

  /** The separator ",\n" is a comma ending one line and a break before the next. */
  lemma CommaThenBreak(line: string, rest: string)
    ensures line + ",\n" + rest == (line + ",") + "\n" + rest
  {
  }

  /** An element, with whatever ends its line, is on one line. */
  lemma ItemOnOneLine(s: string, tail: string)
    requires '\n' !in tail
    ensures '\n' !in Item(s) + tail
  {
    NoNewlineInEscapeAll(s);
  }

  /** No element line holds a line break. */
  lemma {:induction false} NoNewlineInItemLines(names: seq<string>)
    ensures forall l :: l in ItemLines(names) ==> '\n' !in l
  {
    if |names| == 1 {
      ItemOnOneLine(names[0], "");
      assert Item(names[0]) + "" == Item(names[0]);
    } else if |names| > 1 {
      ItemOnOneLine(names[0], ",");
      NoNewlineInItemLines(names[1..]);
    }
  }

  /** Joining the opening line with further lines. */
  lemma JoinAfterOpen(lines: seq<string>)
    requires |lines| > 0
    ensures Join(["["] + lines, "\n") == "[" + "\n" + Join(lines, "\n")
  {
    assert (["["] + lines)[1..] == lines;
  }

  /** The brackets of the array's text, each on its own line. */
  lemma BracketLines(body: string)
    ensures "[\n" + body + "\n]" == "[" + "\n" + body + "\n" + "]"
  {
  }

  /** A non-empty array's text is its lines joined by line breaks. */
  lemma ArrayJsonIsJoin(names: seq<string>)
    requires |names| > 0
    ensures ArrayJson(names) == Join(["["] + ItemLines(names) + ["]"], "\n")
  {
    var lines := ItemLines(names);
    JoinItemLines(names);
    JoinAppend(["["] + lines, "]", "\n");
    JoinAfterOpen(lines);
    BracketLines(Join(lines, "\n"));
  }

  /** The lines of a non-empty array's text: "[", one line per element, "]". */
  lemma ArrayJsonLines(names: seq<string>)
    requires |names| > 0
    ensures Split(ArrayJson(names), '\n') == ["["] + ItemLines(names) + ["]"]
  {
    var all := ["["] + ItemLines(names) + ["]"];
    ArrayJsonIsJoin(names);
    NoNewlineInItemLines(names);
    BracketedOneLine(ItemLines(names));
    SplitJoin(all, '\n');
  }

  /** The bracket lines hold no line break either. */
  lemma BracketedOneLine(lines: seq<string>)
    requires forall l :: l in lines ==> '\n' !in l
    ensures forall l :: l in ["["] + lines + ["]"] ==> '\n' !in l
  {
    forall l | l in ["["] + lines + ["]"] ensures '\n' !in l {
      if l !in lines {
        assert l == "[" || l == "]";
      }
    }
  }

  /** Reads one element line without its comma: two spaces of indentation, then a string. */
  function ReadItem(line: string): Option<string> {
    if |line| >= 2 && line[..2] == "  " then ReadString(line[2..]) else None
  }

  /** Reads the element lines: every line but the last ends with a comma. */
  function ReadItems(lines: seq<string>): (r: Option<seq<string>>)
    ensures r.Some? ==> |r.value| == |lines|
  {
    if |lines| == 0 then Some([])
    else if |lines| == 1 then
      (var x := ReadItem(lines[0]); if x.Some? then Some([x.value]) else None)
    else
      var l := lines[0];
      if |l| > 0 && l[|l| - 1] == ',' then
        var x := ReadItem(l[..|l| - 1]);
        var rest := ReadItems(lines[1..]);
        if x.Some? && rest.Some? then Some([x.value] + rest.value) else None
      else None
  }

  /** Reads an array of strings in the layout JSON.stringify(names, null, 2) writes. */
  function ReadArray(text: string): Option<seq<string>> {
    if text == "[]" then Some([])
    else
      var lines := Split(text, '\n');
      if |lines| >= 3 && lines[0] == "[" && lines[|lines| - 1] == "]"
      then ReadItems(lines[1..|lines| - 1])
      else None
  }

  /** Each element line reads back as its element. */
  lemma ReadItemOfItem(s: string)
    ensures ReadItem(Item(s)) == Some(s)
  {
    var line := Item(s);
    assert line[..2] == "  " && line[2..] == QuoteJson(s);
    ReadQuoteJson(s);
  }

  /** The element lines read back as the elements. */
  lemma {:induction false} ReadItemLines(names: seq<string>)
    ensures ReadItems(ItemLines(names)) == Some(names)
  {
    if |names| == 1 {
      ReadItemOfItem(names[0]);
      assert [names[0]] == names;
    } else if |names| > 1 {
      var l := Item(names[0]) + ",";
      assert ItemLines(names)[0] == l && ItemLines(names)[1..] == ItemLines(names[1..]);
      assert l[..|l| - 1] == Item(names[0]);
      ReadItemOfItem(names[0]);
      ReadItemLines(names[1..]);
      assert [names[0]] + names[1..] == names;
    }
  }

  /** Reading the text JSON.stringify(names, null, 2) wrote gives back the names, in order. */
  lemma ReadArrayJson(names: seq<string>)
    ensures ReadArray(ArrayJson(names)) == Some(names)
  {
    if |names| > 0 {
      var text := ArrayJson(names);
      assert text[1] == '\n';
      ArrayJsonLines(names);
      var lines := ["["] + ItemLines(names) + ["]"];
      assert lines[1..|lines| - 1] == ItemLines(names);
      ReadItemLines(names);
    }
  }
}
