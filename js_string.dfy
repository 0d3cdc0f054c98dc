/**
 * The pieces of JavaScript's string semantics that the site relies on, stated on
 * Dafny strings (sequences of Unicode scalar values): case folding as a
 * case-insensitive regular expression applies it to a pattern made of ASCII letters,
 * Array.prototype.join, and the code-unit order used by Array.prototype.sort when it is
 * given no comparator. Split, a splitting at a one-character separator, is a reference
 * of this model rather than something the site calls: it reads back the line structure of
 * the written manifest and the column structure of a registration row.
 */
module JsString {

  /** Case folding of a regular expression with the `i` flag and without the `u` flag, as far
      as a pattern of ASCII letters can observe it. That flag upper-cases every character
      (Canonicalize, section 22.2.2.7.3 of ECMAScript 2022), but never equates a character at
      or above 128 with one below 128, so the only characters that compare equal to an ASCII
      letter are its two cases; folding 'A'..'Z' down and leaving the rest is the same
      equivalence on that pattern. */
  function LowerAscii(c: char): char {
    if 'A' <= c <= 'Z' then (c as int + 32) as char else c
  }

  /** LowerAscii applied to every character. */
  function LowerAll(s: string): (r: string)
    ensures |r| == |s|
    ensures forall i :: 0 <= i < |s| ==> r[i] == LowerAscii(s[i])
  {
    if |s| == 0 then [] else [LowerAscii(s[0])] + LowerAll(s[1..])
  }

  /** Array.prototype.join on an array of strings. */
  function Join(parts: seq<string>, sep: string): string {
    if |parts| == 0 then ""
    else if |parts| == 1 then parts[0]
    else parts[0] + sep + Join(parts[1..], sep)
  }

  /** String.prototype.split with a one-character separator: it always yields at least one piece. */
  function Split(s: string, d: char): (r: seq<string>)
    ensures |r| >= 1
  {
    if |s| == 0 then [""]
    else
      var rest := Split(s[1..], d);
      if s[0] == d then [""] + rest else [[s[0]] + rest[0]] + rest[1..]
  }

  /** Joining one more part appends the separator and that part. */
  lemma {:induction false} JoinAppend(parts: seq<string>, last: string, sep: string)
    requires |parts| > 0
    ensures Join(parts + [last], sep) == Join(parts, sep) + sep + last
  {
    if |parts| > 1 {
      assert (parts + [last])[1..] == parts[1..] + [last];
      JoinAppend(parts[1..], last, sep);
    }
  }

  /** A text without the separator is one piece. */
  lemma {:induction false} SplitWithoutSeparator(s: string, d: char)
    requires d !in s
    ensures Split(s, d) == [s]
  {
    if |s| > 0 {
      SplitWithoutSeparator(s[1..], d);
      assert [s[0]] + s[1..] == s;
    }
  }

  /** Splitting stops at the first separator. */
  lemma {:induction false} SplitAtFirst(a: string, d: char, b: string)
    requires d !in a
    ensures Split(a + [d] + b, d) == [a] + Split(b, d)
  {
    var s := a + [d] + b;
    if |a| == 0 {
      assert s[1..] == b;
    } else {
      assert s[1..] == a[1..] + [d] + b;
      SplitAtFirst(a[1..], d, b);
      assert [a[0]] + a[1..] == a;
    }
  }

  /** Splitting at the separator undoes a join whose parts do not contain it. */
  lemma {:induction false} SplitJoin(parts: seq<string>, d: char)
    requires |parts| > 0
    requires forall p :: p in parts ==> d !in p
    ensures Split(Join(parts, [d]), d) == parts
  {
    if |parts| == 1 {
      SplitWithoutSeparator(parts[0], d);
    } else {
      assert parts[0] in parts;
      assert forall p :: p in parts[1..] ==> p in parts;
      SplitAtFirst(parts[0], d, Join(parts[1..], [d]));
      SplitJoin(parts[1..], d);
      assert [parts[0]] + parts[1..] == parts;
    }
  }

  // ---------------------------------------------------------------------------
  // The order of Array.prototype.sort without a comparator: strings compared as
  // sequences of UTF-16 code units, a proper prefix before its extensions.
  // ---------------------------------------------------------------------------

  /** The UTF-16 encoding of one character: one code unit, or a surrogate pair. */
  function CodeUnits(c: char): seq<int> {
    var n := c as int;
    if n < 0x1_0000 then [n]
    else [0xD800 + (n - 0x1_0000) / 0x400, 0xDC00 + (n - 0x1_0000) % 0x400]
  }

  /** The UTF-16 encoding of a string. */
  function Utf16(s: string): seq<int> {
    if |s| == 0 then [] else CodeUnits(s[0]) + Utf16(s[1..])
  }

  /** Lexicographic order on code-unit sequences, a proper prefix first. */
  predicate UnitsNotAfter(x: seq<int>, y: seq<int>) {
    |x| == 0 || (|y| > 0 && (x[0] < y[0] || (x[0] == y[0] && UnitsNotAfter(x[1..], y[1..]))))
  }

  /** A number per character whose order is the order of the characters' UTF-16 encodings:
      characters below the surrogate block keep their value, characters above the Basic
      Multilingual Plane come next (their first code unit is a surrogate), and the rest of the
      plane comes last. */
  function CodeUnitKey(c: char): int {
    var n := c as int;
    if n < 0xD800 then n else if n < 0x1_0000 then n + 0x10_0000 else n - 0x2800
  }

  /** a sorts no later than b under Array.prototype.sort with no comparator. */
  predicate NotAfter(a: string, b: string) {
    |a| == 0 ||
    (|b| > 0 && (CodeUnitKey(a[0]) < CodeUnitKey(b[0]) || (a[0] == b[0] && NotAfter(a[1..], b[1..]))))
  }

  lemma KeyInjective(a: char, b: char)
    ensures CodeUnitKey(a) == CodeUnitKey(b) ==> a == b
  {
  }

  /** A common first code unit does not change the comparison. */
  lemma {:induction false} UnitsCommonPrefix(p: seq<int>, x: seq<int>, y: seq<int>)
    ensures UnitsNotAfter(p + x, p + y) == UnitsNotAfter(x, y)
  {
    if |p| > 0 {
      assert (p + x)[1..] == p[1..] + x;
      assert (p + y)[1..] == p[1..] + y;
      UnitsCommonPrefix(p[1..], x, y);
    } else {
      assert p + x == x && p + y == y;
    }
  }

  /** When two characters differ, their encodings decide the comparison before either ends. */
  lemma FirstCharDecides(a: char, b: char, x: seq<int>, y: seq<int>)
    requires a != b
    ensures UnitsNotAfter(CodeUnits(a) + x, CodeUnits(b) + y) == (CodeUnitKey(a) < CodeUnitKey(b))
  {
    var na, nb := a as int, b as int;
    var ua, ub := CodeUnits(a) + x, CodeUnits(b) + y;
    assert na != nb;
    if na < 0x1_0000 && nb < 0x1_0000 {
      assert ua[0] == na && ub[0] == nb;
    } else if na < 0x1_0000 {
      assert ua[0] == na && ub[0] == 0xD800 + (nb - 0x1_0000) / 0x400;
    } else if nb < 0x1_0000 {
      assert ua[0] == 0xD800 + (na - 0x1_0000) / 0x400 && ub[0] == nb;
    } else {
      var qa, ra := (na - 0x1_0000) / 0x400, (na - 0x1_0000) % 0x400;
      var qb, rb := (nb - 0x1_0000) / 0x400, (nb - 0x1_0000) % 0x400;
      assert na == 0x1_0000 + 0x400 * qa + ra;
      assert nb == 0x1_0000 + 0x400 * qb + rb;
      assert ua[0] == 0xD800 + qa && ub[0] == 0xD800 + qb;
      if qa == qb {
        assert ua[1..][0] == 0xDC00 + ra && ub[1..][0] == 0xDC00 + rb;
        assert ra != rb;
      } else {
        assert qa < qb <==> na < nb;
      }
    }
  }

  /** NotAfter is exactly the code-unit order of the strings' UTF-16 encodings. */
  lemma {:induction false} NotAfterIsCodeUnitOrder(a: string, b: string)
    ensures NotAfter(a, b) == UnitsNotAfter(Utf16(a), Utf16(b))
  {
    if |a| > 0 && |b| > 0 {
      if a[0] == b[0] {
        UnitsCommonPrefix(CodeUnits(a[0]), Utf16(a[1..]), Utf16(b[1..]));
        NotAfterIsCodeUnitOrder(a[1..], b[1..]);
      } else {
        FirstCharDecides(a[0], b[0], Utf16(a[1..]), Utf16(b[1..]));
      }
    }
  }

  lemma {:induction false} NotAfterReflexive(a: string)
    ensures NotAfter(a, a)
  {
    if |a| > 0 {
      NotAfterReflexive(a[1..]);
    }
  }

  lemma {:induction false} NotAfterTotal(a: string, b: string)
    ensures NotAfter(a, b) || NotAfter(b, a)
  {
    if |a| > 0 && |b| > 0 {
      KeyInjective(a[0], b[0]);
      if a[0] == b[0] {
        NotAfterTotal(a[1..], b[1..]);
      }
    }
  }

  lemma {:induction false} NotAfterAntisymmetric(a: string, b: string)
    requires NotAfter(a, b) && NotAfter(b, a)
    ensures a == b
  {
    if |a| > 0 {
      NotAfterAntisymmetric(a[1..], b[1..]);
      assert a == [a[0]] + a[1..] && b == [b[0]] + b[1..];
    }
  }

  lemma {:induction false} NotAfterTransitive(a: string, b: string, c: string)
    requires NotAfter(a, b) && NotAfter(b, c)
    ensures NotAfter(a, c)
  {
    if |a| > 0 && a[0] == b[0] && b[0] == c[0] {
      NotAfterTransitive(a[1..], b[1..], c[1..]);
    }
  }
}
