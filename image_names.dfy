/**
 * The image-name test shared by the manifest generator and the page: the regular
 * expression /\.(png|jpe?g|svg)$/i applied with RegExp.prototype.test.
 *
 * Test follows the regular-expression engine: it tries every start position from the
 * left, and at each one matches a '.', then the alternatives in order (with the optional
 * 'e' of "jpe?g"), then the end of input. HasImageExtension is the plain description of
 * the names it accepts, and TestIsImageExtension proves the two agree.
 */
module ImageNames {
  import opened JsString

  /** A character matches a lower-case pattern letter under the `i` flag. */
  predicate Letter(c: char, p: char) {
    LowerAscii(c) == p
  }

  /** (png|jpe?g|svg)$ matches exactly the text t. */
  predicate AlternativesMatch(t: string) {
    (|t| == 3 && Letter(t[0], 'p') && Letter(t[1], 'n') && Letter(t[2], 'g'))
    || (|t| >= 3 && Letter(t[0], 'j') && Letter(t[1], 'p')
        && ((|t| == 4 && Letter(t[2], 'e') && Letter(t[3], 'g')) || (|t| == 3 && Letter(t[2], 'g'))))
    || (|t| == 3 && Letter(t[0], 's') && Letter(t[1], 'v') && Letter(t[2], 'g'))
  }

  /** The whole pattern matches starting at position k. */
  predicate MatchAt(s: string, k: nat)
    requires k <= |s|
  {
    k < |s| && s[k] == '.' && AlternativesMatch(s[k + 1..])
  }

  /** The engine's scan: some start position at or after k gives a match. */
  predicate Search(s: string, k: nat)
    requires k <= |s|
    decreases |s| - k
  {
    k < |s| && (MatchAt(s, k) || Search(s, k + 1))
  }

  /** RegExp.prototype.test for /\.(png|jpe?g|svg)$/i. */
  predicate Test(s: string) {
    Search(s, 0)
  }

  /** The suffixes an image name may end with, in lower case. */
  const ImageExtensions: set<string> := {".png", ".jpg", ".jpeg", ".svg"}

  /** s ends with e, ignoring the case of ASCII letters. */
  predicate EndsWithFolded(s: string, e: string) {
    |e| <= |s| && LowerAll(s[|s| - |e|..]) == e
  }

  /** The names the regular expression is meant to accept: a '.' and then png, jpg, jpeg or
      svg at the very end, in any mix of upper and lower case. */
  predicate HasImageExtension(s: string) {
    exists e :: e in ImageExtensions && EndsWithFolded(s, e)
  }

  lemma {:induction false} SearchFindsMatch(s: string, k: nat)
    requires k <= |s| && Search(s, k)
    ensures exists j :: k <= j < |s| && MatchAt(s, j)
    decreases |s| - k
  {
    if !MatchAt(s, k) {
      SearchFindsMatch(s, k + 1);
    }
  }

  lemma {:induction false} SearchReachesMatch(s: string, k: nat, j: nat)
    requires k <= j < |s| && MatchAt(s, j)
    ensures Search(s, k)
    decreases j - k
  {
    if k < j {
      SearchReachesMatch(s, k + 1, j);
    }
  }

  /** LowerAscii leaves '.' alone, and nothing else folds onto it. */
  lemma DotFolds(c: char)
    ensures LowerAscii(c) == '.' <==> c == '.'
  {
  }

  /** A match at j means the name ends, from j on, with one of the image extensions. */
  lemma MatchGivesExtension(s: string, j: nat)
    requires j < |s| && MatchAt(s, j)
    ensures HasImageExtension(s)
  {
    var t := s[j..];
    var f := LowerAll(t);
    DotFolds(s[j]);
    assert t[1..] == s[j + 1..];
    var e := if |t| == 5 then ".jpeg"
             else if Letter(t[1], 'p') then ".png"
             else if Letter(t[1], 'j') then ".jpg"
             else ".svg";
    assert f == e;
    assert e in ImageExtensions && EndsWithFolded(s, e);
  }

  /** An image extension at the end gives a match where it starts. */
  lemma ExtensionGivesMatch(s: string, e: string)
    requires e in ImageExtensions && EndsWithFolded(s, e)
    ensures MatchAt(s, |s| - |e|)
  {
    var j := |s| - |e|;
    var f := LowerAll(s[j..]);
    assert f[0] == LowerAscii(s[j]);
    DotFolds(s[j]);
    var t := s[j + 1..];
    assert |t| == |e| - 1;
    assert forall i :: 0 <= i < |t| ==> t[i] == s[j..][i + 1];
    if e == ".jpeg" {
      assert Letter(t[0], 'j') && Letter(t[1], 'p') && Letter(t[2], 'e') && Letter(t[3], 'g');
    } else if e == ".png" {
      assert Letter(t[0], 'p') && Letter(t[1], 'n') && Letter(t[2], 'g');
    } else if e == ".jpg" {
      assert Letter(t[0], 'j') && Letter(t[1], 'p') && Letter(t[2], 'g');
    } else {
      assert Letter(t[0], 's') && Letter(t[1], 'v') && Letter(t[2], 'g');
    }
  }

  /** The regular-expression test accepts exactly the names with an image extension. */
  lemma TestIsImageExtension(s: string)
    ensures Test(s) <==> HasImageExtension(s)
  {
    if Test(s) {
      SearchFindsMatch(s, 0);
      var j :| 0 <= j < |s| && MatchAt(s, j);
      MatchGivesExtension(s, j);
    }
    if HasImageExtension(s) {
      var e :| e in ImageExtensions && EndsWithFolded(s, e);
      ExtensionGivesMatch(s, e);
      SearchReachesMatch(s, 0, |s| - |e|);
    }
  }

  /** Every image extension ends in a 'g', so a name whose last letter does not fold to 'g'
      never passes the test. */
  lemma NotImageWithoutFinalG(s: string)
    requires |s| == 0 || LowerAscii(s[|s| - 1]) != 'g'
    ensures !Test(s)
  {
    TestIsImageExtension(s);
    forall e | e in ImageExtensions ensures !EndsWithFolded(s, e) {
      assert e[|e| - 1] == 'g';
      if |e| <= |s| {
        var f := LowerAll(s[|s| - |e|..]);
        assert f[|e| - 1] == LowerAscii(s[|s| - 1]);
      }
    }
  }

  /** The generator's output file is not an image name, so it never lists itself. */
  lemma ManifestNameIsNotImage()
    ensures !Test("ads.json")
  {
    var s := "ads.json";
    assert s[|s| - 1] == 'n';
    NotImageWithoutFinalG(s);
  }
}
