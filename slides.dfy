/**
 * The page's slide derivation (loadAds): the fetched manifest, filtered by the image
 * test, becomes one slide descriptor per kept name; when the fetch or the parse fails,
 * or building a descriptor throws, a fixed list of three files is used instead.
 */
module Slides {
  import opened Wrappers
  import opened Directory
  import ImageNames

  /** A slide descriptor: image source, alt text, link target, caption and fit mode. */
  datatype Slide = Slide(src: string, alt: string, href: string, caption: string, contain: bool)

  // ---------------------------------------------------------------------------
  // name.replace(/\.[^.]+$/, ''): the first match of the pattern is deleted.
  // ---------------------------------------------------------------------------

  /** How many characters from position j on are not '.'; [^.]+ consumes them greedily. */
  function NonDotRun(s: string, j: nat): (n: nat)
    requires j <= |s|
    ensures j + n <= |s|
    ensures forall i :: j <= i < j + n ==> s[i] != '.'
    ensures j + n < |s| ==> s[j + n] == '.'
    decreases |s| - j
  {
    if j == |s| || s[j] == '.' then 0 else 1 + NonDotRun(s, j + 1)
  }

  /** The pattern matches from position k: a '.', then at least one other character, then the
      end of the input (backtracking a shorter run cannot reach the end either). */
  predicate ExtensionAt(s: string, k: nat)
    requires k <= |s|
  {
    k < |s| && s[k] == '.' && 0 < NonDotRun(s, k + 1) && k + 1 + NonDotRun(s, k + 1) == |s|
  }

  /** The leftmost position at or after k where the pattern matches. */
  function FirstExtension(s: string, k: nat): (r: Option<nat>)
    requires k <= |s|
    ensures r.Some? ==> k <= r.value < |s| && ExtensionAt(s, r.value)
    ensures r.None? ==> forall j :: k <= j < |s| ==> !ExtensionAt(s, j)
    decreases |s| - k
  {
    if k == |s| then None
    else if ExtensionAt(s, k) then Some(k)
    else FirstExtension(s, k + 1)
  }

  /** img.replace(/\.[^.]+$/, '') */
  function StripExtension(s: string): string {
    match FirstExtension(s, 0)
    case None => s
    case Some(k) => s[..k]
  }

  /** A final '.' followed by a non-empty dot-free suffix is what is removed, whatever dots come
      before it. */
  lemma StripRemovesFinalExtension(stem: string, ext: string)
    requires |ext| > 0 && '.' !in ext
    ensures StripExtension(stem + "." + ext) == stem
  {
    var s := stem + "." + ext;
    var k := |stem|;
    assert s[k] == '.';
    assert forall i :: k < i < |s| ==> s[i] == ext[i - k - 1];
    assert NonDotRun(s, k + 1) == |ext|;
    forall j | 0 <= j < k ensures !ExtensionAt(s, j) {
      if j < |s| && s[j] == '.' {
        assert j + 1 + NonDotRun(s, j + 1) <= k;
      }
    }
    forall j | k < j < |s| ensures !ExtensionAt(s, j) {
      assert s[j] == ext[j - k - 1];
    }
    assert ExtensionAt(s, k);
    assert FirstExtension(s, 0) == Some(k);
    assert s[..k] == stem;
  }

  /** A name without a dot, or ending in a dot, is left as it is. */
  lemma StripKeepsUnmatched(s: string)
    requires '.' !in s || (|s| > 0 && s[|s| - 1] == '.')
    ensures StripExtension(s) == s
  {
    forall j | 0 <= j < |s| ensures !ExtensionAt(s, j) {
      if s[j] == '.' && 0 < NonDotRun(s, j + 1) {
        assert s[|s| - 1] == '.';
        assert j + 1 + NonDotRun(s, j + 1) < |s|;
      }
    }
  }

  /** The alt text is always a prefix of the name. */
  lemma StripIsPrefix(s: string)
    ensures StripExtension(s) <= s
  {
  }

  // ---------------------------------------------------------------------------
  // .replace(/[-_]/g, ' ')
  // ---------------------------------------------------------------------------

  /** Replaces every '-' and '_' by a space. */
  function ReplaceSeparators(s: string): (r: string)
    ensures |r| == |s|
    ensures forall i :: 0 <= i < |s| ==> r[i] == (if s[i] == '-' || s[i] == '_' then ' ' else s[i])
  {
    if |s| == 0 then ""
    else [if s[0] == '-' || s[0] == '_' then ' ' else s[0]] + ReplaceSeparators(s[1..])
  }

  /** A text without separators is its own caption. */
  lemma ReplaceWithoutSeparators(s: string)
    requires '-' !in s && '_' !in s
    ensures ReplaceSeparators(s) == s
  {
  }

  /** A caption contains no separator, and replacing again changes nothing. */
  lemma CaptionHasNoSeparator(s: string)
    ensures '-' !in ReplaceSeparators(s) && '_' !in ReplaceSeparators(s)
    ensures ReplaceSeparators(ReplaceSeparators(s)) == ReplaceSeparators(s)
  {
  }

  // ---------------------------------------------------------------------------
  // Slide descriptors
  // ---------------------------------------------------------------------------

  /** The descriptor the page builds for one image name. */
  function MakeSlide(basePath: string, img: string): (r: Slide)
    ensures r.src == basePath + "/ads/" + img && r.href == "#" && r.contain
    ensures r.alt <= img && |r.caption| == |r.alt|
    ensures forall i :: 0 <= i < |r.alt| ==>
              r.caption[i] == (if r.alt[i] == '-' || r.alt[i] == '_' then ' ' else r.alt[i])
  {
    var alt := StripExtension(img);
    Slide(basePath + "/ads/" + img, alt, "#", ReplaceSeparators(alt), true)
  }

  /** The descriptors of a list of names, in order. */
  function MakeSlides(basePath: string, names: seq<string>): (r: seq<Slide>)
    ensures |r| == |names|
    ensures forall i :: 0 <= i < |names| ==> r[i] == MakeSlide(basePath, names[i])
  {
    if |names| == 0 then [] else [MakeSlide(basePath, names[0])] + MakeSlides(basePath, names[1..])
  }

  /** The files shown when the manifest cannot be loaded. */
  const FallbackFiles: seq<string> := ["1_yoga.png", "AdvancedK8s.png", "AdvancedGitOPs.png"]

  /** One element of the parsed manifest array: a string; any other JSON value together with
      what String() makes of it, which is what RegExp.prototype.test looks at; or a value whose
      conversion to a string throws (an object whose toString and valueOf give no primitive,
      or an array holding one). */
  datatype Element = Str(s: string) | NonStr(asText: string) | Unprintable

  /** The conversion to a string succeeds for every element. */
  predicate AllPrintable(items: seq<Element>) {
    forall e :: e in items ==> !e.Unprintable?
  }

  /** The text the image test is applied to. */
  function TestedText(e: Element): string
    requires !e.Unprintable?
  {
    match e
    case Str(s) => s
    case NonStr(t) => t
  }

  /** What res.json() produced: an array, or some other JSON value. */
  datatype Parsed = ArrayValue(items: seq<Element>) | NotArray

  /** The outcome of fetching and parsing ads.json: a parsed value, or a thrown error (a failed
      request, a status other than ok, or a body that does not parse). */
  datatype Fetched = FetchFailed | FetchedValue(value: Parsed)

  /** files.filter((f) => /\.(png|jpe?g|svg)$/i.test(f)) */
  function KeepImages(items: seq<Element>): (r: seq<Element>)
    requires AllPrintable(items)
    ensures |r| <= |items|
    ensures forall e :: e in r <==> e in items && ImageNames.Test(TestedText(e))
  {
    if |items| == 0 then []
    else
      assert forall e :: e in items <==> e == items[0] || e in items[1..];
      var rest := KeepImages(items[1..]);
      if ImageNames.Test(TestedText(items[0])) then [items[0]] + rest else rest
  }

  /** Every element is a string. */
  predicate AllStrings(items: seq<Element>) {
    forall e :: e in items ==> e.Str?
  }

  /** The strings of an all-string list of elements. */
  function Texts(items: seq<Element>): (r: seq<string>)
    requires AllStrings(items)
    ensures |r| == |items|
    ensures forall i :: 0 <= i < |items| ==> r[i] == items[i].s
  {
    if |items| == 0 then []
    else
      assert forall e :: e in items[1..] ==> e in items;
      [items[0].s] + Texts(items[1..])
  }

  /** The elements of a list of strings. */
  function Strs(names: seq<string>): (r: seq<Element>)
    ensures |r| == |names| && AllStrings(r)
    ensures forall i :: 0 <= i < |names| ==> r[i] == Str(names[i])
  {
    if |names| == 0 then [] else [Str(names[0])] + Strs(names[1..])
  }

  /** loadAds: the slides the page sets. The filter's test throws on an element it cannot
      convert to a string; building a descriptor calls img.replace, which only a string has, so
      a kept element that is not a string throws too; either way the catch block then uses the
      fallback list. */
  function LoadAds(basePath: string, fetched: Fetched): seq<Slide> {
    match fetched
    case FetchFailed => MakeSlides(basePath, FallbackFiles)
    case FetchedValue(NotArray) => []
    case FetchedValue(ArrayValue(items)) =>
      if !AllPrintable(items) then MakeSlides(basePath, FallbackFiles)
      else
        var kept := KeepImages(items);
        if AllStrings(kept) then MakeSlides(basePath, Texts(kept)) else MakeSlides(basePath, FallbackFiles)
  }

  /** The image filter on elements that are strings is the image filter on their names. */
  lemma {:induction false} KeepImagesOfStrings(names: seq<string>)
    ensures KeepImages(Strs(names)) == Strs(FilterImages(names))
  {
    if |names| > 0 {
      assert Strs(names)[1..] == Strs(names[1..]);
      KeepImagesOfStrings(names[1..]);
    }
  }

  /** Texts undoes Strs. */
  lemma {:induction false} TextsOfStrs(names: seq<string>)
    ensures Texts(Strs(names)) == names
  {
    if |names| > 0 {
      assert Strs(names)[1..] == Strs(names[1..]);
      TextsOfStrs(names[1..]);
    }
  }

  /** For a manifest array of strings: one slide per name that passes the image test, in the
      manifest's order, built from that name; the other names are dropped. */
  lemma SlidesFromManifest(basePath: string, names: seq<string>)
    ensures LoadAds(basePath, FetchedValue(ArrayValue(Strs(names))))
         == MakeSlides(basePath, FilterImages(names))
  {
    KeepImagesOfStrings(names);
    TextsOfStrs(FilterImages(names));
  }

  /** The strings among the elements, in order. */
  function StringTexts(items: seq<Element>): (r: seq<string>)
    ensures |r| <= |items|
    ensures forall n :: n in r <==> Str(n) in items
  {
    if |items| == 0 then []
    else
      assert forall e :: e in items <==> e == items[0] || e in items[1..];
      (if items[0].Str? then [items[0].s] else []) + StringTexts(items[1..])
  }

  /** On a list of strings, StringTexts undoes Strs. */
  lemma {:induction false} StringTextsOfStrs(names: seq<string>)
    ensures StringTexts(Strs(names)) == names
  {
    if |names| > 0 {
      assert Strs(names)[1..] == Strs(names[1..]);
      StringTextsOfStrs(names[1..]);
    }
  }

  /** The element filter keeps each element as often as it occurs when it passes the image
      test, and drops it otherwise. */
  lemma {:induction false} KeepImagesCount(items: seq<Element>, e: Element)
    requires AllPrintable(items) && !e.Unprintable?
    ensures multiset(KeepImages(items))[e]
         == if ImageNames.Test(TestedText(e)) then multiset(items)[e] else 0
  {
    if |items| > 0 {
      assert items == [items[0]] + items[1..];
      assert forall x :: x in items[1..] ==> x in items;
      KeepImagesCount(items[1..], e);
    }
  }

  /** When no non-string element passes the image test, the element filter keeps exactly
      the image strings, in the array's order. */
  lemma {:induction false} KeepImagesOfMixed(items: seq<Element>)
    requires AllPrintable(items)
    requires forall t :: NonStr(t) in items ==> !ImageNames.Test(t)
    ensures KeepImages(items) == Strs(FilterImages(StringTexts(items)))
  {
    if |items| > 0 {
      assert forall x :: x in items[1..] ==> x in items;
      KeepImagesOfMixed(items[1..]);
      var rest := StringTexts(items[1..]);
      if items[0].Str? {
        var n := items[0].s;
        assert StringTexts(items) == [n] + rest;
        assert ([n] + rest)[1..] == rest;
        if ImageNames.Test(n) {
          assert FilterImages([n] + rest) == [n] + FilterImages(rest);
          assert Strs([n] + FilterImages(rest))[1..] == Strs(FilterImages(rest));
        }
      } else {
        assert StringTexts(items) == rest;
      }
    }
  }

  /** A manifest array that mixes strings with other values none of which passes the image
      test: one slide per image string, in the array's order; the other elements are
      dropped and the fallback is not used. */
  lemma MixedManifestSlides(basePath: string, items: seq<Element>)
    requires AllPrintable(items)
    requires forall t :: NonStr(t) in items ==> !ImageNames.Test(t)
    ensures LoadAds(basePath, FetchedValue(ArrayValue(items)))
         == MakeSlides(basePath, FilterImages(StringTexts(items)))
  {
    KeepImagesOfMixed(items);
    TextsOfStrs(FilterImages(StringTexts(items)));
  }

  /** A valid response that is not an array gives no slides, and the fallback is not used. */
  lemma NotArrayGivesNoSlides(basePath: string)
    ensures LoadAds(basePath, FetchedValue(NotArray)) == []
  {
  }

  /** An empty but valid array gives no slides either. */
  lemma EmptyManifestGivesNoSlides(basePath: string)
    ensures LoadAds(basePath, FetchedValue(ArrayValue([]))) == []
  {
  }

  /** The descriptor of a name with an extension: the stem as alt text, and as caption with its
      separators replaced. */
  lemma SlideOfImage(basePath: string, stem: string, ext: string)
    requires |ext| > 0 && '.' !in ext
    ensures MakeSlide(basePath, stem + "." + ext)
         == Slide(basePath + "/ads/" + (stem + "." + ext), stem, "#", ReplaceSeparators(stem), true)
  {
    StripRemovesFinalExtension(stem, ext);
  }

  /** The descriptor of a .png file, given the caption of its stem. */
  lemma PngSlide(basePath: string, stem: string, caption: string)
    requires ReplaceSeparators(stem) == caption
    ensures MakeSlide(basePath, stem + ".png")
         == Slide(basePath + "/ads/" + (stem + ".png"), stem, "#", caption, true)
  {
    assert stem + "." + "png" == stem + ".png";
    SlideOfImage(basePath, stem, "png");
  }

  /** The first fallback slide. */
  lemma FallbackYoga(basePath: string)
    ensures MakeSlide(basePath, "1_yoga.png")
         == Slide(basePath + "/ads/" + "1_yoga.png", "1_yoga", "#", "1 yoga", true)
  {
    var stem := "1_yoga";
    assert stem + ".png" == "1_yoga.png";
    var caption := ReplaceSeparators(stem);
    assert caption == "1 yoga";
    PngSlide(basePath, stem, caption);
  }

  /** The second fallback slide. */
  lemma FallbackK8s(basePath: string)
    ensures MakeSlide(basePath, "AdvancedK8s.png")
         == Slide(basePath + "/ads/" + "AdvancedK8s.png", "AdvancedK8s", "#", "AdvancedK8s", true)
  {
    var stem := "AdvancedK8s";
    assert stem + ".png" == "AdvancedK8s.png";
    ReplaceWithoutSeparators(stem);
    PngSlide(basePath, stem, stem);
  }

  /** The third fallback slide. */
  lemma FallbackGitOps(basePath: string)
    ensures MakeSlide(basePath, "AdvancedGitOPs.png")
         == Slide(basePath + "/ads/" + "AdvancedGitOPs.png", "AdvancedGitOPs", "#", "AdvancedGitOPs", true)
  {
    var stem := "AdvancedGitOPs";
    assert stem + ".png" == "AdvancedGitOPs.png";
    ReplaceWithoutSeparators(stem);
    PngSlide(basePath, stem, stem);
  }

  /** On failure, the slides are the three fallback files, in that order. */
  lemma FailureGivesFallback(basePath: string)
    ensures LoadAds(basePath, FetchFailed) == [
      Slide(basePath + "/ads/" + "1_yoga.png", "1_yoga", "#", "1 yoga", true),
      Slide(basePath + "/ads/" + "AdvancedK8s.png", "AdvancedK8s", "#", "AdvancedK8s", true),
      Slide(basePath + "/ads/" + "AdvancedGitOPs.png", "AdvancedGitOPs", "#", "AdvancedGitOPs", true)]
  {
    FallbackYoga(basePath);
    FallbackK8s(basePath);
    FallbackGitOps(basePath);
  }

  /** A non-string element that passes the image test (an array such as ["x.png"], which
      String() turns into "x.png") makes the page fall back. */
  lemma NonStringImageFallsBack(basePath: string, items: seq<Element>, t: string)
    requires NonStr(t) in items && ImageNames.Test(t)
    ensures LoadAds(basePath, FetchedValue(ArrayValue(items))) == LoadAds(basePath, FetchFailed)
  {
    if AllPrintable(items) {
      assert NonStr(t) in KeepImages(items);
    }
  }

  /** An element whose conversion to a string throws, anywhere in the array, makes the filter
      throw, so the page uses the fallback. */
  lemma UnprintableFallsBack(basePath: string, items: seq<Element>)
    requires Unprintable in items
    ensures LoadAds(basePath, FetchedValue(ArrayValue(items))) == LoadAds(basePath, FetchFailed)
  {
  }
}
