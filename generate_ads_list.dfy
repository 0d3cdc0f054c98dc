/**
 * The build script that writes public/ads/ads.json: the regular files of the ads
 * directory whose names pass the image test, sorted, written as a two-space indented
 * JSON array over whatever the file held before. A failed directory read or write
 * leaves the file alone and ends the process with status 1.
 */
module GenerateAdsList {
  import opened Wrappers
  import opened JsSort
  import opened Directory
  import ImageNames
  import JsonText
  import AdsRoute

  /** The name of the generated file, inside the directory it lists. */
  const OutputName: string := "ads.json"

  /** The manifest: the filter, map and sort chain over the directory entries. */
  function Manifest(entries: seq<Entry>): (r: seq<string>)
    ensures Sorted(r)
    ensures multiset(r) == multiset(ImageFileNames(entries))
  {
    Sort(ImageFileNames(entries))
  }

  /** The manifest holds each regular file with an image name once per entry, and nothing
      else: no directory, and no file the image test refuses. */
  lemma ManifestCounts(entries: seq<Entry>, n: string)
    ensures multiset(Manifest(entries))[n]
         == if ImageNames.Test(n) then multiset(entries)[Entry(n, true)] else 0
  {
    ImageFileNamesCount(entries, n);
  }

  /** A name is in the manifest exactly when it names a regular file and passes the image test. */
  lemma ManifestMembers(entries: seq<Entry>, n: string)
    ensures n in Manifest(entries) <==> Entry(n, true) in entries && ImageNames.Test(n)
  {
    ManifestCounts(entries, n);
    assert n in Manifest(entries) <==> n in multiset(Manifest(entries));
    assert Entry(n, true) in entries <==> Entry(n, true) in multiset(entries);
  }

  /** The generated file is never listed in the manifest it holds. */
  lemma OutputNotInManifest(entries: seq<Entry>)
    ensures OutputName !in Manifest(entries)
  {
    ImageNames.ManifestNameIsNotImage();
    ManifestMembers(entries, OutputName);
  }

  /** Running again after a run, over a directory that now also holds ads.json, gives the same
      manifest: the file the last run wrote is ignored. */
  lemma RegenerationIdempotent(entries: seq<Entry>)
    ensures Manifest(entries + [Entry(OutputName, true)]) == Manifest(entries)
  {
    ImageNames.ManifestNameIsNotImage();
    ImageFileNamesIgnore(entries, Entry(OutputName, true));
  }

  /** The manifest does not depend on the order readdirSync returns the entries in. */
  lemma ManifestOrderIndependent(a: seq<Entry>, b: seq<Entry>)
    requires multiset(a) == multiset(b)
    ensures Manifest(a) == Manifest(b)
  {
    forall x ensures multiset(ImageFileNames(a))[x] == multiset(ImageFileNames(b))[x] {
      ImageFileNamesCount(a, x);
      ImageFileNamesCount(b, x);
    }
    assert multiset(ImageFileNames(a)) == multiset(ImageFileNames(b));
    SortOrderIndependent(ImageFileNames(a), ImageFileNames(b));
  }

  /** The manifest is the ads route's listing of the same directory with the non-image names
      deleted, the order kept. */
  lemma ManifestIsFilteredListing(entries: seq<Entry>)
    ensures Manifest(entries) == FilterImages(AdsRoute.Get(Success(entries)).files)
    ensures IsSubsequence(Manifest(entries), AdsRoute.Get(Success(entries)).files)
  {
    ImageFileNamesFactor(entries);
    FilterCommutesWithSort(FileNames(entries));
    FilterImagesIsSubsequence(Sort(FileNames(entries)));
  }

  /** The page's own image filter keeps every name of the manifest. */
  lemma PageFilterKeepsManifest(entries: seq<Entry>)
    ensures FilterImages(Manifest(entries)) == Manifest(entries)
  {
    forall n | n in Manifest(entries) ensures ImageNames.Test(n) {
      ManifestMembers(entries, n);
    }
    FilterImagesOfImages(Manifest(entries));
  }

  /** The text written to ads.json. */
  function ManifestText(entries: seq<Entry>): string {
    JsonText.ArrayJson(Manifest(entries))
  }

  /** Parsing the written text as the page does gives back the manifest, in order. */
  lemma ManifestTextReadsBack(entries: seq<Entry>)
    ensures JsonText.ReadArray(ManifestText(entries)) == Some(Manifest(entries))
  {
    JsonText.ReadArrayJson(Manifest(entries));
  }

  /** The generated file in the ads directory: absent, or its contents. */
  class ManifestFile {
    var contents: Option<string>

    constructor (existing: Option<string>)
      ensures contents == existing
    {
      contents := existing;
    }

    /** One run of the script, given the result of readdirSync and whether writeFileSync
        succeeds; returns the process's exit status. The write replaces the whole file. */
    method Run(listing: Result<seq<Entry>, string>, writeSucceeds: bool) returns (exitCode: int)
      modifies this
      ensures exitCode == (if listing.Success? && writeSucceeds then 0 else 1)
      ensures exitCode == 0 ==> contents == Some(ManifestText(listing.value))
      ensures exitCode != 0 ==> contents == old(contents)
    {
      match listing
      case Failure(_) =>
        exitCode := 1;
      case Success(entries) =>
        var names := Sort(ImageFileNames(entries));
        if writeSucceeds {
          contents := Some(JsonText.ArrayJson(names));
          exitCode := 0;
        } else {
          exitCode := 1;
        }
    }
  }
}
