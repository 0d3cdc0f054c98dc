/**
 * The ads pipeline end to end: the manifest the build script writes, fetched and parsed
 * by the page, becomes one slide per manifest entry, in manifest order.
 */
module AdsPipeline {
  import opened Wrappers
  import opened Directory
  import opened Slides
  import opened GenerateAdsList
  import JsonText

  /** Loading the generated manifest shows exactly its images, one slide each, in its order;
      the page's second image filter removes nothing. */
  lemma GeneratedManifestSlides(basePath: string, entries: seq<Entry>)
    ensures LoadAds(basePath, FetchedValue(ArrayValue(Strs(Manifest(entries)))))
         == MakeSlides(basePath, Manifest(entries))
    ensures |LoadAds(basePath, FetchedValue(ArrayValue(Strs(Manifest(entries)))))|
         == |Manifest(entries)|
  {
    SlidesFromManifest(basePath, Manifest(entries));
    PageFilterKeepsManifest(entries);
  }

  /** The file the build script writes, parsed by the page, yields the slides of the directory's
      image files, sorted. */
  lemma WrittenFileSlides(basePath: string, entries: seq<Entry>)
    ensures var parsed := JsonText.ReadArray(ManifestText(entries));
      parsed.Some?
      && LoadAds(basePath, FetchedValue(ArrayValue(Strs(parsed.value))))
         == MakeSlides(basePath, Manifest(entries))
  {
    ManifestTextReadsBack(entries);
    GeneratedManifestSlides(basePath, entries);
  }
}
