# Ad-image pipeline and registration log of the Traica Solutions home page

This Dafny project models the small core of the site that has real logic in it:

- **The manifest generator** (`scripts/generate-ads-list.js`). It is a build step. It lists `public/ads` and keeps the regular files whose name passes `/\.(png|jpe?g|svg)$/i`. It sorts the names with `Array.prototype.sort()` and writes them to `ads.json` as `JSON.stringify(names, null, 2)`. If anything throws, it exits with status 1.
- **The ads API route** (`src/app/api/ads/route.js`). It returns every regular file of the directory, sorted, with no extension filter. If the directory cannot be read, it returns `{error}` with status 500.
- **Slide derivation** (`loadAds` in `src/app/page.js`). The page fetches `ads.json`, keeps the entries that pass the same image test, and builds one slide descriptor per entry: source, alt text with the extension stripped, caption with `-`/`_` turned into spaces, link `#`, and contain mode. On failure it uses a fixed list of three files.
- **The slide rotation** (`page.js`). It holds `slides` and `currentSlide`. A 4.5-second tick advances the index modulo the slide count. An effect resets the index to 0 when the number of slides changes. The dots select a slide. A yoga placeholder is shown while there are no slides, and the slide and dot whose index equals `currentSlide` are marked active.
- **The registration form's submit guard** (`handleSubmit` in `page.js`).
- **The registration API route** (`src/app/api/register/route.js`):
  - It validates the JSON payload; a missing or empty field, or no course, gives status 400. A body that is not JSON, or is the JSON value `null` (whose destructuring throws), gives status 500.
  - It builds one double-quoted CSV row: `courses.join('; ')` for the courses, and `message || 'N/A'` for the message.
  - If `course-registrations.csv` does not exist, it writes the header first, then appends the row.
  - Any exception gives status 500.

Modules, one file each:

| file | module | models |
|---|---|---|
| `wrappers.dfy` | `Wrappers` | `Option` and `Result` |
| `js_string.dfy` | `JsString` | JavaScript's string operations used here: case folding as a `/i` regex without the `u` flag applies it to an all-ASCII pattern (every character is upper-cased, but none at or above 128 is equated with one below 128, so a letter of the pattern matches only its own two ASCII cases), `join`, and the order `sort()` uses (UTF-16 code units); `Split` is the model's own reference, used to read back the line structure of the written manifest (`ArrayJsonLines`) and the column structure of a registration row (`RowShape`) |
| `js_sort.dfy` | `JsSort` | `Array.prototype.sort()` on strings, as a sorted permutation (insertion sort), and the uniqueness of sorted permutations |
| `image_names.dfy` | `ImageNames` | the image regex's `test`, as the leftmost-match search the regex engine performs |
| `directory.dfy` | `Directory` | a directory entry (`name`, `isFile`) and the filters over entries and names |
| `ads_route.dfy` | `AdsRoute` | `GET /api/ads` |
| `json_text.dfy` | `JsonText` | `JSON.stringify` of a string and of an array of strings with indent 2, and a reader for that layout |
| `generate_ads_list.dfy` | `GenerateAdsList` | the generator, with the output file as a class |
| `slides.dfy` | `Slides` | slide descriptors and `loadAds` |
| `slideshow.dfy` | `Slideshow` | the rotation state machine (class `Banner`) and the active marks |
| `course_form.dfy` | `CourseForm` | `handleSubmit` |
| `register_route.dfy` | `RegisterRoute` | `POST /api/register`, with the log file as a class |
| `pipeline.dfy` | `AdsPipeline` | the generator's output read by the page |

The effects that are not Dafny values are inputs of the model:

- `readdirSync` becomes a `Result` of entries. Its order is arbitrary, so the results are proved not to depend on it.
- The fetch of `ads.json` becomes a `Fetched` value.
- Which of the register route's file-system calls throws becomes an `IoFault`; whether the generator's write succeeds and whether the form post throws become a `bool`.
- `new Date().toISOString()` becomes a timestamp string.
- `basePath` is a parameter.

## Model

| member | source | states |
|---|---|---|
| JsString.LowerAll | scripts/generate-ads-list.js:9 | the `/i` flag compares character by character, the same length; against the all-ASCII pattern, only the two cases of an ASCII letter are equated, since no character at or above 128 is equated with one below 128 |
| JsString.Join | src/app/api/register/route.js:20 | `join` places the separator between parts; see JoinAppend, SplitJoin, JoinSix |
| JsString.SplitJoin | scripts/generate-ads-list.js:13 | splitting at a separator character undoes `join` with that character, when no part contains it; used for the manifest's lines here and for the row's columns at route.js:24 |
| JsString.JoinAppend | src/app/api/register/route.js:20 | joining one more part appends the separator and that part |
| JsString.NotAfter | scripts/generate-ads-list.js:11 | the order `sort()` uses; see NotAfterIsCodeUnitOrder, NotAfterReflexive, NotAfterTotal, NotAfterAntisymmetric, NotAfterTransitive |
| JsString.KeyInjective | scripts/generate-ads-list.js:11 | the code-unit sort key tells different characters apart |
| JsString.FirstCharDecides | scripts/generate-ads-list.js:11 | at the first differing character, the UTF-16 comparison is decided by the sort key |
| JsString.NotAfterIsCodeUnitOrder | scripts/generate-ads-list.js:11 | the character-wise order is exactly the comparison of the UTF-16 code-unit sequences that `sort()` performs |
| JsString.NotAfterReflexive | scripts/generate-ads-list.js:11 | the sort order is reflexive |
| JsString.NotAfterTotal | scripts/generate-ads-list.js:11 | any two names are comparable |
| JsString.NotAfterAntisymmetric | scripts/generate-ads-list.js:11 | two names each not after the other are equal |
| JsString.NotAfterTransitive | scripts/generate-ads-list.js:11 | the sort order is transitive |
| JsSort.Insert | scripts/generate-ads-list.js:11 | inserting into a sorted list keeps it sorted and adds exactly that element |
| JsSort.Sort | scripts/generate-ads-list.js:11 | `sort()` returns a sorted permutation of its input |
| JsSort.SortedUnique | scripts/generate-ads-list.js:11 | two sorted lists with the same elements are equal, so the sorted result is fully determined |
| JsSort.SortOfSorted | scripts/generate-ads-list.js:11 | sorting a sorted list changes nothing |
| JsSort.SortOrderIndependent | scripts/generate-ads-list.js:11 | the sort's result depends only on the multiset of names |
| ImageNames.SearchFindsMatch | scripts/generate-ads-list.js:9 | a successful `test` has a match position |
| ImageNames.SearchReachesMatch | scripts/generate-ads-list.js:9 | any match position makes `test` succeed |
| ImageNames.DotFolds | scripts/generate-ads-list.js:9 | case folding maps only `.` to `.` |
| ImageNames.MatchGivesExtension | scripts/generate-ads-list.js:9 | a match means the name ends in `.png`, `.jpg`, `.jpeg` or `.svg` in some ASCII case |
| ImageNames.ExtensionGivesMatch | scripts/generate-ads-list.js:9 | a name ending in one of the four extensions, in any ASCII case, matches where the extension starts |
| ImageNames.Test | scripts/generate-ads-list.js:9 | the regex `test`, the same one page.js:26 applies; see SearchFindsMatch, SearchReachesMatch, TestIsImageExtension, NotImageWithoutFinalG, ManifestNameIsNotImage |
| ImageNames.TestIsImageExtension | src/app/page.js:26 | `test` succeeds if and only if the name ends in one of the four extensions, case-insensitively |
| ImageNames.NotImageWithoutFinalG | scripts/generate-ads-list.js:9 | every accepted extension ends in `g`, so a name whose last letter does not fold to `g` is refused |
| ImageNames.ManifestNameIsNotImage | scripts/generate-ads-list.js:5-9 | `ads.json` does not pass the image test |
| Directory.FileNames | src/app/api/ads/route.js:12-14 | the names of exactly the regular-file entries |
| Directory.FilterImages | src/app/page.js:25-27 | a name is kept if and only if it is in the input and passes the image test |
| Directory.ImageFileNames | scripts/generate-ads-list.js:9-10 | the generator's entry filter and name mapping; see ImageFileNamesFactor, ImageFileNamesIgnore, ImageFileNamesCount |
| Directory.ImageFileNamesFactor | scripts/generate-ads-list.js:8-10 | the generator's combined filter is the file filter followed by the image filter |
| Directory.FilterImagesIsSubsequence | src/app/page.js:26 | the filter keeps the order of the names it keeps |
| Directory.FilterImagesCount | src/app/page.js:26 | the filter keeps every occurrence of an image name and no occurrence of any other name |
| Directory.FilterImagesOfImages | src/app/page.js:26 | the filter removes nothing from a list of image names |
| Directory.FilterImagesSorted | src/app/page.js:26 | filtering a sorted list leaves it sorted |
| Directory.FilterCommutesWithSort | scripts/generate-ads-list.js:9-11 | filtering and then sorting gives the same result as sorting and then filtering |
| Directory.ImageFileNamesIgnore | scripts/generate-ads-list.js:9 | an entry that is a directory or a non-image file does not change the list |
| Directory.ImageFileNamesCount | scripts/generate-ads-list.js:8-10 | each image file name occurs as often as its regular-file entry occurs, and no other name occurs |
| Directory.FileNamesCount | src/app/api/ads/route.js:12-14 | each name occurs as often as its regular-file entry occurs |
| AdsRoute.Get | src/app/api/ads/route.js:7-23 | a failed read, and only that, gives status 500 with the error's message; otherwise the response is a sorted list of exactly the regular files' names |
| AdsRoute.ListsExactlyTheFiles | src/app/api/ads/route.js:12-15 | a name is listed if and only if a regular file has it; there is no extension filter |
| AdsRoute.ListingCounts | src/app/api/ads/route.js:12-15 | each listed name occurs once per regular-file entry with that name |
| AdsRoute.ListsManifestFile | src/app/api/ads/route.js:12-15 | unlike the generator, the route lists `ads.json` itself |
| AdsRoute.ListingIsSorted | src/app/api/ads/route.js:15 | the listing is in `sort()` order |
| AdsRoute.ListingOrderIndependent | src/app/api/ads/route.js:12-15 | the response does not depend on the order `readdirSync` returns the entries in |
| JsonText.QuoteJson | scripts/generate-ads-list.js:13 | the quoting of one name; see ReadQuoteJson, EscapeAllPlain, NoNewlineInEscapeAll |
| JsonText.ArrayJson | scripts/generate-ads-list.js:13 | the indent-2 array layout; see ArrayJsonLines, ReadArrayJson |
| JsonText.UnescapeChar | scripts/generate-ads-list.js:13 | reading back one escaped character gives that character |
| JsonText.UnescapeEscapeAll | scripts/generate-ads-list.js:13 | reading back an escaped string body gives the string |
| JsonText.ReadQuoteJson | scripts/generate-ads-list.js:13 | a JSON-quoted string reads back as itself |
| JsonText.EscapeAllPlain | scripts/generate-ads-list.js:13 | a name without quotes, backslashes or control characters is written unchanged |
| JsonText.NoNewlineInEscapeAll | scripts/generate-ads-list.js:13 | a quoted string contains no line break |
| JsonText.Items | scripts/generate-ads-list.js:13 | each array element gets its own line, indented two spaces |
| JsonText.ItemLines | scripts/generate-ads-list.js:13 | each element line carries a comma, except the last |
| JsonText.JoinItemLines | scripts/generate-ads-list.js:13 | joining the elements with `,\n` is joining the comma-ended lines with `\n` |
| JsonText.ArrayJsonLines | scripts/generate-ads-list.js:13 | a non-empty array's text consists of the lines `[`, one line per element, and `]` |
| JsonText.ReadItems | src/app/page.js:23 | reading the element lines yields one name per line |
| JsonText.ReadItemOfItem | src/app/page.js:23 | one element line reads back as its name |
| JsonText.ReadItemLines | src/app/page.js:23 | the element lines read back as the names, in order |
| JsonText.ReadArrayJson | src/app/page.js:23 | parsing the text `JSON.stringify(names, null, 2)` writes gives back the names, in order, the empty array included |
| GenerateAdsList.Manifest | scripts/generate-ads-list.js:8-11 | the manifest is sorted and is a permutation of the regular image files' names |
| GenerateAdsList.ManifestCounts | scripts/generate-ads-list.js:8-11 | each name occurs once per regular-file entry with that name if the name passes the image test, and never otherwise |
| GenerateAdsList.ManifestMembers | scripts/generate-ads-list.js:8-11 | a name is in the manifest if and only if a regular file has it and it passes the image test |
| GenerateAdsList.OutputNotInManifest | scripts/generate-ads-list.js:5-11 | `ads.json` is never listed in the manifest |
| GenerateAdsList.RegenerationIdempotent | scripts/generate-ads-list.js:5-13 | running again over the directory that now holds the output gives the same manifest |
| GenerateAdsList.ManifestOrderIndependent | scripts/generate-ads-list.js:8-11 | the manifest does not depend on the order `readdirSync` returns the entries in |
| GenerateAdsList.ManifestIsFilteredListing | scripts/generate-ads-list.js:8-11 | the manifest equals the ads route's listing with non-image names removed, in the same order |
| GenerateAdsList.PageFilterKeepsManifest | src/app/page.js:25-27 | the page's own image filter keeps every manifest entry |
| GenerateAdsList.ManifestTextReadsBack | scripts/generate-ads-list.js:13 | the written text parses back to the manifest |
| GenerateAdsList.ManifestFile.constructor | scripts/generate-ads-list.js:5 | the output file starts as it was before the run |
| GenerateAdsList.ManifestFile.Run | scripts/generate-ads-list.js:7-18 | exit status 0 exactly when the read and the write succeed, and then the file holds the manifest's JSON text; otherwise status 1 and the file is unchanged |
| Slides.NonDotRun | src/app/page.js:31 | the greedy `[^.]+` run stops at a `.` or at the end |
| Slides.FirstExtension | src/app/page.js:31 | the leftmost position where `\.[^.]+$` matches, or no position |
| Slides.StripExtension | src/app/page.js:31 | `img.replace(/\.[^.]+$/, '')`; see StripRemovesFinalExtension, StripKeepsUnmatched, StripIsPrefix |
| Slides.StripRemovesFinalExtension | src/app/page.js:31 | `replace` removes exactly the final `.ext`, whatever dots come before it |
| Slides.StripKeepsUnmatched | src/app/page.js:31 | a name without a dot, or ending in a dot, is left as it is |
| Slides.StripIsPrefix | src/app/page.js:31 | the alt text is a prefix of the file name |
| Slides.ReplaceSeparators | src/app/page.js:33 | every `-` and `_` becomes a space, and nothing else changes |
| Slides.ReplaceWithoutSeparators | src/app/page.js:33 | a text without separators is its own caption |
| Slides.CaptionHasNoSeparator | src/app/page.js:33 | a caption has no separator, and replacing again changes nothing |
| Slides.MakeSlide | src/app/page.js:29-35 | the source is `basePath + "/ads/" + img`, the link is `#`, contain is set, the alt text is a prefix of the name, and the caption is the alt text with its separators replaced |
| Slides.MakeSlides | src/app/page.js:29 | one descriptor per name, in order |
| Slides.KeepImages | src/app/page.js:25-27 | when every element converts to a string, an element is kept if and only if it passes the image test applied to its `String()` form; see KeepImagesCount, KeepImagesOfMixed |
| Slides.Texts | src/app/page.js:29 | the strings of an all-string element list, in order |
| Slides.Strs | src/app/page.js:23 | a list of names as JSON string elements |
| Slides.KeepImagesOfStrings | src/app/page.js:26 | on strings, the element filter is the name filter |
| Slides.TextsOfStrs | src/app/page.js:29 | `Texts` undoes `Strs` |
| Slides.LoadAds | src/app/page.js:18-50 | the slides the page sets; see SlidesFromManifest, NotArrayGivesNoSlides, EmptyManifestGivesNoSlides, FailureGivesFallback, NonStringImageFallsBack, UnprintableFallsBack, MixedManifestSlides |
| Slides.SlidesFromManifest | src/app/page.js:25-37 | a manifest of strings gives one slide per image name, in manifest order |
| Slides.StringTexts | src/app/page.js:23 | a name is listed if and only if the array holds it as a string element, and there are no more names than elements |
| Slides.StringTextsOfStrs | src/app/page.js:23 | on an array of strings, the strings are the names themselves |
| Slides.KeepImagesCount | src/app/page.js:26 | `filter` keeps every occurrence of an element that passes the test and none of one that fails it |
| Slides.KeepImagesOfMixed | src/app/page.js:26 | when no non-string element passes the test, the kept elements are the image strings, in the array's order |
| Slides.MixedManifestSlides | src/app/page.js:25-37 | an array mixing strings with other values, none of which passes the test, gives one slide per image string, in the array's order, and no fallback |
| Slides.NotArrayGivesNoSlides | src/app/page.js:25-27 | a parsed value that is not an array gives no slides, and no fallback |
| Slides.EmptyManifestGivesNoSlides | src/app/page.js:25-37 | an empty array gives no slides, and no fallback |
| Slides.SlideOfImage | src/app/page.js:29-35 | for `stem.ext`, the alt text is the stem and the caption is the stem with its separators replaced |
| Slides.PngSlide | src/app/page.js:42-48 | a `.png` file's descriptor has its stem as alt text and the stem's caption |
| Slides.FallbackYoga | src/app/page.js:41-48 | the fallback slide for `1_yoga.png` has caption `1 yoga` |
| Slides.FallbackK8s | src/app/page.js:41-48 | the fallback slide for `AdvancedK8s.png` |
| Slides.FallbackGitOps | src/app/page.js:41-48 | the fallback slide for `AdvancedGitOPs.png` |
| Slides.FailureGivesFallback | src/app/page.js:38-49 | a failed fetch or parse gives the three fallback slides, in order, with their exact fields |
| Slides.NonStringImageFallsBack | src/app/page.js:25-49 | a kept element that is not a string makes `img.replace` throw, so the page uses the fallback |
| Slides.UnprintableFallsBack | src/app/page.js:25-49 | an element whose conversion to a string throws makes the filter's `test` throw, so the page uses the fallback |
| Slideshow.Rendered | src/app/page.js:144-146 | the slides are rendered, or the single yoga placeholder when there are none; see RenderedActive |
| Slideshow.ActiveMarks | src/app/page.js:153 | which rendered slide gets the active class; see ExactlyOneActive, OneActiveInValidState, RenderedActive |
| Slideshow.ExactlyOneActive | src/app/page.js:153 | `idx === currentSlide` marks exactly one slide when the index is in range, and none otherwise |
| Slideshow.Advance | src/app/page.js:57-59 | with slides, a tick lands in range; with none, there is no interval and the index stays put |
| Slideshow.AdvanceInRange | src/app/page.js:59 | a tick moves to the next slide, or from the last slide back to the first |
| Slideshow.AdvanceTimesWithinRound | src/app/page.js:59 | k ticks, with k no more than the slide count, move k places and wrap at most once |
| Slideshow.FullRound | src/app/page.js:59 | as many ticks as there are slides return to the starting slide |
| Slideshow.TicksVisitInOrder | src/app/page.js:59 | starting at 0, tick k shows slide k |
| Slideshow.AdvanceTimesAdd | src/app/page.js:59 | a ticks followed by b ticks equal a + b ticks |
| Slideshow.RotationPeriodic | src/app/page.js:59 | the rotation repeats with a period equal to the slide count |
| Slideshow.Banner.constructor | src/app/page.js:11-12 | no slides and index 0, a valid state |
| Slideshow.Banner.Tick | src/app/page.js:57-62 | the index advances modulo the slide count, the slides are unchanged, and the index stays in range |
| Slideshow.Banner.SetSlides | src/app/page.js:64-67 | the new slides are set, and the index resets to 0 exactly when the count changed; the index stays in range |
| Slideshow.Banner.Select | src/app/page.js:160-166 | clicking dot idx, which exists only for a rendered slide, selects slide idx |
| Slideshow.OneActiveInValidState | src/app/page.js:146-153 | in every state the banner reaches, exactly one rendered slide is marked active |
| Slideshow.RenderedActive | src/app/page.js:144-167 | in every state the banner reaches, there is one mark per rendered slide, only the current one is active, and the current slide is a listed slide when there are any and the placeholder otherwise |
| CourseForm.HandleSubmit | src/app/page.js:69-113 | the form is posted if and only if a course is selected; success if and only if a course is selected and the post does not throw; otherwise error |
| RegisterRoute.IsComplete | src/app/api/register/route.js:11 | the validation guard; see RejectedIffIncomplete, Register |
| RegisterRoute.MessageText | src/app/api/register/route.js:21 | `message || 'N/A'`; see CoursesAndMessageFields, ExampleRow |
| RegisterRoute.CsvRow | src/app/api/register/route.js:24 | the CSV row; see RowLayout, RowShape, ExampleRow |
| RegisterRoute.QuoteAll | src/app/api/register/route.js:24 | each field is wrapped in double quotes |
| RegisterRoute.Register | src/app/api/register/route.js:5-52 | 400 exactly for an incomplete payload; 200 exactly for a complete payload with no failing write; on 200 the log is the old contents, or the header, followed by the row; otherwise the log is unchanged, except for a header-only file when the append fails after creating it; existing contents are always kept as a prefix |
| RegisterRoute.MalformedFails | src/app/api/register/route.js:7-8 | a body that is not JSON, or is `null`, gives 500 and leaves the log as it was |
| RegisterRoute.RejectedIffIncomplete | src/app/api/register/route.js:11-16 | rejection happens if and only if name, email or phone is missing or empty, or no course is given, and then the log is untouched |
| RegisterRoute.CoursesAndMessageFields | src/app/api/register/route.js:20-21 | a single course is written as its name, and a missing or empty message as `N/A` |
| RegisterRoute.JoinSix | src/app/api/register/route.js:24 | six parts joined, written out |
| RegisterRoute.RowLayout | src/app/api/register/route.js:24 | the row is the template: six double-quoted values separated by commas, ending in a newline, with nothing escaped |
| RegisterRoute.ExampleRow | src/app/api/register/route.js:19-24 | the row for one course and a null message ends in `"Python","N/A"` |
| RegisterRoute.QuotedFieldsSplit | src/app/api/register/route.js:24 | when no field holds a comma, cutting the joined quoted fields at commas gives them back |
| RegisterRoute.RowShape | src/app/api/register/route.js:24 | the row ends in a newline, and when no value holds a comma, its columns are the six quoted values in header order |
| RegisterRoute.SubmitAllAppends | src/app/api/register/route.js:30-36 | onto an existing log, accepted submissions append exactly their rows, in order |
| RegisterRoute.LogFromNothing | src/app/api/register/route.js:30-36 | starting with no file, n accepted submissions leave the header once, followed by the n rows in order |
| RegisterRoute.RegistrationLog.constructor | src/app/api/register/route.js:27 | the log file starts as it is |
| RegisterRoute.RegistrationLog.Post | src/app/api/register/route.js:5-52 | the existence check, header write and append leave the file, and return the response, that `Register` describes |
| AdsPipeline.GeneratedManifestSlides | src/app/page.js:25-37 | loading the generated manifest gives one slide per manifest entry, in manifest order |
| AdsPipeline.WrittenFileSlides | scripts/generate-ads-list.js:13 | the file the generator writes, parsed by the page, gives the slides of the directory's image files, sorted |

## Left out

- Console output, the process's error message, and the HTTP framing of the responses (`NextResponse.json` bodies) are not modelled. The route responses are the values `Registered`, `Rejected` and `Failed`, with `Status()` giving 200, 400 and 500.
- The network fetch of `ads.json` and its HTTP status become the `Fetched` input. A non-ok status and a parse error are both `FetchFailed`, as they are both caught by the same catch block.
- General JSON parsing is not modelled. `JsonText.ReadArray` reads only the two-space layout the generator writes. Manifests edited by hand are given to `LoadAds` as parsed values: a string, another value with the text `String()` makes of it, or `Unprintable` for a value whose conversion to a string throws. How a given JSON value converts is not modelled.
- Slides.LoadAds: the component's `mounted` flag is not modelled, so a load that finishes after unmount is treated as setting the slides.
- Slideshow.Banner.SetSlides: this pairs `setSlides` with the effect that resets the index in one step. The single render between them, where the index can briefly be out of range for a shorter list, is not modelled, so neither is the render of no active slide.
- Timers are not modelled: the interval's 4.5-second period, the clearing of the message after 3, 5 or 10 seconds, and the modal closing. Tick is one firing.
- CourseForm.HandleSubmit: the scrolling, `form.reset()` and the Google Forms post itself are left out. The post is a no-cors request whose outcome is only "threw or not".
- GenerateAdsList.ManifestFile.Run: a write that fails part way through is treated as leaving the file unchanged.
- RegisterRoute: concurrent requests, which can interleave the existence check and the writes, are not modelled.
- RegisterRoute: payload fields of non-string types are out of scope. Neither is `courses` given as a non-array, where `join` would throw and the route would answer 500.
- RegisterRoute: the row is not escaped: a value holding `"` ends its quoted field early and produces a malformed CSV row. A comma inside a quoted field is valid CSV; RowShape's condition that no value holds a comma comes from the model's plain `Split`, which does not honour quotes, and no CSV reader is modelled.
- RegisterRoute: an `IoFault` is taken to leave the file as it was before the failing call. A header write that creates the file and then fails part way (a full disk, say) can instead leave an empty or partial header, after which the existence check at route.js:30 succeeds and the header is never written again; an append that fails part way can leave half a row. Neither is modelled.
- The timestamp is an input; its ISO-8601 format is not modelled.
- JavaScript strings can hold lone surrogates; Dafny strings cannot. A name holding one, such as a hand-edited `ads.json` entry `"\ud800.png"` or a file name the file system allows, is outside this model, and an escape of a surrogate code unit is refused when the manifest is read back.
- The page's static sections, the modal, styling, and the other routes are not part of this model.

Behaviour of the code a reader may not expect:

- The page falls back to the three fixed slides not only when the fetch or the parse fails, but also when the fetched array holds a non-string element that passes the image test, such as `["x.png"]`. In that case `img.replace` throws (`Slides.NonStringImageFallsBack`). It falls back too when an element cannot be converted to a string, such as `{"toString": 1}`, because the filter's `test` throws (`Slides.UnprintableFallsBack`).
- `message || 'N/A'` writes `N/A` for an empty-string message as well as for a missing one.
- When the log file does not exist and the header write succeeds but the append fails, the route answers 500 and leaves a file holding only the header.
