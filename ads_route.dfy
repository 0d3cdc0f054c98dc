/**
 * The GET handler of the ads API route: every regular file of the ads directory, by
 * name, sorted, with no extension filter; a failed directory read becomes a 500
 * response carrying the error's message.
 */
module AdsRoute {
  import opened Wrappers
  import opened JsSort
  import opened Directory

  /** The route's response: the JSON array of names with status 200, or {error} with status 500. */
  datatype Response = Listing(files: seq<string>) | ServerError(error: string) {
    function Status(): int {
      if Listing? then 200 else 500
    }
  }

  /** GET, given what fs.readdirSync returned or the message of the error it threw. */
  function Get(listing: Result<seq<Entry>, string>): (r: Response)
    ensures listing.Failure? <==> r.Status() == 500
    ensures listing.Failure? ==> r == ServerError(listing.error)
    ensures listing.Success? ==> r.Listing? && Sorted(r.files)
    ensures listing.Success? ==> multiset(r.files) == multiset(FileNames(listing.value))
  {
    match listing
    case Failure(message) => ServerError(message)
    case Success(entries) => Listing(Sort(FileNames(entries)))
  }

  /** A name is listed exactly when the directory holds a regular file of that name;
      directories are never listed. */
  lemma ListsExactlyTheFiles(entries: seq<Entry>, n: string)
    ensures n in Get(Success(entries)).files <==> exists e :: e in entries && e.isFile && e.name == n
  {
    var files := Get(Success(entries)).files;
    assert n in files <==> n in multiset(files);
    assert n in FileNames(entries) <==> n in multiset(FileNames(entries));
  }

  /** Each file entry is listed once per occurrence: the listing is a permutation of the
      names of the file entries. */
  lemma ListingCounts(entries: seq<Entry>, n: string)
    ensures multiset(Get(Success(entries)).files)[n] == multiset(entries)[Entry(n, true)]
  {
    FileNamesCount(entries, n);
  }

  /** There is no extension filter: the manifest file itself is listed when present. */
  lemma ListsManifestFile(entries: seq<Entry>)
    requires Entry("ads.json", true) in entries
    ensures "ads.json" in Get(Success(entries)).files
  {
    ListsExactlyTheFiles(entries, "ads.json");
  }

  /** Sorting the listing again leaves it unchanged. */
  lemma ListingIsSorted(entries: seq<Entry>)
    ensures Sort(Get(Success(entries)).files) == Get(Success(entries)).files
  {
    SortOfSorted(Get(Success(entries)).files);
  }

  /** The listing does not depend on the order in which readdirSync returns the entries. */
  lemma ListingOrderIndependent(a: seq<Entry>, b: seq<Entry>)
    requires multiset(a) == multiset(b)
    ensures Get(Success(a)) == Get(Success(b))
  {
    forall x ensures multiset(FileNames(a))[x] == multiset(FileNames(b))[x] {
      FileNamesCount(a, x);
      FileNamesCount(b, x);
    }
    assert multiset(FileNames(a)) == multiset(FileNames(b));
    SortOrderIndependent(FileNames(a), FileNames(b));
  }
}
