/**
 * A directory listing as fs.readdirSync(dir, { withFileTypes: true }) returns it, and the
 * filter and map steps that both the ads route and the manifest generator apply to it.
 */
module Directory {
  import opened JsString
  import opened JsSort
  import ImageNames

  /** One directory entry: its name, and whether it is a regular file (Dirent.isFile()). */
  datatype Entry = Entry(name: string, isFile: bool)

  /** .filter(file => file.isFile()).map(file => file.name) */
  function FileNames(entries: seq<Entry>): (r: seq<string>)
    ensures |r| <= |entries|
    ensures forall n :: n in r <==> exists e :: e in entries && e.isFile && e.name == n
  {
    if |entries| == 0 then []
    else
      var rest := FileNames(entries[1..]);
      assert forall e :: e in entries <==> e == entries[0] || e in entries[1..];
      if entries[0].isFile then [entries[0].name] + rest else rest
  }

  /** .filter(f => /\.(png|jpe?g|svg)$/i.test(f)) on a list of names. */
  function FilterImages(names: seq<string>): (r: seq<string>)
    ensures |r| <= |names|
    ensures forall n :: n in r <==> n in names && ImageNames.Test(n)
  {
    if |names| == 0 then []
    else
      var rest := FilterImages(names[1..]);
      assert forall n :: n in names <==> n == names[0] || n in names[1..];
      if ImageNames.Test(names[0]) then [names[0]] + rest else rest
  }

  /** .filter(d => d.isFile() && /\.(png|jpe?g|svg)$/i.test(d.name)).map(d => d.name) */
  function ImageFileNames(entries: seq<Entry>): seq<string> {
    if |entries| == 0 then []
    else
      var rest := ImageFileNames(entries[1..]);
      if entries[0].isFile && ImageNames.Test(entries[0].name) then [entries[0].name] + rest else rest
  }

  /** Filtering entries on both conditions at once is filtering file names on the image test. */
  lemma {:induction false} ImageFileNamesFactor(entries: seq<Entry>)
    ensures ImageFileNames(entries) == FilterImages(FileNames(entries))
  {
    if |entries| > 0 {
      ImageFileNamesFactor(entries[1..]);
    }
  }

  /** a is obtained from b by deleting elements, the rest kept in order. */
  predicate IsSubsequence(a: seq<string>, b: seq<string>)
    decreases |b|
  {
    |a| == 0 ||
    (|b| > 0 && ((a[0] == b[0] && IsSubsequence(a[1..], b[1..])) || IsSubsequence(a, b[1..])))
  }

  /** The image filter only deletes names; it never reorders them. */
  lemma {:induction false} FilterImagesIsSubsequence(names: seq<string>)
    ensures IsSubsequence(FilterImages(names), names)
  {
    if |names| > 0 {
      FilterImagesIsSubsequence(names[1..]);
    }
  }

  /** The filter keeps every occurrence of an image name and no occurrence of anything else. */
  lemma {:induction false} FilterImagesCount(names: seq<string>, x: string)
    ensures multiset(FilterImages(names))[x] == if ImageNames.Test(x) then multiset(names)[x] else 0
  {
    if |names| > 0 {
      FilterImagesCount(names[1..], x);
      assert names == [names[0]] + names[1..];
    }
  }

  /** Filtering names that are already image names changes nothing. */
  lemma {:induction false} FilterImagesOfImages(names: seq<string>)
    requires forall n :: n in names ==> ImageNames.Test(n)
    ensures FilterImages(names) == names
  {
    if |names| > 0 {
      assert names[0] in names;
      assert forall n :: n in names[1..] ==> n in names;
      FilterImagesOfImages(names[1..]);
      assert names == [names[0]] + names[1..];
    }
  }

  /** A filtered sorted list stays sorted. */
  lemma {:induction false} FilterImagesSorted(names: seq<string>)
    requires Sorted(names)
    ensures Sorted(FilterImages(names))
  {
    if |names| > 0 {
      assert Sorted(names[1..]) by {
        forall i, j | 0 <= i < j < |names[1..]| ensures NotAfter(names[1..][i], names[1..][j]) {
          assert names[1..][i] == names[i + 1] && names[1..][j] == names[j + 1];
        }
      }
      FilterImagesSorted(names[1..]);
      var rest := FilterImages(names[1..]);
      forall y | y in rest ensures NotAfter(names[0], y) {
        var j :| 0 <= j < |names[1..]| && names[1..][j] == y;
        assert names[j + 1] == y;
      }
    }
  }

  /** Sorting and then filtering gives what filtering and then sorting gives. */
  lemma FilterCommutesWithSort(names: seq<string>)
    ensures FilterImages(Sort(names)) == Sort(FilterImages(names))
  {
    FilterImagesSorted(Sort(names));
    forall x ensures multiset(FilterImages(Sort(names)))[x] == multiset(Sort(FilterImages(names)))[x] {
      FilterImagesCount(Sort(names), x);
      FilterImagesCount(names, x);
    }
    assert multiset(FilterImages(Sort(names))) == multiset(Sort(FilterImages(names)));
    SortedUnique(FilterImages(Sort(names)), Sort(FilterImages(names)));
  }

  /** Appending an entry that is not an image file leaves the image file names unchanged. */
  lemma {:induction false} ImageFileNamesIgnore(entries: seq<Entry>, e: Entry)
    requires !(e.isFile && ImageNames.Test(e.name))
    ensures ImageFileNames(entries + [e]) == ImageFileNames(entries)
  {
    if |entries| == 0 {
      assert ([] + [e])[1..] == [];
    } else {
      assert (entries + [e])[1..] == entries[1..] + [e];
      ImageFileNamesIgnore(entries[1..], e);
    }
  }

  /** The image file names of a listing depend only on its entries, not on their order. */
  lemma {:induction false} ImageFileNamesCount(entries: seq<Entry>, x: string)
    ensures multiset(ImageFileNames(entries))[x]
         == if ImageNames.Test(x) then multiset(entries)[Entry(x, true)] else 0
  {
    if |entries| > 0 {
      ImageFileNamesCount(entries[1..], x);
      assert entries == [entries[0]] + entries[1..];
    }
  }

  /** Same for the file names: each occurrence of a file entry contributes one name. */
  lemma {:induction false} FileNamesCount(entries: seq<Entry>, x: string)
    ensures multiset(FileNames(entries))[x] == multiset(entries)[Entry(x, true)]
  {
    if |entries| > 0 {
      FileNamesCount(entries[1..], x);
      assert entries == [entries[0]] + entries[1..];
    }
  }
}
