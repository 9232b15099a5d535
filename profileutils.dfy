/** Qt Linguist's split of a file list into qmake project files (.pro and
    .pri) and the rest. */
module ProFileUtils {
  import opened Text

  const DOT: CodeUnit := 0x2E

  /** Case folding of ASCII letters: capitals become small letters. */
  function FoldAscii(c: CodeUnit): CodeUnit {
    if 0x41 <= c <= 0x5A then c + 0x20 else c
  }

  /** QString::endsWith(suffix, Qt::CaseInsensitive) for an all-small ASCII
      suffix. */
  predicate EndsWithFolded(s: UString, suffix: UString) {
    |suffix| <= |s| && forall i | 0 <= i < |suffix| :: FoldAscii(s[|s| - |suffix| + i]) == suffix[i]
  }

  const PRO_SUFFIX: UString := Ascii(".pro")
  const PRI_SUFFIX: UString := Ascii(".pri")

  /** A name that ends with a dot, 'p', 'r', then 'o' or 'i', in either
      case. */
  predicate ProjectSuffix(filePath: UString) {
    |filePath| >= 4
    && filePath[|filePath| - 4] == DOT
    && (filePath[|filePath| - 3] == 0x70 || filePath[|filePath| - 3] == 0x50)
    && (filePath[|filePath| - 2] == 0x72 || filePath[|filePath| - 2] == 0x52)
    && (filePath[|filePath| - 1] in {0x6F, 0x4F, 0x69, 0x49})
  }

  /** The two case-insensitive suffix tests together accept exactly the
      names of that shape. */
  lemma FoldedSuffixShape(filePath: UString)
    ensures EndsWithFolded(filePath, PRO_SUFFIX) || EndsWithFolded(filePath, PRI_SUFFIX)
            <==> ProjectSuffix(filePath)
  {
    var n := |filePath|;
    if n >= 4 {
      assert PRO_SUFFIX == [DOT, 0x70, 0x72, 0x6F];
      assert PRI_SUFFIX == [DOT, 0x70, 0x72, 0x69];
      if EndsWithFolded(filePath, PRO_SUFFIX) || EndsWithFolded(filePath, PRI_SUFFIX) {
        var suffix := if EndsWithFolded(filePath, PRO_SUFFIX) then PRO_SUFFIX else PRI_SUFFIX;
        assert FoldAscii(filePath[n - 4]) == suffix[0];
        assert FoldAscii(filePath[n - 3]) == suffix[1];
        assert FoldAscii(filePath[n - 2]) == suffix[2];
        assert FoldAscii(filePath[n - 1]) == suffix[3];
      }
    }
  }

  /** isProOrPriFile: a project file's name ends with ".pro" or ".pri" in
      any mix of cases. */
  function IsProOrPriFile(filePath: UString): (b: bool)
    ensures b <==> ProjectSuffix(filePath)
  {
    FoldedSuffixShape(filePath);
    EndsWithFolded(filePath, PRO_SUFFIX) || EndsWithFolded(filePath, PRI_SUFFIX)
  }

  /** The entries that are not project files, in their order. */
  function Others(files: seq<UString>): (r: seq<UString>)
    ensures |r| <= |files|
  {
    if files == [] then []
    else Others(files[..|files| - 1]) + (if IsProOrPriFile(files[|files| - 1]) then [] else [files[|files| - 1]])
  }

  /** The number of project files among the entries. */
  function CountProFiles(files: seq<UString>): nat {
    if files == [] then 0
    else CountProFiles(files[..|files| - 1]) + (if IsProOrPriFile(files[|files| - 1]) then 1 else 0)
  }

  /** A QStringList the function changes through its pointer. */
  class FileList {
    var items: seq<UString>

    constructor(items: seq<UString>)
      ensures this.items == items
    {
      this.items := items;
    }
  }

  /** extractProFiles: std::remove_if moves the entries that are not
      project files to the front in their order, the tail beyond them is
      moved into the result and erased. The standard leaves the values in
      that tail unspecified, so only the result's length is stated. */
  method ExtractProFiles(files: FileList) returns (result: seq<UString>)
    modifies files
    ensures files.items == Others(old(files.items))
    ensures |result| == CountProFiles(old(files.items))
    ensures |files.items| + |result| == |old(files.items)|
  {
    ghost var original := files.items;
    // std::remove_if
    var it := 0;
    var i := 0;
    while i < |files.items|
      invariant |files.items| == |original|
      invariant 0 <= it <= i <= |original|
      invariant files.items[..it] == Others(original[..i])
      invariant files.items[i..] == original[i..]
      invariant it + CountProFiles(original[..i]) == i
    {
      var f := files.items[i];
      assert f == original[i] && original[..i + 1] == original[..i] + [f];
      if !IsProOrPriFile(f) {
        ghost var before := files.items;
        files.items := files.items[it := f];
        assert files.items[i + 1..] == before[i + 1..];
        assert files.items[..it + 1] == before[..it] + [f];
        it := it + 1;
      }
      i := i + 1;
    }
    assert original[..i] == original;
    result := [];
    if it == |files.items| {
      return;
    }
    result := files.items[it..];
    files.items := files.items[..it];
  }

  /** Every kept entry is an entry that is not a project file, and every
      such entry is kept. */
  lemma {:induction false} OthersMembers(files: seq<UString>, f: UString)
    ensures f in Others(files) <==> f in files && !IsProOrPriFile(f)
    decreases |files|
  {
    if files != [] {
      var init := files[..|files| - 1];
      OthersMembers(init, f);
      assert files == init + [files[|files| - 1]];
    }
  }

  /** The kept entries and the project files account for every entry. */
  lemma {:induction false} OthersCount(files: seq<UString>)
    ensures |Others(files)| + CountProFiles(files) == |files|
    decreases |files|
  {
    if files != [] {
      OthersCount(files[..|files| - 1]);
    }
  }

  /** With no project file among them the entries stay as they are and
      nothing is extracted. */
  lemma {:induction false} NoProFiles(files: seq<UString>)
    requires forall i | 0 <= i < |files| :: !IsProOrPriFile(files[i])
    ensures Others(files) == files && CountProFiles(files) == 0
    decreases |files|
  {
    if files != [] {
      NoProFiles(files[..|files| - 1]);
      assert files[..|files| - 1] + [files[|files| - 1]] == files;
    }
  }

  /** Keeping the non-project files of a list that holds none changes
      nothing: the split is idempotent. */
  lemma OthersIdempotent(files: seq<UString>)
    ensures Others(Others(files)) == Others(files)
  {
    forall i | 0 <= i < |Others(files)| ensures !IsProOrPriFile(Others(files)[i]) {
      OthersMembers(files, Others(files)[i]);
    }
    NoProFiles(Others(files));
  }

  /** Splitting distributes over concatenation. */
  lemma {:induction false} OthersConcat(a: seq<UString>, b: seq<UString>)
    ensures Others(a + b) == Others(a) + Others(b)
    decreases |b|
  {
    if b == [] {
      assert a + b == a;
    } else {
      var b' := b[..|b| - 1];
      assert (a + b)[..|a + b| - 1] == a + b';
      OthersConcat(a, b');
    }
  }
}
