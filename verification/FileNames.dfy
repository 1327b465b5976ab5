/** File names of the rotating sink: split_by_extension of include/spdlog/details/file_helper-inl.h and
    calc_filename of include/spdlog/sinks/rotating_file_sink-inl.h. */
module FileNames {
  import opened Decimal

  const FOLDER_SEPARATOR := '/'

  /** The index of the last `c` in `s`, or -1. */
  function LastIndexOf(s: string, c: char): (i: int)
    ensures -1 <= i < |s|
    ensures i >= 0 ==> s[i] == c
    ensures forall k :: i < k < |s| ==> s[k] != c
  {
    if s == [] then -1
    else if s[|s| - 1] == c then |s| - 1
    else LastIndexOf(s[..|s| - 1], c)
  }

  /** A path and its extension, which is empty or starts with the dot. */
  function SplitByExtension(fname: string): (string, string) {
    var dot := LastIndexOf(fname, '.');
    if dot == -1 || dot == 0 || dot == |fname| - 1 then (fname, "")
    else
      var folder := LastIndexOf(fname, FOLDER_SEPARATOR);
      if folder != -1 && folder >= dot - 1 then (fname, "")
      else (fname[..dot], fname[dot..])
  }

  /** A dot that starts an extension: neither the first character of the file's own name nor the last of the
      path, with no dot and no folder after it. */
  ghost predicate StartsExtension(fname: string, dot: nat) {
    && 0 < dot < |fname| - 1 && fname[dot] == '.' && fname[dot - 1] != '/'
    && forall k :: dot < k < |fname| ==> fname[k] != '.' && fname[k] != '/'
  }

  /** The split loses nothing, and finds an extension exactly when there is one: hidden files and trailing dots
      have none. */
  lemma SplitFindsExtension(fname: string)
    ensures var (stem, ext) := SplitByExtension(fname);
            && stem + ext == fname
            && (ext != "" <==> exists dot: nat :: StartsExtension(fname, dot))
            && (forall dot: nat :: StartsExtension(fname, dot) ==> stem == fname[..dot] && ext == fname[dot..])
  {
    var dot := LastIndexOf(fname, '.');
    var (stem, ext) := SplitByExtension(fname);
    forall d: nat | StartsExtension(fname, d) ensures d == dot && ext == fname[dot..] && ext != "" {
      assert d == dot;
    }
    if ext != "" {
      assert StartsExtension(fname, dot);
    }
  }

  /** The name of the file that is `index` rotations old. */
  function CalcFilename(fname: string, index: nat): string {
    if index == 0 then fname
    else
      var (stem, ext) := SplitByExtension(fname);
      stem + "." + Digits(index) + ext
  }

  /** The current file has the name itself; an older one has its number before the extension, if there is one, and
      at the end otherwise. */
  lemma RotatedName(fname: string, index: nat) returns (number: string)
    ensures IsNumeral(number, index)
    ensures index == 0 ==> CalcFilename(fname, index) == fname
    ensures forall dot: nat :: index > 0 && StartsExtension(fname, dot) ==>
              CalcFilename(fname, index) == fname[..dot] + "." + number + fname[dot..]
    ensures index > 0 && !(exists dot: nat :: StartsExtension(fname, dot)) ==>
              CalcFilename(fname, index) == fname + "." + number
  {
    number := Digits(index);
    DigitsAreNumeral(index);
    SplitFindsExtension(fname);
    var (stem, ext) := SplitByExtension(fname);
    if ext == "" {
      assert stem + ext == stem && stem + "." + number + ext == stem + "." + number;
    }
  }

  /** The first backup of the proxy's own log. */
  lemma FirstBackup()
    ensures CalcFilename("fileCacheProxy.log", 1) == "fileCacheProxy.1.log"
  {
    var fname := "fileCacheProxy.log";
    assert StartsExtension(fname, 14);
    SplitFindsExtension(fname);
    assert fname[..14] == "fileCacheProxy" && fname[14..] == ".log";
    assert Digits(1) == "1";
  }

  /** No two rotated files share a name. */
  lemma CalcFilenameInjective(fname: string, i: nat, j: nat)
    requires CalcFilename(fname, i) == CalcFilename(fname, j)
    ensures i == j
  {
    var (stem, ext) := SplitByExtension(fname);
    SplitFindsExtension(fname);
    if i == 0 || j == 0 {
      assert i != 0 ==> |CalcFilename(fname, i)| > |fname|;
      assert j != 0 ==> |CalcFilename(fname, j)| > |fname|;
    } else {
      var a, b := CalcFilename(fname, i), CalcFilename(fname, j);
      assert a[|stem| + 1..|a| - |ext|] == Digits(i);
      assert b[|stem| + 1..|b| - |ext|] == Digits(j);
      DigitsRoundTrip(i);
      DigitsRoundTrip(j);
    }
  }
}
