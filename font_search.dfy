/**
 * findJapaneseFont: a first-match search over every (directory, file name)
 * pair, directories in the outer loop and file names in the inner loop.
 * The file system is a set of existing paths; the empty-string result of
 * the Go function is None.
 */
module FontSearch {
  import opened Wrappers

  /** filepath.Join(dir, name), taken as an injective pairing of its two parts. */
  datatype Path = Join(dir: string, name: string)

  /** Candidate file names, most preferred first. */
  const FontNames: seq<string> := [
    "static/NotoSansJP-Regular.ttf",
    "NotoSansJP-Regular.ttf",
    "NotoSansJP-VariableFont_wght.ttf",
    "static/NotoSansJP-Medium.ttf",
    "static/NotoSansJP-Light.ttf",
    "static/NotoSansJP-Bold.ttf",
    "static/NotoSansJP-SemiBold.ttf",
    "static/NotoSansJP-ExtraLight.ttf",
    "static/NotoSansJP-ExtraBold.ttf",
    "static/NotoSansJP-Thin.ttf",
    "static/NotoSansJP-Black.ttf",
    "NotoSansJP-Medium.ttf",
    "NotoSansJP-Light.ttf",
    "NotoSansJP-Bold.ttf",
    "NotoSansJP-SemiBold.ttf",
    "NotoSansCJK-Regular.ttf",
    "NotoSansCJK.ttf",
    "NotoSansJP.ttf",
    "NotoSans-Regular.ttf",
    "ZenOldMincho-Regular.ttf",
    "ZenOldMincho-Medium.ttf",
    "ZenOldMincho-SemiBold.ttf",
    "ZenOldMincho-Bold.ttf",
    "ZenOldMincho-Black.ttf"
  ]

  /** Search directories, highest priority first; home is the value of $HOME. */
  function SearchDirs(home: string): (dirs: seq<string>)
    ensures |dirs| == 5
    ensures dirs[0] == "./font" && dirs[1] == "./fonts"
    ensures dirs[2] == home + "/Library/Fonts"
    ensures dirs[3] == "/Library/Fonts" && dirs[4] == "/System/Library/Fonts"
  {
    ["./font", "./fonts", home + "/Library/Fonts", "/Library/Fonts", "/System/Library/Fonts"]
  }

  /** (i', j') comes before (i, j) in the search: directory first, then file name. */
  predicate Before(i': int, j': int, i: int, j: int)
  {
    i' < i || (i' == i && j' < j)
  }

  /** The inner loop: the first name in names under dir that exists. */
  function FirstIn(dir: string, names: seq<string>, present: set<Path>): (r: Option<Path>)
    ensures r.Some? ==> r.value in present && r.value.dir == dir && r.value.name in names
  {
    if names == [] then None
    else if Join(dir, names[0]) in present then Some(Join(dir, names[0]))
    else FirstIn(dir, names[1..], present)
  }

  /** Both loops: the first existing pair in directory-major order. */
  function SearchFrom(dirs: seq<string>, names: seq<string>, present: set<Path>): (r: Option<Path>)
    ensures r.Some? ==> r.value in present && r.value.dir in dirs && r.value.name in names
  {
    if dirs == [] then None
    else match FirstIn(dirs[0], names, present)
      case Some(p) => Some(p)
      case None => SearchFrom(dirs[1..], names, present)
  }

  /** What findJapaneseFont returns for a given $HOME and file system. */
  function FindFont(home: string, present: set<Path>): Option<Path>
  {
    SearchFrom(SearchDirs(home), FontNames, present)
  }

  /** FirstIn finds the earliest existing name, and finds nothing only when no name exists. */
  lemma {:induction false} FirstInIsFirst(dir: string, names: seq<string>, present: set<Path>)
    ensures FirstIn(dir, names, present).None? <==>
      forall j :: 0 <= j < |names| ==> Join(dir, names[j]) !in present
    ensures FirstIn(dir, names, present).Some? ==>
      exists j :: 0 <= j < |names| && FirstIn(dir, names, present) == Some(Join(dir, names[j])) &&
        forall j' :: 0 <= j' < j ==> Join(dir, names[j']) !in present
  {
    if names != [] && Join(dir, names[0]) !in present {
      FirstInIsFirst(dir, names[1..], present);
      var r := FirstIn(dir, names, present);
      if r.Some? {
        var j :| 0 <= j < |names| - 1 && r == Some(Join(dir, names[1..][j])) &&
          forall j' :: 0 <= j' < j ==> Join(dir, names[1..][j']) !in present;
        assert forall j' :: 0 <= j' < j + 1 ==> Join(dir, names[j']) !in present by {
          forall j' | 0 <= j' < j + 1 ensures Join(dir, names[j']) !in present {
            if j' > 0 { assert names[j'] == names[1..][j' - 1]; }
          }
        }
      } else {
        forall j | 0 <= j < |names| ensures Join(dir, names[j]) !in present {
          if j > 0 { assert names[j] == names[1..][j - 1]; }
        }
      }
    }
  }

  /** The search finds nothing exactly when no (directory, name) pair exists. */
  lemma {:induction false} SearchFromNone(dirs: seq<string>, names: seq<string>, present: set<Path>)
    ensures SearchFrom(dirs, names, present).None? <==>
      forall i, j :: 0 <= i < |dirs| && 0 <= j < |names| ==> Join(dirs[i], names[j]) !in present
  {
    if dirs != [] {
      FirstInIsFirst(dirs[0], names, present);
      SearchFromNone(dirs[1..], names, present);
      assert forall i :: 0 < i < |dirs| ==> dirs[i] == dirs[1..][i - 1];
    }
  }

  /** No existing pair comes before (i, j) in directory-major order. */
  predicate NoneBefore(dirs: seq<string>, names: seq<string>, present: set<Path>, i: int, j: int)
  {
    forall i', j' :: 0 <= i' < |dirs| && 0 <= j' < |names| && Before(i', j', i, j) ==>
      Join(dirs[i'], names[j']) !in present
  }

  /**
   * When the search finds a path, it is Join(dirs[i], names[j]) for an existing
   * pair (i, j) such that no pair before it in directory-major order exists.
   */
  lemma {:induction false} SearchFromFirst(dirs: seq<string>, names: seq<string>, present: set<Path>)
    returns (i: nat, j: nat)
    requires SearchFrom(dirs, names, present).Some?
    ensures i < |dirs| && j < |names|
    ensures SearchFrom(dirs, names, present) == Some(Join(dirs[i], names[j]))
    ensures NoneBefore(dirs, names, present, i, j)
  {
    FirstInIsFirst(dirs[0], names, present);
    if FirstIn(dirs[0], names, present).Some? {
      j :| 0 <= j < |names| && FirstIn(dirs[0], names, present) == Some(Join(dirs[0], names[j])) &&
        forall j' :: 0 <= j' < j ==> Join(dirs[0], names[j']) !in present;
      i := 0;
    } else {
      var i1, j1 := SearchFromFirst(dirs[1..], names, present);
      i, j := i1 + 1, j1;
      ShiftNoneBefore(dirs, names, present, i1, j1);
    }
  }

  /** Pairs before (i + 1, j) are those of the first directory and those before (i, j) in the rest. */
  lemma ShiftNoneBefore(dirs: seq<string>, names: seq<string>, present: set<Path>, i: nat, j: nat)
    requires dirs != []
    requires forall j' :: 0 <= j' < |names| ==> Join(dirs[0], names[j']) !in present
    requires NoneBefore(dirs[1..], names, present, i, j)
    ensures NoneBefore(dirs, names, present, i + 1, j)
  {
    forall i', j' | 0 <= i' < |dirs| && 0 <= j' < |names| && Before(i', j', i + 1, j)
      ensures Join(dirs[i'], names[j']) !in present
    {
      if i' > 0 {
        assert Before(i' - 1, j', i, j);
        assert dirs[i'] == dirs[1..][i' - 1];
      }
    }
  }

  /**
   * findJapaneseFont's promise: the path of the first existing candidate,
   * directories before names, or None exactly when no candidate exists.
   */
  lemma FindFontIsFirstMatch(home: string, present: set<Path>)
    ensures FindFont(home, present).None? <==>
      forall i, j :: 0 <= i < 5 && 0 <= j < 24 ==> Join(SearchDirs(home)[i], FontNames[j]) !in present
    ensures FindFont(home, present).Some? ==>
      exists i, j ::
        && 0 <= i < 5 && 0 <= j < 24
        && FindFont(home, present) == Some(Join(SearchDirs(home)[i], FontNames[j]))
        && forall i', j' :: 0 <= i' < 5 && 0 <= j' < 24 && Before(i', j', i, j) ==>
                            Join(SearchDirs(home)[i'], FontNames[j']) !in present
  {
    SearchFromNone(SearchDirs(home), FontNames, present);
    if FindFont(home, present).Some? {
      var i, j := SearchFromFirst(SearchDirs(home), FontNames, present);
      assert NoneBefore(SearchDirs(home), FontNames, present, i, j);
    }
  }

  /** The nested loops of findJapaneseFont, with their early return. */
  method FirstExisting(searchDirs: seq<string>, fontNames: seq<string>, present: set<Path>) returns (r: Option<Path>)
    ensures r == SearchFrom(searchDirs, fontNames, present)
  {
    for i := 0 to |searchDirs|
      invariant SearchFrom(searchDirs, fontNames, present) == SearchFrom(searchDirs[i..], fontNames, present)
    {
      var dir := searchDirs[i];
      for j := 0 to |fontNames|
        invariant FirstIn(dir, fontNames, present) == FirstIn(dir, fontNames[j..], present)
      {
        var fontPath := Join(dir, fontNames[j]);
        if fontPath in present {
          assert FirstIn(dir, fontNames, present) == Some(fontPath);
          return Some(fontPath);
        }
        assert fontNames[j..][1..] == fontNames[j + 1..];
      }
      assert searchDirs[i..][1..] == searchDirs[i + 1..];
    }
    return None;
  }

  /** findJapaneseFont: the search over the fixed directory and file-name lists. */
  method FindJapaneseFont(home: string, present: set<Path>) returns (r: Option<Path>)
    ensures r == FindFont(home, present)
  {
    r := FirstExisting(SearchDirs(home), FontNames, present);
  }
}
