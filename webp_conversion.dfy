/**
  The offline image-conversion script. It walks the image directory depth
  first; for every file whose lower-cased extension is `.png`, `.jpg` or
  `.jpeg` it derives the `.webp` output path, skips the file when that
  output exists and is strictly newer, and otherwise converts it, logging
  and swallowing any conversion error.

  The file system is a tree of entries (what `readdirSync` returns) plus a
  map from existing paths to modification times (what `existsSync` and
  `statSync` answer). A successful conversion writes the output with time
  `now`. Which conversions fail is given as a set of input paths; besides
  those, the encoder refuses to write over its own input.
*/
module WebpConversion {
  import opened Wrappers

  type Path = string

  /** The directory the script starts from. */
  const ImagesDir: Path := "./public/images"

  /** The extensions that are converted. */
  const ImageExtensions: seq<string> := [".png", ".jpg", ".jpeg"]

  /** A directory entry: anything that is not a directory is a file. */
  datatype Entry = File(name: string) | Dir(name: string, entries: seq<Entry>)

  // ---------------------------------------------------------------------------
  // Strings and paths
  // ---------------------------------------------------------------------------

  /** `path.join(dir, name)` for an entry name (no separators): a leading
      `./` of `dir` is normalised away. */
  function Join(dir: Path, name: string): (p: Path)
    ensures EndsWith(p, "/" + name)
    ensures var d := p[..|p| - |name| - 1]; d == dir || "./" + d == dir
    ensures '/' !in name ==> Basename(p) == name
  {
    var d := Normalized(dir);
    if '/' in name then d + "/" + name
    else
      BasenameOf(d, name);
      d + "/" + name
  }

  /** `dir` with a leading `./` removed, as `path.join` does. */
  function Normalized(dir: Path): (d: Path)
    ensures d == dir || "./" + d == dir
  {
    if |dir| >= 2 && dir[..2] == "./" then dir[2..] else dir
  }

  /** `prefix` starts `s`. */
  predicate StartsWith(s: string, prefix: string)
  {
    |prefix| <= |s| && s[..|prefix|] == prefix
  }

  /** A directory path that `Join` passes on as it is, once normalised: it
      is neither `.` nor starts with a second `./`. */
  predicate Settled(dir: Path)
  {
    Normalized(dir) != "." && !StartsWith(Normalized(dir), "./")
  }

  /** The position of the last `c` in `s`. */
  function LastIndexOf(s: string, c: char): (r: Option<nat>)
    ensures r.None? ==> c !in s
    ensures r.Some? ==> r.value < |s| && s[r.value] == c && c !in s[r.value + 1..]
  {
    if s == [] then None
    else if s[|s| - 1] == c then Some(|s| - 1)
    else
      var r := LastIndexOf(s[..|s| - 1], c);
      assert s == s[..|s| - 1] + [s[|s| - 1]];
      r
  }

  /** `suffix` ends `s`. */
  predicate EndsWith(s: string, suffix: string)
  {
    |suffix| <= |s| && s[|s| - |suffix|..] == suffix
  }

  /** The last path component. */
  function Basename(p: Path): (base: string)
    ensures |base| <= |p| && p[|p| - |base|..] == base
    ensures '/' !in base
  {
    match LastIndexOf(p, '/')
    case None => p
    case Some(k) => p[k + 1..]
  }

  /** `path.extname`: from the last dot of the last component to its end;
      empty when there is no dot, when the dot starts the component (a
      dot-file) and for the component `..`. */
  function Extname(p: Path): (ext: string)
    ensures ext == [] || (ext[0] == '.' && '.' !in ext[1..])
    ensures '/' !in ext
    ensures EndsWith(p, ext)
  {
    var base := Basename(p);
    if base == ".." then []
    else
      match LastIndexOf(base, '.')
      case None => []
      case Some(k) =>
        if k == 0 then []
        else
          assert base[k..][1..] == base[k + 1..];
          base[k..]
  }

  /** Lower-casing, for ASCII letters. */
  function LowerChar(c: char): (r: char)
    ensures 'A' <= c <= 'Z' ==> r as int == c as int + 32
    ensures !('A' <= c <= 'Z') ==> r == c
  {
    if 'A' <= c <= 'Z' then (c as int + 32) as char else c
  }

  function ToLower(s: string): (r: string)
    ensures |r| == |s|
    ensures forall i :: 0 <= i < |s| ==> r[i] == LowerChar(s[i])
  {
    seq(|s|, i requires 0 <= i < |s| => LowerChar(s[i]))
  }

  /** `pat` occurs in `s` at position `j`. */
  predicate MatchAt(s: string, pat: string, j: nat)
  {
    j + |pat| <= |s| && s[j..j + |pat|] == pat
  }

  /** The first occurrence of `pat` in `s` at or after `from`. */
  function IndexFrom(s: string, pat: string, from: nat): (r: Option<nat>)
    ensures r.Some? ==> from <= r.value && MatchAt(s, pat, r.value)
    ensures forall j: nat :: from <= j && (r.None? || j < r.value) ==> !MatchAt(s, pat, j)
    decreases |s| - from
  {
    if from + |pat| > |s| then None
    else if s[from..from + |pat|] == pat then Some(from)
    else IndexFrom(s, pat, from + 1)
  }

  /** `s.indexOf(pat)`. */
  function IndexOf(s: string, pat: string): (r: Option<nat>)
    ensures r.Some? ==> MatchAt(s, pat, r.value)
    ensures forall j: nat :: (r.None? || j < r.value) ==> !MatchAt(s, pat, j)
  {
    IndexFrom(s, pat, 0)
  }

  /** `s.replace(pat, rep)` with a string pattern: only the first
      occurrence is replaced; without one, `s` is returned unchanged. */
  function ReplaceFirst(s: string, pat: string, rep: string): (r: string)
    ensures IndexOf(s, pat).None? ==> r == s
    ensures IndexOf(s, pat).Some? ==>
      var k := IndexOf(s, pat).value;
      && |r| == |s| - |pat| + |rep|
      && r[..k] == s[..k]
      && MatchAt(r, rep, k)
      && r[k + |rep|..] == s[k + |pat|..]
  {
    match IndexOf(s, pat)
    case None => s
    case Some(k) => s[..k] + rep + s[k + |pat|..]
  }

  /** The output path the script derives: the first occurrence of the
      lower-cased extension replaced by `.webp`. */
  function OutputPath(input: Path): (output: Path)
    ensures var ext := ToLower(Extname(input));
      && (IndexOf(input, ext).None? ==> output == input)
      && (IndexOf(input, ext).Some? ==>
            |output| == |input| - |ext| + 5 && MatchAt(output, ".webp", IndexOf(input, ext).value))
  {
    ReplaceFirst(input, ToLower(Extname(input)), ".webp")
  }

  // ---------------------------------------------------------------------------
  // One file
  // ---------------------------------------------------------------------------

  /** What `convertToWebP` decides before its `try`. */
  datatype Decision = NotAnImage | UpToDate(output: Path) | Convert(output: Path)

  function Decide(input: Path, stamps: map<Path, int>): (d: Decision)
    requires input in stamps
    ensures d.NotAnImage? <==> ToLower(Extname(input)) !in ImageExtensions
    ensures !d.NotAnImage? ==> d.output == OutputPath(input)
    ensures d.UpToDate? <==> !d.NotAnImage? && d.output in stamps && stamps[d.output] > stamps[input]
  {
    var ext := ToLower(Extname(input));
    if ext !in ImageExtensions then NotAnImage
    else
      var output := ReplaceFirst(input, ext, ".webp");
      if output in stamps && stamps[output] > stamps[input] then UpToDate(output)
      else Convert(output)
  }

  /** One line of the script's output, per file visited. */
  datatype Action =
    | Ignored(input: Path)
    | Skipped(input: Path)
    | Converted(input: Path, output: Path)
    | Failed(input: Path, output: Path)

  /** The modification times of the existing paths, and the log so far. */
  datatype Disk = Disk(stamps: map<Path, int>, log: seq<Action>)

  function Inputs(log: seq<Action>): (r: seq<Path>)
    ensures |r| == |log|
    ensures forall i :: 0 <= i < |log| ==> r[i] == log[i].input
  {
    seq(|log|, i requires 0 <= i < |log| => log[i].input)
  }

  /** The encoder succeeds unless the input is listed as failing or the
      output path is the input path itself. */
  predicate EncodeSucceeds(input: Path, output: Path, failing: set<Path>)
  {
    output != input && input !in failing
  }

  /** `convertToWebP(input)`: log one action; a successful conversion
      writes the output file, and nothing else on disk changes. */
  function ConvertOne(input: Path, st: Disk, failing: set<Path>, now: int): (r: Disk)
    requires input in st.stamps
    ensures |r.log| == |st.log| + 1 && r.log[..|st.log|] == st.log && r.log[|st.log|].input == input
    ensures r.log[|st.log|].Converted? ==> r.stamps == st.stamps[OutputPath(input) := now]
    ensures !r.log[|st.log|].Converted? ==> r.stamps == st.stamps
    ensures r.log[|st.log|].Converted? ==> r.log[|st.log|].output == OutputPath(input)
    ensures r.log[|st.log|].Failed? ==> r.log[|st.log|].output == OutputPath(input)
    ensures r.log[|st.log|].Ignored? <==> Decide(input, st.stamps).NotAnImage?
    ensures r.log[|st.log|].Skipped? <==> Decide(input, st.stamps).UpToDate?
    ensures r.log[|st.log|].Failed? <==>
      Decide(input, st.stamps).Convert? && !EncodeSucceeds(input, OutputPath(input), failing)
    ensures r.log[|st.log|].Converted? <==>
      ToLower(Extname(input)) in ImageExtensions
      && !(OutputPath(input) in st.stamps && st.stamps[OutputPath(input)] > st.stamps[input])
      && EncodeSucceeds(input, OutputPath(input), failing)
  {
    match Decide(input, st.stamps)
    case NotAnImage => st.(log := st.log + [Ignored(input)])
    case UpToDate(_) => st.(log := st.log + [Skipped(input)])
    case Convert(output) =>
      if EncodeSucceeds(input, output, failing) then Disk(st.stamps[output := now], st.log + [Converted(input, output)])
      else st.(log := st.log + [Failed(input, output)])
  }

  // ---------------------------------------------------------------------------
  // The walk
  // ---------------------------------------------------------------------------

  /** The reference order: every file under `dir`, depth first, each
      directory's entries in the order `readdirSync` gave them. */
  function FilePaths(dir: Path, entries: seq<Entry>): seq<Path>
    decreases entries
  {
    if entries == [] then [] else EntryPaths(dir, entries[0]) + FilePaths(dir, entries[1..])
  }

  function EntryPaths(dir: Path, entry: Entry): seq<Path>
    decreases entry
  {
    match entry
    case File(name) => [Join(dir, name)]
    case Dir(name, entries) => FilePaths(Join(dir, name), entries)
  }

  /** Every file the walk lists under `dir` lies under `dir`: its path is the
      normalised `dir`, a separator, and the rest. */
  lemma {:induction false} FilePathsUnderDir(dir: Path, entries: seq<Entry>)
    requires Settled(dir)
    ensures forall q :: q in FilePaths(dir, entries) ==> StartsWith(q, Normalized(dir) + "/")
    decreases entries
  {
    if entries != [] {
      EntryPathsUnderDir(dir, entries[0]);
      FilePathsUnderDir(dir, entries[1..]);
    }
  }

  lemma {:induction false} EntryPathsUnderDir(dir: Path, entry: Entry)
    requires Settled(dir)
    ensures forall q :: q in EntryPaths(dir, entry) ==> StartsWith(q, Normalized(dir) + "/")
    decreases entry
  {
    JoinSettled(dir, entry.name);
    var sub := Join(dir, entry.name);
    PrefixOfPrefix(sub, Normalized(dir) + "/", entry.name);
    match entry
    case File(name) =>
    case Dir(name, entries) =>
      FilePathsUnderDir(sub, entries);
      forall q | q in FilePaths(sub, entries)
        ensures StartsWith(q, Normalized(dir) + "/")
      {
        PrefixOfPrefix(q, Normalized(dir) + "/", entry.name + "/");
        assert Normalized(dir) + "/" + (entry.name + "/") == sub + "/";
      }
  }

  /** Joining onto a settled directory gives a settled directory, which a
      further `Join` leaves unnormalised. */
  lemma JoinSettled(dir: Path, name: string)
    requires Settled(dir)
    ensures Join(dir, name) == Normalized(dir) + "/" + name
    ensures Normalized(Join(dir, name)) == Join(dir, name)
    ensures Settled(Join(dir, name))
  {
    var d := Normalized(dir);
    var p := d + "/" + name;
    if |d| == 0 {
      assert p[0] == '/';
    } else if |d| == 1 {
      assert p[0] == d[0] && p[1] == '/';
    } else {
      assert p[..2] == d[..2];
    }
  }

  lemma PrefixOfPrefix(s: string, a: string, b: string)
    requires StartsWith(s, a + b)
    ensures StartsWith(s, a)
  {
    assert s[..|a|] == (a + b)[..|a|];
  }

  /** Every file the script visits lies under `public/images/`. */
  lemma WalkStaysUnderImages(entries: seq<Entry>)
    ensures forall q :: q in FilePaths(ImagesDir, entries) ==> StartsWith(q, "public/images/")
  {
    var rest := "public/images";
    assert ImagesDir == "./" + rest;
    assert ImagesDir[..2] == "./" && ImagesDir[2..] == rest;
    assert rest[1] != '/';
    FilePathsUnderDir(ImagesDir, entries);
  }

  /** Every file the walk meets exists, so `statSync` on it succeeds. */
  predicate Listed(paths: seq<Path>, stamps: map<Path, int>)
  {
    forall p :: p in paths ==> p in stamps
  }

  /** `log` records a conversion that wrote `p`. */
  predicate Written(log: seq<Action>, p: Path)
  {
    exists a :: a in log && a.Converted? && a.output == p
  }

  /** The paths whose time differs between `before` and `after`, or that
      only exist `after`, all carry the time `now` and were written by a
      conversion in `log`. */
  predicate OnlyWrites(before: map<Path, int>, after: map<Path, int>, log: seq<Action>, now: int)
  {
    forall p :: p in after && (p !in before || after[p] != before[p]) ==> after[p] == now && Written(log, p)
  }

  /** The reference run: `convertToWebP` on each path in turn, each call
      seeing the disk the previous one left. */
  function ConvertAll(paths: seq<Path>, st: Disk, failing: set<Path>, now: int): (r: Disk)
    requires Listed(paths, st.stamps)
    ensures st.stamps.Keys <= r.stamps.Keys
    ensures |st.log| <= |r.log| && r.log[..|st.log|] == st.log
    ensures Inputs(r.log[|st.log|..]) == paths
    ensures OnlyWrites(st.stamps, r.stamps, r.log[|st.log|..], now)
    decreases |paths|
  {
    if paths == [] then st
    else
      var mid := ConvertOne(paths[0], st, failing, now);
      OneRun(paths[0], st, mid, now);
      var r := ConvertAll(paths[1..], mid, failing, now);
      ComposeRuns(st, mid, r, now, [paths[0]], paths[1..]);
      r
  }

  /** One call of `convertToWebP` as a run: it logs its input and writes
      at most the output it logs. */
  lemma OneRun(input: Path, st: Disk, mid: Disk, now: int)
    requires |mid.log| == |st.log| + 1 && mid.log[..|st.log|] == st.log && mid.log[|st.log|].input == input
    requires mid.log[|st.log|].Converted? ==> mid.stamps == st.stamps[mid.log[|st.log|].output := now]
    requires !mid.log[|st.log|].Converted? ==> mid.stamps == st.stamps
    ensures st.stamps.Keys <= mid.stamps.Keys
    ensures Inputs(mid.log[|st.log|..]) == [input]
    ensures OnlyWrites(st.stamps, mid.stamps, mid.log[|st.log|..], now)
  {
    var a := mid.log[|st.log|..];
    assert a == [mid.log[|st.log|]];
    assert mid.log[|st.log|] in a;
  }

  /** Running over `xs + ys` is running over `xs`, then over `ys` from
      where that left the disk. */
  lemma {:induction false} ConvertAllAppend(xs: seq<Path>, ys: seq<Path>, st: Disk, failing: set<Path>, now: int)
    requires Listed(xs + ys, st.stamps)
    ensures Listed(xs, st.stamps) && Listed(ys, ConvertAll(xs, st, failing, now).stamps)
    ensures ConvertAll(xs + ys, st, failing, now) == ConvertAll(ys, ConvertAll(xs, st, failing, now), failing, now)
    decreases |xs|
  {
    assert forall p :: p in xs ==> p in xs + ys;
    assert forall p :: p in ys ==> p in xs + ys;
    if xs == [] {
      assert xs + ys == ys;
    } else {
      assert (xs + ys)[0] == xs[0] && (xs + ys)[1..] == xs[1..] + ys;
      ConvertAllAppend(xs[1..], ys, ConvertOne(xs[0], st, failing, now), failing, now);
    }
  }

  /** `processDirectory(dir)` over the entries read from `dir`: the
      reference run over its files, depth first, in listing order. */
  function Walk(dir: Path, entries: seq<Entry>, st: Disk, failing: set<Path>, now: int): (r: Disk)
    requires Listed(FilePaths(dir, entries), st.stamps)
    ensures r == ConvertAll(FilePaths(dir, entries), st, failing, now)
    ensures st.stamps.Keys <= r.stamps.Keys
    ensures |st.log| <= |r.log| && r.log[..|st.log|] == st.log
    ensures Inputs(r.log[|st.log|..]) == FilePaths(dir, entries)
    ensures OnlyWrites(st.stamps, r.stamps, r.log[|st.log|..], now)
    decreases entries
  {
    if entries == [] then st
    else
      ConvertAllAppend(EntryPaths(dir, entries[0]), FilePaths(dir, entries[1..]), st, failing, now);
      var mid := Visit(dir, entries[0], st, failing, now);
      Walk(dir, entries[1..], mid, failing, now)
  }

  /** Two runs one after the other: the second run's log follows the
      first's, and what each wrote is what both wrote. */
  lemma ComposeRuns(st: Disk, mid: Disk, r: Disk, now: int, first: seq<Path>, rest: seq<Path>)
    requires |st.log| <= |mid.log| && mid.log[..|st.log|] == st.log
    requires |mid.log| <= |r.log| && r.log[..|mid.log|] == mid.log
    requires st.stamps.Keys <= mid.stamps.Keys
    requires Inputs(mid.log[|st.log|..]) == first && Inputs(r.log[|mid.log|..]) == rest
    requires OnlyWrites(st.stamps, mid.stamps, mid.log[|st.log|..], now)
    requires OnlyWrites(mid.stamps, r.stamps, r.log[|mid.log|..], now)
    ensures |st.log| <= |r.log| && r.log[..|st.log|] == st.log
    ensures Inputs(r.log[|st.log|..]) == first + rest
    ensures OnlyWrites(st.stamps, r.stamps, r.log[|st.log|..], now)
  {
    var a, b := mid.log[|st.log|..], r.log[|mid.log|..];
    assert r.log[|st.log|..] == a + b;
    assert Inputs(a + b) == Inputs(a) + Inputs(b);
    forall p | p in r.stamps && (p !in st.stamps || r.stamps[p] != st.stamps[p])
      ensures r.stamps[p] == now && Written(a + b, p)
    {
      if p in mid.stamps && (p !in st.stamps || mid.stamps[p] != st.stamps[p]) {
        var x :| x in a && x.Converted? && x.output == p;
        assert x in a + b;
      } else {
        var x :| x in b && x.Converted? && x.output == p;
        assert x in a + b;
      }
    }
  }

  /** One entry of the loop: a directory is walked, a file is converted. */
  function Visit(dir: Path, entry: Entry, st: Disk, failing: set<Path>, now: int): (r: Disk)
    requires Listed(EntryPaths(dir, entry), st.stamps)
    ensures r == ConvertAll(EntryPaths(dir, entry), st, failing, now)
    ensures entry.File? ==> r == ConvertOne(Join(dir, entry.name), st, failing, now)
    ensures st.stamps.Keys <= r.stamps.Keys
    ensures |st.log| <= |r.log| && r.log[..|st.log|] == st.log
    ensures Inputs(r.log[|st.log|..]) == EntryPaths(dir, entry)
    ensures OnlyWrites(st.stamps, r.stamps, r.log[|st.log|..], now)
    decreases entry
  {
    match entry
    case File(name) =>
      var p := Join(dir, name);
      assert [p][0] == p && [p][1..] == [];
      ConvertOne(p, st, failing, now)
    case Dir(name, entries) => Walk(Join(dir, name), entries, st, failing, now)
  }

  // ---------------------------------------------------------------------------
  // Properties
  // ---------------------------------------------------------------------------

  /** `LastIndexOf` finds the one position holding `c` with no `c` after it. */
  lemma LastIndexOfIs(s: string, c: char, k: nat)
    requires k < |s| && s[k] == c && c !in s[k + 1..]
    ensures LastIndexOf(s, c) == Some(k)
  {
    assert s[k] in s;
    var r := LastIndexOf(s, c).value;
    assert forall j :: k < j < |s| ==> s[j] == s[k + 1..][j - k - 1];
    assert forall j :: r < j < |s| ==> s[j] == s[r + 1..][j - r - 1];
  }

  /** The last component of `dir/base`, for a `base` without separators,
      is `base`. */
  lemma BasenameOf(dir: Path, base: string)
    requires '/' !in base
    ensures Basename(dir + "/" + base) == base
  {
    var p := dir + "/" + base;
    assert p[|dir| + 1..] == base;
    assert forall i :: |dir| + 1 <= i < |p| ==> p[i] == base[i - |dir| - 1];
    LastIndexOfIs(p, '/', |dir|);
  }

  /** The last dot of `stem ext`, for an extension that is a dot followed
      by no other dot, is the one starting `ext`, whatever dots the stem
      holds. */
  lemma LastDotOf(stem: string, ext: string)
    requires ext != [] && ext[0] == '.' && '.' !in ext[1..]
    ensures LastIndexOf(stem + ext, '.') == Some(|stem|)
    ensures (stem + ext)[|stem|..] == ext
  {
    var base := stem + ext;
    assert forall i :: |stem| < i < |base| ==> base[i] == ext[1..][i - |stem| - 1];
    LastIndexOfIs(base, '.', |stem|);
  }

  /** The extension of a path whose last component is `stem ext`, for a
      non-empty stem. A non-empty `ext` is a dot followed by no other dot,
      and is the extension whatever dots the stem holds (`logo.min.png`,
      `.hero.png`), except for the component `..`. An empty `ext` is the
      extension of a stem with no dot after its first character (`README`,
      `.gitignore`) and of `..`. With `BasenameOf`, this is the extension
      of `dir/stem ext`. */
  lemma ExtnameOf(p: Path, stem: string, ext: string)
    requires Basename(p) == stem + ext
    requires stem != []
    requires ext == [] ==> stem == ".." || '.' !in stem[1..]
    requires ext != [] ==> ext[0] == '.' && '.' !in ext[1..] && stem + ext != ".."
    ensures Extname(p) == ext
  {
    var base := stem + ext;
    if ext == [] {
      assert base == stem;
      if base != ".." {
        assert base[1..] == stem[1..];
        if stem[0] == '.' {
          LastIndexOfIs(base, '.', 0);
        } else {
          assert forall i :: 1 <= i < |base| ==> base[i] == stem[1..][i - 1];
          assert '.' !in base;
        }
      }
    } else {
      LastDotOf(stem, ext);
    }
  }

  /** The same for a file `stem ext` of a directory `dir`. */
  lemma ExtnameInDir(dir: Path, stem: string, ext: string)
    requires '/' !in stem + ext && stem != []
    requires ext == [] ==> stem == ".." || '.' !in stem[1..]
    requires ext != [] ==> ext[0] == '.' && '.' !in ext[1..] && stem + ext != ".."
    ensures Extname(dir + "/" + (stem + ext)) == ext
  {
    BasenameOf(dir, stem + ext);
    ExtnameOf(dir + "/" + (stem + ext), stem, ext);
  }

  /** A name with more than one dot has the extension after its last dot. */
  lemma ExtnameOfDottedName()
    ensures Extname("public/images/logo.min.png") == ".png"
  {
    assert "public/images/logo.min.png" == "public/images" + "/" + ("logo.min" + ".png");
    ExtnameInDir("public/images", "logo.min", ".png");
  }

  /** A dot-file has an extension when its name has a second dot. */
  lemma ExtnameOfDotFile()
    ensures Extname("public/images/.hero.png") == ".png"
  {
    assert "public/images/.hero.png" == "public/images" + "/" + (".hero" + ".png");
    ExtnameInDir("public/images", ".hero", ".png");
  }

  /** A dot-file without a second dot has none. */
  lemma NoExtnameOfDotFile()
    ensures Extname("public/images/.gitignore") == ""
  {
    var name := ".gitignore";
    assert name[1..] == "gitignore";
    assert "public/images/.gitignore" == "public/images" + "/" + (name + "");
    ExtnameInDir("public/images", name, "");
  }

  /** `IndexOf` finds a match with no match before it. */
  lemma IndexOfIs(s: string, pat: string, k: nat)
    requires MatchAt(s, pat, k)
    requires forall j: nat :: j < k ==> !MatchAt(s, pat, j)
    ensures IndexOf(s, pat) == Some(k)
  {
  }

  /** The image extensions are already lower case. */
  lemma ImageExtensionsLowerCase(ext: string)
    requires ext in ImageExtensions
    ensures ToLower(ext) == ext
  {
    assert ext == ".png" || ext == ".jpg" || ext == ".jpeg";
  }

  /** When the lower-cased extension does not occur in the path (an
      upper-case `.PNG`, say), the output path is the input path itself, so
      the encoder is asked to overwrite its input: the file is never
      converted, and every run logs the same failure. */
  lemma UnmatchedExtensionFails(input: Path, st: Disk, failing: set<Path>, now: int)
    requires input in st.stamps
    requires ToLower(Extname(input)) in ImageExtensions
    requires IndexOf(input, ToLower(Extname(input))) == None
    ensures OutputPath(input) == input
    ensures ConvertOne(input, st, failing, now) == Disk(st.stamps, st.log + [Failed(input, input)])
  {
  }

  /** The walk names a file `name` of the image directory
      `public/images/name`. */
  lemma JoinImagesDir(name: string)
    ensures Join(ImagesDir, name) == "public/images/" + name
  {
  }

  /** The only dot of `input` is the one that starts its ending `ext`. */
  predicate SoleDotStarts(input: Path, ext: string)
  {
    && EndsWith(input, ext) && ext != [] && ext[0] == '.' && '.' !in ext[1..]
    && '.' !in input[..|input| - |ext|]
  }

  /** A path whose only dot starts its extension is described by it. */
  lemma SoleDotStartsExtname(input: Path)
    requires Extname(input) != [] && '.' !in input[..|input| - |Extname(input)|]
    ensures SoleDotStarts(input, Extname(input))
  {
  }

  /** Any dot of such a path is that one. */
  lemma OnlyDotStartsExtension(input: Path, ext: string, j: nat)
    requires SoleDotStarts(input, ext)
    requires j < |input| && input[j] == '.'
    ensures j == |input| - |ext|
  {
    var k := |input| - |ext|;
    forall i | 0 <= i < k
      ensures input[i] != '.'
    {
      assert input[..k][i] == input[i];
    }
    forall i | k < i < |input|
      ensures input[i] != '.'
    {
      assert input[k..][i - k] == input[i];
      assert ext[1..][i - k - 1] == input[i];
    }
  }

  /** Lower-casing the upper-case spellings of the image extensions. */
  lemma LowerCaseSpellings()
    ensures ToLower(".PNG") == ".png" && ToLower(".JPG") == ".jpg" && ToLower(".JPEG") == ".jpeg"
    ensures ToLower(".svg") == ".svg" && ToLower(".webp") == ".webp"
    ensures ToLower(".SVG") == ".svg" && ToLower(".WEBP") == ".webp"
  {
  }

  /** In a path whose only dot starts its extension, a pattern that starts
      with a dot matches nowhere before the extension. */
  lemma NoMatchBeforeExtension(input: Path, ext: string, pat: string)
    requires SoleDotStarts(input, ext)
    requires pat != [] && pat[0] == '.'
    ensures forall j: nat :: j < |input| - |ext| ==> !MatchAt(input, pat, j)
  {
    forall j: nat | j < |input| - |ext|
      ensures !MatchAt(input, pat, j)
    {
      if j + |pat| <= |input| {
        assert input[j..j + |pat|][0] == input[j];
        if input[j] == '.' {
          OnlyDotStartsExtension(input, ext, j);
        }
      }
    }
  }

  /** A file whose only dot starts a lower-case extension has that
      extension replaced by `.webp`; the image extensions are lower case
      (`ImageExtensionsLowerCase`). */
  lemma OutputPathReplacesExtension(input: Path)
    requires Extname(input) != [] && ToLower(Extname(input)) == Extname(input)
    requires '.' !in input[..|input| - |Extname(input)|]
    ensures OutputPath(input) == input[..|input| - |Extname(input)|] + ".webp"
  {
    var ext := Extname(input);
    SoleDotStartsExtname(input);
    ReplaceSoleExtension(input, ext, ".webp");
    assert OutputPath(input) == ReplaceFirst(input, ext, ".webp");
  }

  /** Replacing the extension of a path whose only dot starts it. */
  lemma ReplaceSoleExtension(input: Path, ext: string, rep: string)
    requires SoleDotStarts(input, ext)
    ensures ReplaceFirst(input, ext, rep) == input[..|input| - |ext|] + rep
  {
    NoMatchBeforeExtension(input, ext, ext);
    assert input[|input| - |ext|..] == ext;
    IndexOfIs(input, ext, |input| - |ext|);
    assert input[|input| - |ext| + |ext|..] == [];
  }

  /** Replacing the first occurrence of a pattern that also ends the
      string, when an earlier occurrence exists, leaves that end alone. */
  lemma ReplaceFirstKeepsEnd(s: string, pat: string, rep: string, k: nat)
    requires EndsWith(s, pat)
    requires MatchAt(s, pat, k) && k + |pat| <= |s| - |pat|
    ensures |ReplaceFirst(s, pat, rep)| == |s| - |pat| + |rep|
    ensures EndsWith(ReplaceFirst(s, pat, rep), pat)
  {
    var i := IndexOf(s, pat).value;
    assert i <= k;
    var head := s[..i] + rep;
    var tail := s[i + |pat|..];
    var r := head + tail;
    assert ReplaceFirst(s, pat, rep) == r;
    assert |tail| >= |pat|;
    forall t | 0 <= t < |pat|
      ensures r[|r| - |pat| + t] == pat[t]
    {
      assert r[|r| - |pat| + t] == tail[|tail| - |pat| + t];
      assert tail[|tail| - |pat| + t] == s[|s| - |pat| + t];
      assert s[|s| - |pat|..][t] == s[|s| - |pat| + t];
    }
  }

  /** When the extension also occurs earlier in the path (a directory
      named `icons.png`, say), that earlier occurrence is the one replaced:
      the output path keeps the original extension at its end. */
  lemma EarlierOccurrenceReplaced(input: Path, ext: string, k: nat)
    requires ext == Extname(input) && ToLower(ext) == ext
    requires MatchAt(input, ext, k) && k + |ext| <= |input| - |ext|
    ensures |OutputPath(input)| == |input| - |ext| + 5
    ensures EndsWith(OutputPath(input), ext)
  {
    var e := Extname(input);
    assert EndsWith(input, e);
    assert OutputPath(input) == ReplaceFirst(input, e, ".webp");
    ReplaceFirstKeepsEnd(input, e, ".webp", k);
  }

  /** In a path whose only dot starts its extension, a spelling of the
      extension that differs in its first letter matches nowhere. */
  lemma LowerSpellingAbsent(input: Path, ext: string, lower: string)
    requires SoleDotStarts(input, ext)
    requires |lower| == |ext| >= 2 && lower[0] == '.' && lower[1] != ext[1]
    ensures IndexOf(input, lower) == None
  {
    var k := |input| - |ext|;
    NoMatchBeforeExtension(input, ext, lower);
    forall j: nat | k <= j
      ensures !MatchAt(input, lower, j)
    {
      if j == k {
        assert input[k..k + |lower|] == input[k..] == ext;
        assert ext[1] != lower[1];
      }
    }
  }

  /** The upper-case spellings of the image extensions lower-case to an
      image extension that differs from them in its first letter. */
  lemma UpperSpellings(ext: string)
    requires ext in [".PNG", ".JPG", ".JPEG"]
    ensures ToLower(ext) in ImageExtensions
    ensures |ToLower(ext)| == |ext| >= 2 && ToLower(ext)[0] == '.' && ToLower(ext)[1] != ext[1]
  {
    LowerCaseSpellings();
  }

  /** A file whose only dot starts an upper-case `.PNG`, `.JPG` or `.JPEG`
      is never converted: the lower-cased extension occurs nowhere in its
      path, so the output path is the input path itself and the encoder
      refuses it. The same failure is logged on every run. */
  lemma UpperCaseExtensionNeverConverted(input: Path, st: Disk, failing: set<Path>, now: int)
    requires input in st.stamps
    requires Extname(input) in [".PNG", ".JPG", ".JPEG"]
    requires '.' !in input[..|input| - |Extname(input)|]
    ensures OutputPath(input) == input
    ensures ConvertOne(input, st, failing, now) == Disk(st.stamps, st.log + [Failed(input, input)])
  {
    var ext := Extname(input);
    UpperSpellings(ext);
    SoleDotStartsExtname(input);
    LowerSpellingAbsent(input, ext, ToLower(ext));
    UnmatchedExtensionFails(input, st, failing, now);
  }

  /** A file whose lower-cased extension is not an image extension is only
      logged as ignored, and the disk is left alone. */
  lemma NonImageIgnored(input: Path, st: Disk, failing: set<Path>, now: int)
    requires input in st.stamps && ToLower(Extname(input)) !in ImageExtensions
    ensures ConvertOne(input, st, failing, now) == st.(log := st.log + [Ignored(input)])
  {
  }

  /** Neither spelling of the SVG and WebP extensions lower-cases to an
      image extension. */
  lemma NotImageSpellings(ext: string)
    requires ext in [".svg", ".webp", ".SVG", ".WEBP"]
    ensures ToLower(ext) !in ImageExtensions
  {
    LowerCaseSpellings();
  }

  /** So are SVG and WebP files, whatever the case of their extension. */
  lemma SvgAndWebpIgnored(input: Path, st: Disk, failing: set<Path>, now: int)
    requires input in st.stamps
    requires Extname(input) in [".svg", ".webp", ".SVG", ".WEBP"]
    ensures ConvertOne(input, st, failing, now) == st.(log := st.log + [Ignored(input)])
  {
    NotImageSpellings(Extname(input));
    NonImageIgnored(input, st, failing, now);
  }

  /** An output only as new as its input is converted again: the skip needs
      the output to be strictly newer. */
  lemma EqualTimesReconvert(input: Path, st: Disk, failing: set<Path>, now: int)
    requires input in st.stamps && ToLower(Extname(input)) in ImageExtensions
    requires OutputPath(input) in st.stamps && st.stamps[OutputPath(input)] == st.stamps[input]
    ensures !ConvertOne(input, st, failing, now).log[|st.log|].Skipped?
  {
  }

  /** Running the conversion again right after a successful one skips the
      file and leaves the disk alone, provided the clock has moved past the
      input's time. */
  lemma SecondRunSkips(input: Path, st: Disk, failing: set<Path>, now: int, later: int)
    requires input in st.stamps && now > st.stamps[input]
    requires ConvertOne(input, st, failing, now).log[|st.log|].Converted?
    ensures var once := ConvertOne(input, st, failing, now);
      ConvertOne(input, once, failing, later) == once.(log := once.log + [Skipped(input)])
  {
    var once := ConvertOne(input, st, failing, now);
    assert OutputPath(input) != input;
    assert once.stamps[input] == st.stamps[input];
    assert once.stamps[OutputPath(input)] == now;
  }

  // ---------------------------------------------------------------------------
  // The script, updating the disk in place
  // ---------------------------------------------------------------------------

  class Converter {
    var stamps: map<Path, int>
    var log: seq<Action>
    const failing: set<Path>
    const now: int

    function State(): Disk
      reads this
    {
      Disk(stamps, log)
    }

    constructor (stamps: map<Path, int>, failing: set<Path>, now: int)
      ensures State() == Disk(stamps, []) && this.failing == failing && this.now == now
    {
      this.stamps := stamps;
      log := [];
      this.failing := failing;
      this.now := now;
    }

    method ConvertToWebP(input: Path)
      requires input in stamps
      modifies this`stamps, this`log
      ensures State() == ConvertOne(input, old(State()), failing, now)
    {
      var ext := ToLower(Extname(input));
      if ext !in ImageExtensions {
        log := log + [Ignored(input)];
        return;
      }
      var output := ReplaceFirst(input, ext, ".webp");
      if output in stamps && stamps[output] > stamps[input] {
        log := log + [Skipped(input)];
        return;
      }
      if output != input && input !in failing {
        stamps := stamps[output := now];
        log := log + [Converted(input, output)];
      } else {
        log := log + [Failed(input, output)];
      }
    }

    method ProcessDirectory(dir: Path, entries: seq<Entry>)
      requires Listed(FilePaths(dir, entries), stamps)
      modifies this`stamps, this`log
      ensures State() == Walk(dir, entries, old(State()), failing, now)
      ensures State() == ConvertAll(FilePaths(dir, entries), old(State()), failing, now)
      decreases entries
    {
      ghost var start := State();
      for i := 0 to |entries|
        invariant Listed(FilePaths(dir, entries[i..]), stamps)
        invariant Walk(dir, entries[i..], State(), failing, now) == Walk(dir, entries, start, failing, now)
      {
        assert entries[i..][0] == entries[i] && entries[i..][1..] == entries[i + 1..];
        var entry := entries[i];
        var fullPath := Join(dir, entry.name);
        if entry.Dir? {
          ProcessDirectory(fullPath, entry.entries);
        } else {
          ConvertToWebP(fullPath);
        }
      }
      assert entries[|entries|..] == [];
    }
  }
}
