/**
 The search for a target's rule file (redo_core/src/paths.rs and
 `find_do_for_target` in redo_core/src/builder.rs): which candidates are tried,
 in which order, what each of them stands for, and what the search records.
 */
module RuleSearch {
  import opened Common
  import Dirtiness
  import DepsTable

  datatype DoFile = DoFile(
    dodir: string,
    dofile: string,
    basedir: string,   // the part of the target's directory below dodir
    basename: string,  // relative to dodir, without the extension
    ext: string)

  // ---------------------------------------------------------------------------
  // Split and join
  // ---------------------------------------------------------------------------

  /** `parts.join(c)` */
  function Join(parts: seq<string>, c: char): string {
    if parts == [] then ""
    else if |parts| == 1 then parts[0]
    else parts[0] + [c] + Join(parts[1..], c)
  }

  /** `s.split(c)`: never empty. */
  function Split(s: string, c: char): (parts: seq<string>)
    ensures |parts| >= 1
  {
    if s == "" then [""]
    else
      var rest := Split(s[1..], c);
      if s[0] == c then [""] + rest else [[s[0]] + rest[0]] + rest[1..]
  }

  lemma {:induction false} JoinSplit(s: string, c: char)
    ensures Join(Split(s, c), c) == s
    decreases |s|
  {
    if s != "" {
      JoinSplit(s[1..], c);
      var rest := Split(s[1..], c);
      if s[0] == c {
        assert ([""] + rest)[1..] == rest;
        assert Join([""] + rest, c) == "" + [c] + Join(rest, c);
      } else {
        var parts := [[s[0]] + rest[0]] + rest[1..];
        assert parts[1..] == rest[1..];
        assert Join(parts, c) == [s[0]] + Join(rest, c);
      }
    }
  }

  /** Joining in two pieces. */
  lemma {:induction false} JoinConcat(a: seq<string>, b: seq<string>, c: char)
    requires a != [] && b != []
    ensures Join(a + b, c) == Join(a, c) + [c] + Join(b, c)
    decreases |a|
  {
    if |a| == 1 {
      assert (a + b)[1..] == b;
    } else {
      assert (a + b)[1..] == a[1..] + b;
      JoinConcat(a[1..], b, c);
      assert Join(a + b, c) == a[0] + [c] + (Join(a[1..], c) + [c] + Join(b, c));
    }
  }

  ghost predicate Free(s: string, c: char) {
    c !in s
  }

  lemma {:induction false} SplitFree(s: string, c: char)
    requires Free(s, c)
    ensures Split(s, c) == [s]
    decreases |s|
  {
    if s != "" {
      assert s[0] in s;
      assert forall x :: x in s[1..] ==> x in s;
      SplitFree(s[1..], c);
      assert [s[0]] + s[1..] == s;
    }
  }

  lemma {:induction false} SplitHead(a: string, rest: string, c: char)
    requires Free(a, c)
    ensures Split(a + [c] + rest, c) == [a] + Split(rest, c)
    decreases |a|
  {
    var s := a + [c] + rest;
    if a == "" {
      assert s[1..] == rest;
    } else {
      assert a[0] in a;
      assert forall x :: x in a[1..] ==> x in a;
      assert s[1..] == a[1..] + [c] + rest;
      SplitHead(a[1..], rest, c);
      assert [a[0]] + a[1..] == a;
    }
  }

  lemma {:induction false} SplitJoin(parts: seq<string>, c: char)
    requires parts != [] && forall i :: 0 <= i < |parts| ==> Free(parts[i], c)
    ensures Split(Join(parts, c), c) == parts
    decreases |parts|
  {
    if |parts| == 1 {
      SplitFree(parts[0], c);
    } else {
      SplitJoin(parts[1..], c);
      SplitHead(parts[0], Join(parts[1..], c), c);
      assert parts == [parts[0]] + parts[1..];
    }
  }

  // ---------------------------------------------------------------------------
  // default*.do in one directory
  // ---------------------------------------------------------------------------

  function BaseAt(parts: seq<string>, i: nat): string
    requires 1 <= i <= |parts|
  {
    Join(parts[..i], '.')
  }

  function ExtAt(parts: seq<string>, i: nat): string
    requires 1 <= i <= |parts|
  {
    if i < |parts| then "." + Join(parts[i..], '.') else ""
  }

  /** Base and extension always make up the file name. */
  lemma BaseAndExt(filename: string, i: nat)
    requires 1 <= i <= |Split(filename, '.')|
    ensures BaseAt(Split(filename, '.'), i) + ExtAt(Split(filename, '.'), i) == filename
  {
    var parts := Split(filename, '.');
    JoinSplit(filename, '.');
    if i < |parts| {
      assert parts == parts[..i] + parts[i..];
      JoinConcat(parts[..i], parts[i..], '.');
      assert ['.'] == ".";
    } else {
      assert parts[..i] == parts;
    }
  }

  /** Extensions get strictly shorter. */
  lemma ExtShrinks(parts: seq<string>, i: nat, j: nat)
    requires 1 <= i < j <= |parts|
    ensures |ExtAt(parts, i)| > |ExtAt(parts, j)|
  {
    if j < |parts| {
      assert parts[i..] == parts[i..j] + parts[j..];
      JoinConcat(parts[i..j], parts[j..], '.');
    }
  }

  /** `default_do_files`: triples (dofile, basename, ext). */
  method DefaultDoFiles(filename: string) returns (out: seq<(string, string, string)>)
    ensures out == Defaults(filename)
  {
    var parts := Split(filename, '.');
    out := [];
    for i := 1 to |parts| + 1
      invariant |out| == i - 1
      invariant forall k :: 0 <= k < |out| ==> out[k] == DefaultAt(parts, k + 1)
    {
      var basename := Join(parts[..i], '.');
      var ext := if i < |parts| then "." + Join(parts[i..], '.') else "";
      out := out + [("default" + ext + ".do", basename, ext)];
    }
  }

  /** Each one splits the file name ... */
  lemma DefaultSplitsName(filename: string, k: nat)
    requires k < |Defaults(filename)|
    ensures Defaults(filename)[k].1 + Defaults(filename)[k].2 == filename
    ensures Defaults(filename)[k].0 == "default" + Defaults(filename)[k].2 + ".do"
  {
    assert Defaults(filename)[k] == DefaultAt(Split(filename, '.'), k + 1);
    BaseAndExt(filename, k + 1);
  }

  /** ... and the longest extension comes first, the empty one last. */
  lemma DefaultsInOrder(parts: seq<string>, j: nat, k: nat)
    requires j < k < |parts|
    ensures |DefaultsOf(parts)[j].2| > |DefaultsOf(parts)[k].2|
    ensures k == |parts| - 1 ==> DefaultsOf(parts)[k].2 == ""
  {
    ExtShrinks(parts, j + 1, k + 1);
  }

  function DefaultAt(parts: seq<string>, i: nat): (string, string, string)
    requires 1 <= i <= |parts|
  {
    ("default" + ExtAt(parts, i) + ".do", BaseAt(parts, i), ExtAt(parts, i))
  }

  function Defaults(filename: string): seq<(string, string, string)> {
    DefaultsOf(Split(filename, '.'))
  }

  function DefaultsOf(parts: seq<string>): seq<(string, string, string)> {
    seq(|parts|, k requires 0 <= k < |parts| => DefaultAt(parts, k + 1))
  }

  // ---------------------------------------------------------------------------
  // Normalising
  // ---------------------------------------------------------------------------

  /** A component that names something: not empty, not "." or "..", no slash. */
  predicate Proper(c: string) {
    c != "" && c != "." && c != ".." && '/' !in c
  }

  /** What the components of an absolute path leave on the stack. */
  function Normal(stack: seq<string>, comps: seq<string>): seq<string>
    decreases |comps|
  {
    if comps == [] then stack
    else if comps[0] == "" || comps[0] == "." then Normal(stack, comps[1..])
    else if comps[0] == ".." then Normal(if stack == [] then [] else stack[..|stack| - 1], comps[1..])
    else Normal(stack + [comps[0]], comps[1..])
  }

  ghost predicate AllProper(s: seq<string>) {
    forall i :: 0 <= i < |s| ==> Proper(s[i])
  }

  lemma {:induction false} NormalProper(stack: seq<string>, comps: seq<string>)
    requires AllProper(stack) && forall i :: 0 <= i < |comps| ==> Free(comps[i], '/')
    ensures AllProper(Normal(stack, comps))
    decreases |comps|
  {
    if comps != [] {
      NormalProper(
        if comps[0] == "" || comps[0] == "." then stack
        else if comps[0] == ".." then (if stack == [] then [] else stack[..|stack| - 1])
        else stack + [comps[0]],
        comps[1..]);
    }
  }

  /** A path without dots normalises to itself. */
  lemma {:induction false} NormalIdempotent(stack: seq<string>, comps: seq<string>)
    requires AllProper(comps)
    ensures Normal(stack, comps) == stack + comps
    decreases |comps|
  {
    if comps != [] {
      NormalIdempotent(stack + [comps[0]], comps[1..]);
      assert stack + [comps[0]] + comps[1..] == stack + comps;
    }
  }

  // --- the laws of path resolution ---

  /** Components are resolved one after the other. */
  lemma {:induction false} NormalConcat(stack: seq<string>, a: seq<string>, b: seq<string>)
    ensures Normal(stack, a + b) == Normal(Normal(stack, a), b)
    decreases |a|
  {
    if a == [] {
      assert a + b == b;
    } else {
      assert (a + b)[1..] == a[1..] + b;
      var next :=
        if a[0] == "" || a[0] == "." then stack
        else if a[0] == ".." then (if stack == [] then [] else stack[..|stack| - 1])
        else stack + [a[0]];
      NormalConcat(next, a[1..], b);
    }
  }

  /** A component followed by ".." is as if neither were there. */
  lemma DotDotCancels(a: seq<string>, x: string, b: seq<string>)
    requires Proper(x)
    ensures Normal([], a + [x, ".."] + b) == Normal([], a + b)
  {
    var stack := Normal([], a);
    assert a + [x, ".."] + b == a + ([x, ".."] + b);
    NormalConcat([], a, [x, ".."] + b);
    NormalConcat([], a, b);
    assert ([x, ".."] + b)[1..] == [".."] + b;
    assert ([".."] + b)[1..] == b;
    assert (stack + [x])[..|stack + [x]| - 1] == stack;
  }

  /** There is nothing above the root. */
  lemma DotDotAtRoot(b: seq<string>)
    ensures Normal([], [".."] + b) == Normal([], b)
  {
    assert ([".."] + b)[1..] == b;
  }

  /** "." and empty components mean nothing, wherever they stand. */
  lemma DotMeansNothing(a: seq<string>, dot: string, b: seq<string>)
    requires dot == "." || dot == ""
    ensures Normal([], a + [dot] + b) == Normal([], a + b)
  {
    assert a + [dot] + b == a + ([dot] + b);
    NormalConcat([], a, [dot] + b);
    NormalConcat([], a, b);
    assert ([dot] + b)[1..] == b;
  }

  lemma {:induction false} SplitConcat(a: string, b: string, c: char)
    ensures Split(a + [c] + b, c) == Split(a, c) + Split(b, c)
    decreases |a|
  {
    var s := a + [c] + b;
    if a == "" {
      assert s[1..] == b;
    } else {
      assert s[1..] == a[1..] + [c] + b;
      SplitConcat(a[1..], b, c);
    }
  }

  /** What `rel` denotes, seen from directory `dir`. */
  function Resolved(dir: string, rel: string): seq<string> {
    Normal([], Split(PathJoin(dir, rel), '/'))
  }

  lemma SlashJoins(d: string, rel: string)
    ensures Normal([], Split(d + ['/'] + rel, '/')) == Normal(Normal([], Split(d, '/')), Split(rel, '/'))
  {
    SplitConcat(d, rel, '/');
    NormalConcat([], Split(d, '/'), Split(rel, '/'));
  }

  lemma TrailingSlash(d: string)
    ensures Normal([], Split(d + ['/'], '/')) == Normal([], Split(d, '/'))
  {
    assert d + ['/'] + "" == d + ['/'];
    SlashJoins(d, "");
  }

  /** An absolute path stands for itself; any other one goes on from the directory. */
  lemma ResolvedFrom(dir: string, rel: string)
    ensures rel != "" && rel[0] == '/' ==> Resolved(dir, rel) == Normal([], Split(rel, '/'))
    ensures rel == "" || rel[0] != '/' ==>
      Resolved(dir, rel) == Normal(Normal([], Split(dir, '/')), Split(rel, '/'))
  {
    if rel == "" || rel[0] != '/' {
      if dir != "" && dir[|dir| - 1] == '/' {
        var d := dir[..|dir| - 1];
        assert dir == d + ['/'] && dir + rel == d + ['/'] + rel;
        SlashJoins(d, rel);
        TrailingSlash(d);
      } else {
        assert dir + "/" + rel == dir + ['/'] + rel;
        SlashJoins(dir, rel);
      }
    }
  }

  /** "../" in front goes on from the directory above; the root is its own. */
  lemma ResolvedFromParent(dir: string, rel: string)
    ensures
      var here := Normal([], Split(dir, '/'));
      Resolved(dir, "../" + rel) == Normal(if here == [] then [] else here[..|here| - 1], Split(rel, '/'))
  {
    assert "../" + rel == ".." + ['/'] + rel;
    ResolvedFrom(dir, "../" + rel);
    SplitFree("..", '/');
    SplitConcat("..", rel, '/');
    assert ([".."] + Split(rel, '/'))[1..] == Split(rel, '/');
  }

  lemma {:induction false} SplitPieces(s: string, c: char, i: nat)
    requires i < |Split(s, c)|
    ensures Free(Split(s, c)[i], c)
    decreases |s|
  {
    if s != "" {
      var rest := Split(s[1..], c);
      if s[0] == c {
        if i > 0 { SplitPieces(s[1..], c, i - 1); }
      } else {
        SplitPieces(s[1..], c, i);
        assert i > 0 ==> rest[1..][i - 1] == rest[i];
      }
    }
  }

  /** `base.join(rel)`: an absolute `rel` replaces the base. */
  function PathJoin(dir: string, rel: string): string {
    if rel != "" && rel[0] == '/' then rel
    else if dir != "" && dir[|dir| - 1] == '/' then dir + rel
    else dir + "/" + rel
  }

  /** The components of the normalised target, as `normalize_join` stacks them. */
  method NormalizeJoin(base: string, rel: string) returns (comps: seq<string>)
    ensures comps == Resolved(base, rel)
    ensures AllProper(comps)
    ensures Normal([], comps) == comps
  {
    var pieces := Split(PathJoin(base, rel), '/');
    comps := [];
    var i := 0;
    assert pieces[0..] == pieces;
    while i < |pieces|
      invariant 0 <= i <= |pieces|
      invariant Normal(comps, pieces[i..]) == Normal([], pieces)
    {
      assert pieces[i..][1..] == pieces[i + 1..];
      if pieces[i] == "" || pieces[i] == "." {
      } else if pieces[i] == ".." {
        if comps != [] {
          comps := comps[..|comps| - 1];
        }
      } else {
        comps := comps + [pieces[i]];
      }
      i := i + 1;
    }
    assert pieces[i..] == [];
    forall k | 0 <= k < |pieces| ensures Free(pieces[k], '/') {
      SplitPieces(PathJoin(base, rel), '/', k);
    }
    NormalProper([], pieces);
    NormalIdempotent([], comps);
  }

  function Absolute(comps: seq<string>): string {
    "/" + Join(comps, '/')
  }

  // ---------------------------------------------------------------------------
  // The walk up the directories
  // ---------------------------------------------------------------------------

  function DodirAt(dirbits: seq<string>, i: nat): string
    requires 1 <= i <= |dirbits|
  {
    var s := Join(dirbits[..i], '/');
    if s == "" then "/" else s
  }

  function SubdirAt(dirbits: seq<string>, i: nat): string
    requires 1 <= i <= |dirbits|
  {
    Join(dirbits[i..], '/')
  }

  function Under(subdir: string, basename: string): string {
    if subdir == "" then basename else subdir + "/" + basename
  }

  function Candidate(dirbits: seq<string>, i: nat, d: (string, string, string)): DoFile
    requires 1 <= i <= |dirbits|
  {
    DoFile(DodirAt(dirbits, i), d.0, SubdirAt(dirbits, i), Under(SubdirAt(dirbits, i), d.1), d.2)
  }

  function Level(dirbits: seq<string>, i: nat, ds: seq<(string, string, string)>): seq<DoFile>
    requires 1 <= i <= |dirbits|
  {
    seq(|ds|, k requires 0 <= k < |ds| => Candidate(dirbits, i, ds[k]))
  }

  function WalkUp(dirbits: seq<string>, i: nat, ds: seq<(string, string, string)>): seq<DoFile>
    requires i <= |dirbits|
  {
    if i == 0 then [] else Level(dirbits, i, ds) + WalkUp(dirbits, i - 1, ds)
  }

  /** The directory bits of the normalised target. */
  function DirBits(dirs: seq<string>): seq<string> {
    Split(Absolute(dirs), '/')
  }

  /**
   `possible_do_files`: first `<target>.do` beside the target, then the
   default*.do files of its directory and of every directory above.  A target
   that normalises to the root falls back to the base directory.
   */
  method PossibleDoFiles(targetRel: string, base: string) returns (out: seq<DoFile>, comps: seq<string>)
    ensures comps == Resolved(base, targetRel) && AllProper(comps)
    ensures comps != [] ==>
      var n := |comps| - 1;
      && out != []
      && out[1..] == WalkUp(DirBits(comps[..n]), |DirBits(comps[..n])|, Defaults(comps[n]))
    ensures out != [] && exists dir, filename ::
      && out[0] == DoFile(PathJoin(base, dir), filename + ".do", "", filename, "")
      && '/' !in filename
      && targetRel == (if '/' in targetRel then dir + "/" + filename else filename)
  {
    var dir, filename := RSplitOnce(targetRel);
    out := [DoFile(PathJoin(base, dir), filename + ".do", "", filename, "")];
    comps := NormalizeJoin(base, targetRel);
    var dirname, fname := base, targetRel;
    if comps != [] {
      dirname, fname := Absolute(comps[..|comps| - 1]), comps[|comps| - 1];
    }
    var dirbits := Split(dirname, '/');
    var ds := DefaultDoFiles(fname);
    var walked := WalkAll(dirbits, ds);
    out := out + walked;
    assert out[1..] == walked;
  }

  lemma Regroup<T>(a: seq<T>, b: seq<T>, c: seq<T>)
    ensures a + (b + c) == (a + b) + c
  {
  }

  /** The loop from the target's directory up to the root. */
  method WalkAll(dirbits: seq<string>, ds: seq<(string, string, string)>) returns (out: seq<DoFile>)
    ensures out == WalkUp(dirbits, |dirbits|, ds)
  {
    out := [];
    var i := |dirbits|;
    while i > 0
      invariant 0 <= i <= |dirbits|
      invariant out + WalkUp(dirbits, i, ds) == WalkUp(dirbits, |dirbits|, ds)
    {
      var level := WalkLevel(dirbits, i, ds);
      Regroup(out, level, WalkUp(dirbits, i - 1, ds));
      out := out + level;
      i := i - 1;
    }
    assert out + [] == out;
  }

  /** The inner loop: the candidates of one directory. */
  method WalkLevel(dirbits: seq<string>, i: nat, ds: seq<(string, string, string)>) returns (level: seq<DoFile>)
    requires 1 <= i <= |dirbits|
    ensures level == Level(dirbits, i, ds)
  {
    var basedirStr := Join(dirbits[..i], '/');
    var basedir := if basedirStr == "" then "/" else basedirStr;
    var subdir := Join(dirbits[i..], '/');
    level := [];
    for k := 0 to |ds|
      invariant |level| == k
      invariant forall j :: 0 <= j < k ==> level[j] == Candidate(dirbits, i, ds[j])
    {
      var baseJoin := if subdir == "" then ds[k].1 else subdir + "/" + ds[k].1;
      level := level + [DoFile(basedir, ds[k].0, subdir, baseJoin, ds[k].2)];
    }
  }

  /** `rsplit_once('/')`, or no directory at all. */
  method RSplitOnce(s: string) returns (dir: string, filename: string)
    ensures '/' !in filename
    ensures s == if '/' in s then dir + "/" + filename else filename
    ensures '/' !in s ==> dir == ""
  {
    var i := |s|;
    while i > 0 && s[i - 1] != '/'
      invariant 0 <= i <= |s|
      invariant forall k :: i <= k < |s| ==> s[k] != '/'
    {
      i := i - 1;
    }
    if i == 0 {
      return "", s;
    }
    dir, filename := s[..i - 1], s[i..];
    assert s[i - 1] in s;
    assert s == s[..i - 1] + [s[i - 1]] + s[i..];
  }

  // --- what the bits are ---

  lemma BitsOfDirs(dirs: seq<string>)
    requires AllProper(dirs)
    ensures dirs != [] ==> DirBits(dirs) == [""] + dirs
    ensures dirs == [] ==> DirBits(dirs) == ["", ""]
  {
    SplitHead("", Join(dirs, '/'), '/');
    assert "" + ['/'] + Join(dirs, '/') == Absolute(dirs);
    if dirs != [] {
      SplitJoin(dirs, '/');
    }
  }

  /** At level i the candidate's directory is a prefix of the target's, and basedir the rest. */
  lemma LevelSplits(dirs: seq<string>, i: nat)
    requires AllProper(dirs) && 1 <= i <= |DirBits(dirs)|
    ensures Min(i - 1, |dirs|) >= 0
    ensures DodirAt(DirBits(dirs), i) == Absolute(dirs[..Min(i - 1, |dirs|)])
    ensures SubdirAt(DirBits(dirs), i) == Join(dirs[Min(i - 1, |dirs|)..], '/')
  {
    BitsOfDirs(dirs);
    var bits := DirBits(dirs);
    if dirs == [] {
      assert Join([""], '/') == "";
      if i == 1 {
        assert bits[..1] == [""] && bits[1..] == [""];
      } else {
        assert bits[..2] == ["", ""] && bits[2..] == [];
        assert Join(["", ""], '/') == "" + ['/'] + Join(["", ""][1..], '/');
        assert ["", ""][1..] == [""];
      }
    } else {
      assert bits[..i] == [""] + dirs[..i - 1] && bits[i..] == dirs[i - 1..];
      if i > 1 {
        JoinConcat([""], dirs[..i - 1], '/');
      } else {
        assert dirs[..0] == [];
      }
    }
  }

  lemma AbsoluteEnd(dirs: seq<string>)
    requires AllProper(dirs) && dirs != []
    ensures Absolute(dirs)[|Absolute(dirs)| - 1] != '/'
  {
    var n := |dirs| - 1;
    var last := dirs[n];
    assert last[|last| - 1] in last;
    if n > 0 {
      assert dirs == dirs[..n] + [last];
      JoinConcat(dirs[..n], [last], '/');
    }
  }

  lemma UnderIsJoin(b: seq<string>, f: string)
    requires AllProper(b) && Proper(f)
    ensures Under(Join(b, '/'), f) == Join(b + [f], '/')
    ensures Join(b + [f], '/') != "" && Join(b + [f], '/')[0] != '/'
  {
    assert f[0] in f;
    if b == [] {
      assert b + [f] == [f];
    } else {
      JoinConcat(b, [f], '/');
      JoinStartsProper(b);
      assert ['/'] == "/";
    }
  }

  lemma JoinStartsProper(b: seq<string>)
    requires AllProper(b) && b != []
    ensures Join(b, '/') != "" && Join(b, '/')[0] != '/'
  {
    assert b[0][0] in b[0];
  }

  lemma JoinThree(a: seq<string>, b: seq<string>, f: string)
    ensures a == [] ==> Join(a + b + [f], '/') == Join(b + [f], '/')
    ensures a != [] ==> Join(a + b + [f], '/') == Join(a, '/') + ['/'] + Join(b + [f], '/')
  {
    assert a + b + [f] == a + (b + [f]);
    if a == [] {
      assert a + (b + [f]) == b + [f];
    } else {
      JoinConcat(a, b + [f], '/');
    }
  }

  /** Joining a directory prefix, the rest and the file name gives back the path. */
  lemma PathOfParts(a: seq<string>, b: seq<string>, f: string)
    requires AllProper(a) && AllProper(b) && Proper(f)
    ensures PathJoin(Absolute(a), Under(Join(b, '/'), f)) == Absolute(a + b + [f])
  {
    UnderIsJoin(b, f);
    JoinThree(a, b, f);
    if a != [] {
      AbsoluteEnd(a);
      JoinStartsProper(a);
    }
    PathJoinRelative(Join(a, '/'), Join(b + [f], '/'));
  }

  /** `PathJoin` of a path from the root and a relative path, by what the path ends with. */
  lemma PathJoinRelative(x: string, rel: string)
    requires rel != "" && rel[0] != '/'
    ensures x == "" ==> PathJoin("/" + x, rel) == "/" + rel
    ensures x != "" && ("/" + x)[|x|] != '/' ==> PathJoin("/" + x, rel) == "/" + (x + ['/'] + rel)
  {
    assert "/" + x + "/" + rel == "/" + (x + ['/'] + rel);
    assert x == "" ==> "/" + x == "/";
  }

  lemma LevelDenotes(dirs: seq<string>, f: string, i: nat, k: nat)
    requires AllProper(dirs) && Proper(f) && 1 <= i <= |DirBits(dirs)| && k < |Defaults(f)|
    ensures
      var c := Candidate(DirBits(dirs), i, Defaults(f)[k]);
      PathJoin(c.dodir, c.basename + c.ext) == Absolute(dirs + [f])
  {
    var j := Min(i - 1, |dirs|);
    LevelSplits(dirs, i);
    DefaultSplitsName(f, k);
    UnderAppend(Join(dirs[j..], '/'), Defaults(f)[k].1, Defaults(f)[k].2);
    PathOfParts(dirs[..j], dirs[j..], f);
    assert dirs[..j] + dirs[j..] == dirs;
  }

  lemma UnderAppend(sub: string, b: string, e: string)
    ensures Under(sub, b) + e == Under(sub, b + e)
  {
    assert sub + "/" + b + e == sub + "/" + (b + e);
  }

  /**
   Every walked candidate, resolved from its own directory, denotes exactly the
   normalised target.
   */
  lemma {:induction false} CandidatesDenoteTarget(comps: seq<string>, i: nat, c: DoFile)
    requires AllProper(comps) && comps != [] && i <= |DirBits(comps[..|comps| - 1])|
    requires c in WalkUp(DirBits(comps[..|comps| - 1]), i, Defaults(comps[|comps| - 1]))
    ensures PathJoin(c.dodir, c.basename + c.ext) == Absolute(comps)
    decreases i
  {
    var n := |comps| - 1;
    var dirs, f := comps[..n], comps[n];
    assert dirs + [f] == comps;
    if c in Level(DirBits(dirs), i, Defaults(f)) {
      var k :| 0 <= k < |Defaults(f)| && c == Level(DirBits(dirs), i, Defaults(f))[k];
      LevelDenotes(dirs, f, i, k);
    } else {
      CandidatesDenoteTarget(comps, i - 1, c);
    }
  }

  /** A default rule file and what is left of the target's path: the whole meaning of a walked candidate. */
  ghost predicate DefaultRule(dirs: seq<string>, f: string, j: nat, c: DoFile)
    requires j <= |dirs|
  {
    && c.dodir == Absolute(dirs[..j]) && c.basedir == Join(dirs[j..], '/')
    && c.dofile == "default" + c.ext + ".do"
    && (c.ext == "" || c.ext[0] == '.') && |c.ext| <= |f|
    && c.ext == f[|f| - |c.ext|..] && c.basename == Under(c.basedir, f[..|f| - |c.ext|])
  }

  /** The triples are the splits of a name into a base and an extension that is empty or starts with a dot. */
  lemma {:induction false} SplitsAtDots(f: string, e: string)
    requires |e| <= |f| && f[|f| - |e|..] == e && (e == "" || e[0] == '.')
    ensures exists i :: 1 <= i <= |Split(f, '.')| && BaseAt(Split(f, '.'), i) == f[..|f| - |e|] && ExtAt(Split(f, '.'), i) == e
  {
    var parts := Split(f, '.');
    if e == "" {
      JoinSplit(f, '.');
      assert parts[..|parts|] == parts;
      assert f[..|f|] == f;
      assert BaseAt(parts, |parts|) == f && ExtAt(parts, |parts|) == e;
    } else {
      var b := f[..|f| - |e|];
      assert f == b + ['.'] + e[1..] && e == "." + e[1..];
      SplitConcat(b, e[1..], '.');
      var i := |Split(b, '.')|;
      assert parts[..i] == Split(b, '.') && parts[i..] == Split(e[1..], '.');
      JoinSplit(b, '.');
      JoinSplit(e[1..], '.');
      assert BaseAt(parts, i) == b && ExtAt(parts, i) == e;
    }
  }

  lemma DefaultsIff(f: string, d: (string, string, string))
    ensures d in Defaults(f) <==>
      && d.0 == "default" + d.2 + ".do" && d.1 + d.2 == f && (d.2 == "" || d.2[0] == '.')
  {
    if d in Defaults(f) {
      var k :| 0 <= k < |Defaults(f)| && Defaults(f)[k] == d;
      DefaultSplitsName(f, k);
    }
    if d.0 == "default" + d.2 + ".do" && d.1 + d.2 == f && (d.2 == "" || d.2[0] == '.') {
      SplitsAtDots(f, d.2);
      var parts := Split(f, '.');
      var i :| 1 <= i <= |parts| && BaseAt(parts, i) == f[..|f| - |d.2|] && ExtAt(parts, i) == d.2;
      assert Defaults(f)[i - 1] == DefaultAt(parts, i) == d;
    }
  }

  lemma {:induction false} InWalkIff(bits: seq<string>, i: nat, ds: seq<(string, string, string)>, c: DoFile)
    requires i <= |bits|
    ensures c in WalkUp(bits, i, ds) <==> exists m, d :: 1 <= m <= i && d in ds && c == Candidate(bits, m, d)
    decreases i
  {
    if i > 0 {
      InWalkIff(bits, i - 1, ds, c);
      if c in Level(bits, i, ds) {
        var k :| 0 <= k < |ds| && c == Level(bits, i, ds)[k];
        assert ds[k] in ds && c == Candidate(bits, i, ds[k]);
      }
      if m, d :| 1 <= m <= i && d in ds && c == Candidate(bits, m, d) {
        if m == i {
          var k :| 0 <= k < |ds| && ds[k] == d;
          assert Level(bits, i, ds)[k] == c;
        }
      }
    }
  }

  lemma CandidateIsRule(dirs: seq<string>, f: string, i: nat, d: (string, string, string))
    requires AllProper(dirs) && 1 <= i <= |DirBits(dirs)| && d in Defaults(f)
    ensures Min(i - 1, |dirs|) >= 0 && DefaultRule(dirs, f, Min(i - 1, |dirs|), Candidate(DirBits(dirs), i, d))
  {
    LevelSplits(dirs, i);
    DefaultsIff(f, d);
    assert f[..|f| - |d.2|] == d.1 && f[|f| - |d.2|..] == d.2;
  }

  lemma RuleIsCandidate(dirs: seq<string>, f: string, j: nat, c: DoFile)
    requires AllProper(dirs) && j <= |dirs| && DefaultRule(dirs, f, j, c)
    ensures 1 <= j + 1 <= |DirBits(dirs)|
    ensures exists d :: d in Defaults(f) && c == Candidate(DirBits(dirs), j + 1, d)
  {
    BitsOfDirs(dirs);
    LevelSplits(dirs, j + 1);
    var d := (c.dofile, f[..|f| - |c.ext|], c.ext);
    assert d.1 + d.2 == f;
    DefaultsIff(f, d);
    assert c == Candidate(DirBits(dirs), j + 1, d);
  }

  /**
   What is tried besides the exact rule file: in the target's directory and every
   directory above it, default<ext>.do for every extension, and nothing else.
   */
  lemma CandidatesIff(dirs: seq<string>, f: string, c: DoFile)
    requires AllProper(dirs)
    ensures c in WalkUp(DirBits(dirs), |DirBits(dirs)|, Defaults(f)) <==>
      exists j :: 0 <= j <= |dirs| && DefaultRule(dirs, f, j, c)
  {
    var bits := DirBits(dirs);
    InWalkIff(bits, |bits|, Defaults(f), c);
    if i, d :| 1 <= i <= |bits| && d in Defaults(f) && c == Candidate(bits, i, d) {
      CandidateIsRule(dirs, f, i, d);
      assert DefaultRule(dirs, f, Min(i - 1, |dirs|), c);
    }
    if j :| 0 <= j <= |dirs| && DefaultRule(dirs, f, j, c) {
      RuleIsCandidate(dirs, f, j, c);
      var m := j + 1;
      var d :| d in Defaults(f) && c == Candidate(bits, m, d);
      assert c in WalkUp(bits, |bits|, Defaults(f));
    }
  }

  // --- order ---

  /** Nearer to the target, or in the same place with a longer extension. */
  predicate MoreSpecific(a: DoFile, b: DoFile) {
    |a.basedir| < |b.basedir| || (a.dodir == b.dodir && a.basedir == b.basedir && |a.ext| > |b.ext|)
  }

  lemma SubdirGrows(dirs: seq<string>, i: nat)
    requires AllProper(dirs) && dirs != [] && 2 <= i <= |DirBits(dirs)|
    ensures |SubdirAt(DirBits(dirs), i)| < |SubdirAt(DirBits(dirs), i - 1)|
  {
    BitsOfDirs(dirs);
    LevelSplits(dirs, i);
    LevelSplits(dirs, i - 1);
    assert dirs[i - 2..] == [dirs[i - 2]] + dirs[i - 1..];
    if i - 1 < |dirs| {
      JoinConcat([dirs[i - 2]], dirs[i - 1..], '/');
    }
  }

  lemma {:induction false} WalkIsFarther(dirs: seq<string>, i: nat, ds: seq<(string, string, string)>, c: DoFile)
    requires AllProper(dirs) && dirs != [] && 1 <= i <= |DirBits(dirs)| && c in WalkUp(DirBits(dirs), i, ds)
    ensures |c.basedir| >= |SubdirAt(DirBits(dirs), i)|
    decreases i
  {
    var bits := DirBits(dirs);
    if c !in Level(bits, i, ds) {
      assert c in WalkUp(bits, i - 1, ds);
      if i > 1 {
        WalkIsFarther(dirs, i - 1, ds, c);
        SubdirGrows(dirs, i);
      }
    }
  }

  /** Extensions strictly shorter from one entry to the next. */
  ghost predicate Shrinking(ds: seq<(string, string, string)>) {
    forall j, k :: 0 <= j < k < |ds| ==> |ds[j].2| > |ds[k].2|
  }

  lemma {:induction false} WalkInOrder(dirs: seq<string>, i: nat, ds: seq<(string, string, string)>, p: nat, q: nat)
    requires AllProper(dirs) && dirs != [] && i <= |DirBits(dirs)| && Shrinking(ds)
    requires p < q < |WalkUp(DirBits(dirs), i, ds)|
    ensures MoreSpecific(WalkUp(DirBits(dirs), i, ds)[p], WalkUp(DirBits(dirs), i, ds)[q])
    decreases i
  {
    var bits, m := DirBits(dirs), |ds|;
    if p >= m {
      WalkInOrder(dirs, i - 1, ds, p - m, q - m);
    } else if q >= m {
      var c := WalkUp(bits, i - 1, ds)[q - m];
      assert c in WalkUp(bits, i - 1, ds);
      WalkIsFarther(dirs, i - 1, ds, c);
      SubdirGrows(dirs, i);
    }
  }

  /** Below a directory, candidates come most specific first. */
  lemma SpecificInOrder(dirs: seq<string>, f: string, p: nat, q: nat)
    requires AllProper(dirs) && dirs != []
    requires p < q < |WalkUp(DirBits(dirs), |DirBits(dirs)|, Defaults(f))|
    ensures
      var w := WalkUp(DirBits(dirs), |DirBits(dirs)|, Defaults(f));
      MoreSpecific(w[p], w[q])
  {
    ShrinkingDefaults(Split(f, '.'));
    WalkInOrder(dirs, |DirBits(dirs)|, Defaults(f), p, q);
  }

  lemma ShrinkingDefaults(parts: seq<string>)
    ensures Shrinking(DefaultsOf(parts))
  {
    forall j, k | 0 <= j < k < |parts|
      ensures |DefaultsOf(parts)[j].2| > |DefaultsOf(parts)[k].2|
    {
      DefaultsInOrder(parts, j, k);
    }
  }

  /** Only for a target directly under the root are the candidates listed twice. */
  lemma RootListsTwice(f: string)
    ensures
      var w := WalkUp(DirBits([]), |DirBits([])|, Defaults(f));
      w == Level(DirBits([]), 1, Defaults(f)) + Level(DirBits([]), 1, Defaults(f))
  {
    BitsOfDirs([]);
    var bits, ds := DirBits([]), Defaults(f);
    LevelSplits([], 1);
    LevelSplits([], 2);
    assert Level(bits, 1, ds) == Level(bits, 2, ds);
    assert WalkUp(bits, 0, ds) == [];
    assert WalkUp(bits, 1, ds) == Level(bits, 1, ds);
  }

  ghost predicate MostSpecificFirst(w: seq<DoFile>) {
    forall p, q :: 0 <= p < q < |w| ==> MoreSpecific(w[p], w[q])
  }

  /**
   The walk lists candidates most specific first, nearer directories and then
   longer extensions, exactly for targets below a directory; directly under the
   root it lists every candidate twice.
   */
  lemma MostSpecificFirstIff(dirs: seq<string>, f: string)
    requires AllProper(dirs)
    ensures MostSpecificFirst(WalkUp(DirBits(dirs), |DirBits(dirs)|, Defaults(f))) <==> dirs != []
  {
    var w := WalkUp(DirBits(dirs), |DirBits(dirs)|, Defaults(f));
    if dirs == [] {
      RootListsTwice(f);
      var level := Level(DirBits([]), 1, Defaults(f));
      assert |level| == |Defaults(f)| > 0;
      assert w[0] == level[0] == w[|level|];
      assert !MoreSpecific(w[0], w[|level|]);
    } else {
      forall p, q | 0 <= p < q < |w|
        ensures MoreSpecific(w[p], w[q])
      {
        SpecificInOrder(dirs, f, p, q);
      }
    }
  }

  // ---------------------------------------------------------------------------
  // What the search records
  // ---------------------------------------------------------------------------

  function DoPath(c: DoFile): string {
    PathJoin(c.dodir, c.dofile)
  }

  /**
   `find_do_for_target`: the first candidate that exists, recorded as 'm', after
   a 'c' dependency on every candidate before it.  `marked` is the rule file,
   whose row becomes that of a static source.
   */
  method FindDo(cands: seq<DoFile>, existing: set<string>)
    returns (found: Option<nat>, added: seq<(char, string)>, marked: set<string>)
    ensures found.Some? ==>
      && found.value < |cands| && DoPath(cands[found.value]) in existing
      && |added| == found.value + 1 && added[found.value] == ('m', DoPath(cands[found.value]))
    ensures found.None? ==> |added| == |cands|
    ensures forall k :: 0 <= k < (if found.Some? then found.value else |cands|) ==>
      DoPath(cands[k]) !in existing && added[k] == ('c', DoPath(cands[k]))
    ensures marked == if found.Some? then {DoPath(cands[found.value])} else {}
  {
    added, marked := [], {};
    for i := 0 to |cands|
      invariant |added| == i
      invariant forall k :: 0 <= k < i ==> DoPath(cands[k]) !in existing && added[k] == ('c', DoPath(cands[k]))
    {
      var dopath := DoPath(cands[i]);
      if dopath in existing {
        added := added + [('m', dopath)];
        return Some(i), added, {dopath};
      }
      added := added + [('c', dopath)];
    }
    found := None;
  }

  lemma {:induction false} JoinKeepsEdge(w: Dirtiness.Snapshot, es: seq<Dirtiness.Edge>, e: Dirtiness.Edge)
    requires w.Valid() && e in es && e.source in w.files
    ensures exists k :: 0 <= k < |w.Join(es)| && w.Join(es)[k] == (e.mode, w.View(e.source))
    decreases |es|
  {
    if es[0] == e {
      assert w.Join(es)[0] == (e.mode, w.View(e.source));
    } else {
      assert e in es[1..];
      JoinKeepsEdge(w, es[1..], e);
      var k :| 0 <= k < |w.Join(es[1..])| && w.Join(es[1..])[k] == (e.mode, w.View(e.source));
      if es[0].source in w.files {
        assert w.Join(es)[k + 1] == w.Join(es[1..])[k];
      } else {
        assert w.Join(es)[k] == w.Join(es[1..])[k];
      }
    }
  }

  /** A recorded 'c' dependency that has come to exist makes the target non-Clean. */
  lemma CreatedMakesDirty(w: Dirtiness.Snapshot, id: int, source: int, maxChanged: int, path: seq<int>)
    requires w.Valid() && id in w.files && source in w.files && id in w.deps
    requires w.View(id).isGenerated && !w.View(id).isOverride
    requires Dirtiness.Edge('c', source) in w.deps[id] && w.View(source).name in w.present
    ensures !Dirtiness.Check(w, w.View(id), maxChanged, path).Clean?
  {
    if Dirtiness.Check(w, w.View(id), maxChanged, path).Clean? {
      Dirtiness.CleanNodeOk(w, id, maxChanged, path);
      JoinKeepsEdge(w, w.deps[id], Dirtiness.Edge('c', source));
      assert false;
    }
  }

  /** The `add_dep` calls of the search. */
  function SearchOps(target: int, added: seq<(char, string)>, sourceOf: string -> int): seq<DepsTable.Op> {
    seq(|added|, i requires 0 <= i < |added| => DepsTable.Add(target, added[i].0 as int, sourceOf(added[i].1)))
  }

  lemma {:induction false} LastModeSkips(ops: seq<DepsTable.Op>, script: seq<DepsTable.Op>, t: int, s: int)
    requires forall i :: 0 <= i < |script| ==> !(script[i].Add? && script[i].target == t && script[i].source == s)
    ensures DepsTable.LastMode(ops + script, t, s) == DepsTable.LastMode(ops, t, s)
    decreases |script|
  {
    if script == [] {
      assert ops + script == ops;
    } else {
      var n := |script| - 1;
      assert (ops + script)[..|ops + script| - 1] == ops + script[..n];
      LastModeSkips(ops, script[..n], t, s);
    }
  }

  lemma {:induction false} LastModeOfSearch(target: int, added: seq<(char, string)>, sourceOf: string -> int, k: nat)
    requires k < |added| && forall i :: 0 <= i < |added| && sourceOf(added[i].1) == sourceOf(added[k].1) ==> added[i].0 == added[k].0
    ensures DepsTable.LastMode(SearchOps(target, added, sourceOf), target, sourceOf(added[k].1)) == Some(added[k].0 as int)
    decreases |added|
  {
    var n := |added| - 1;
    assert SearchOps(target, added, sourceOf)[..n] == SearchOps(target, added[..n], sourceOf);
    if sourceOf(added[n].1) != sourceOf(added[k].1) {
      LastModeOfSearch(target, added[..n], sourceOf, k);
    }
  }

  /** The `Deps` rows of one target in a snapshot are those of a table. */
  ghost predicate RowsOf(w: Dirtiness.Snapshot, rows: DepsTable.Rows, id: int) {
    id in w.deps && forall s, mode: char ::
      Dirtiness.Edge(mode, s) in w.deps[id] <==> (id, s) in rows && rows[(id, s)].mode == mode as int
  }

  /**
   Honest search, from the search to a later check.  A build marks the rows of
   its target, searches (finding candidate `found`), runs its script and sweeps.
   If the script did not declare candidate k < found itself, and that candidate
   exists later, then the target is not Clean.  Several spellings of a path may
   share a row (`File::by_name`), as long as they name the same file.
   */
  lemma EarlierCandidateNoticed(before: DepsTable.Rows, id: int, cands: seq<DoFile>, found: nat, k: nat,
                                added: seq<(char, string)>, existing: set<string>, sourceOf: string -> int,
                                script: seq<DepsTable.Op>, w: Dirtiness.Snapshot, maxChanged: int)
    requires k < found < |cands| && |added| == found + 1
    requires forall i :: 0 <= i < found ==> added[i] == ('c', DoPath(cands[i])) && DoPath(cands[i]) !in existing
    requires added[found] == ('m', DoPath(cands[found])) && DoPath(cands[found]) in existing
    requires forall a, b :: sourceOf(a) == sourceOf(b) ==> (a in existing <==> b in existing)
    requires DepsTable.Undisturbed(script, id)
    requires forall i :: 0 <= i < |script| ==>
      !(script[i].Add? && script[i].target == id && script[i].source == sourceOf(DoPath(cands[k])))
    requires w.Valid() && id in w.files && w.View(id).isGenerated && !w.View(id).isOverride
    requires RowsOf(w, DepsTable.ApplyAll(before,
      [DepsTable.Zap1(id)] + (SearchOps(id, added, sourceOf) + script) + [DepsTable.Zap2(id)]), id)
    requires sourceOf(DoPath(cands[k])) in w.files && w.View(sourceOf(DoPath(cands[k]))).name in w.present
    ensures !Dirtiness.Check(w, w.View(id), maxChanged, []).Clean?
  {
    var s := sourceOf(added[k].1);
    var ops := SearchOps(id, added, sourceOf) + script;
    forall i | 0 <= i < |added| && sourceOf(added[i].1) == s
      ensures added[i].0 == 'c'
    {
    }
    LastModeOfSearch(id, added, sourceOf, k);
    LastModeSkips(SearchOps(id, added, sourceOf), script, id, s);
    DepsTable.AfterSweep(before, ops, id, s);
    assert Dirtiness.Edge('c', s) in w.deps[id];
    CreatedMakesDirty(w, id, s, maxChanged, []);
  }
}
