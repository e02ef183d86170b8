/** Which files below a token's errors directory become error entries, and in what order. */
module ErrorListSpec {

  /** What readdir finds: regular files, directories, symbolic links, and names lstat fails on. */
  datatype Entry =
    | File(name: string)
    | Dir(name: string, dir: Directory)
    | Symlink(name: string)
    | Unreadable(name: string)

  /** A directory as readdir walks it; it may also refuse to be opened. */
  datatype Directory = Directory(opens: bool, entries: seq<Entry>)

  /** The limits the code is built with, and what it can see of the file system beside the tree. */
  datatype Env = Env(filenameMax: nat, pathMax: nat, nameMax: nat, intelClass: bool, exists_: string -> bool)

  datatype ErrorInfo = ErrorInfo(name: string, errorFile: string, canClear: bool, clearFile: string)

  const EXCLUDED: seq<string> := ["revision", "uevent", "power", "clear"]
  const CLEARABLE: seq<string> :=
    ["pcie0_errors", "pcie1_errors", "warning_errors", "inject_error", "fme_errors", "errors"]

  function Truncate(s: string, max: nat): string {
    if |s| < max then s else if max == 0 then "" else s[..max - 1]
  }

  predicate Hidden(name: string) {
    name != "" && name[0] == '.'
  }

  /** Directory paths that are not searched, and names that are not looked at. */
  predicate TooLong(path: string, env: Env) {
    |path| + 3 > env.filenameMax
  }

  predicate Skipped(path: string, name: string, env: Env) {
    Hidden(name) || name in EXCLUDED || |path| + 1 + |name| > env.filenameMax
  }

  /** The entry for one file. */
  function InfoFor(path: string, name: string, env: Env): ErrorInfo {
    var file := path + "/" + name;
    var clear := path + "/clear";
    var cleared :=
      if name == "errors" && env.intelClass then (if env.exists_(clear) then [clear] else [])
      else if name in CLEARABLE && env.exists_(file) then [file] else [];
    ErrorInfo(Truncate(name, env.nameMax), Truncate(file, env.pathMax), cleared != [],
              if cleared == [] then "" else Truncate(cleared[0], env.pathMax))
  }

  /** An error can be cleared exactly when its entry names a file to clear it by, and that file exists. */
  lemma ClearFileIsThere(path: string, name: string, env: Env)
    requires |path| + 1 + |name| < env.pathMax && |path| + 6 < env.pathMax
    ensures var info := InfoFor(path, name, env);
            && info.canClear == (info.clearFile != "")
            && (info.canClear ==> env.exists_(info.clearFile) && info.clearFile in {info.errorFile, path + "/clear"})
  {
    assert |path + "/clear"| == |path| + 6;
    assert |path + "/" + name| == |path| + 1 + |name|;
  }

  /** What is copied into a buffer of size max: all of it if it fits, and the front of it if not. */
  lemma TruncateFits(s: string, max: nat)
    ensures Truncate(s, max) <= s
    ensures |s| < max ==> Truncate(s, max) == s
    ensures 0 < max <= |s| ==> |Truncate(s, max)| == max - 1
  {
  }

  /** An entry has the file's own name, and its path below the directory searched. */
  lemma EntryNamesFile(path: string, name: string, env: Env)
    ensures |name| < env.nameMax ==> InfoFor(path, name, env).name == name
    ensures |path| + 1 + |name| < env.pathMax ==> InfoFor(path, name, env).errorFile == path + "/" + name
    ensures InfoFor(path, name, env).name <= name && InfoFor(path, name, env).errorFile <= path + "/" + name
  {
  }

  /**
   * The file "errors" of the Intel class is cleared through "clear" beside it; any other
   * error is cleared through its own file, if it is one of six; both only if that file exists.
   */
  lemma CanClearIff(path: string, name: string, env: Env)
    requires |path| + 1 + |name| < env.pathMax && |path| + 6 < env.pathMax
    ensures var info := InfoFor(path, name, env);
            var intel := env.intelClass && name == "errors";
            && (info.canClear <==>
                  if intel then env.exists_(path + "/clear")
                  else
                    && env.exists_(path + "/" + name)
                    && name in {"pcie0_errors", "pcie1_errors", "warning_errors", "inject_error",
                                "fme_errors", "errors"})
            && (info.canClear ==> info.clearFile == if intel then path + "/clear" else path + "/" + name)
  {
    ClearFileIsThere(path, name, env);
    assert |path + "/clear"| == |path| + 6;
  }

  /** What is passed over: hidden names, four others, and whatever would make the path too long. */
  lemma SkippedIff(path: string, name: string, env: Env)
    ensures Skipped(path, name, env) <==>
            || (exists rest :: name == "." + rest)
            || name in {"revision", "uevent", "power", "clear"}
            || |path + "/" + name| > env.filenameMax
  {
    if Hidden(name) {
      assert name == "." + name[1..];
    }
    assert |path + "/" + name| == |path| + 1 + |name|;
  }

  /** A directory is not searched when even a name of one character would leave no room for the end of its path. */
  lemma TooLongIff(path: string, env: Env)
    ensures TooLong(path, env) <==> forall name: string :: name != "" ==> |path + "/" + name| >= env.filenameMax
  {
    assert |path + "/" + "x"| == |path| + 2;
    if TooLong(path, env) {
      forall name: string | name != ""
        ensures |path + "/" + name| >= env.filenameMax
      {
        assert |path + "/" + name| == |path| + 1 + |name|;
      }
    }
  }

  /**
   * build_error_list: the entries it appends and how often it has called malloc, starting
   * from m calls. A refused malloc ends the directory it happens in, and only that one.
   */
  function Build(path: string, dir: Directory, env: Env, m: nat, mallocOk: nat -> bool): (seq<ErrorInfo>, nat)
    decreases dir, 0
  {
    if TooLong(path, env) || !dir.opens then ([], m) else BuildEntries(path, dir.entries, env, m, mallocOk)
  }

  function BuildEntries(path: string, es: seq<Entry>, env: Env, m: nat, mallocOk: nat -> bool): (seq<ErrorInfo>, nat)
    decreases es, 1
  {
    if es == [] then ([], m)
    else
      var (first, m1, goOn) := BuildEntry(path, es[0], env, m, mallocOk);
      if !goOn then (first, m1)
      else
        var (rest, m2) := BuildEntries(path, es[1..], env, m1, mallocOk);
        (first + rest, m2)
  }

  /** One name of a directory; the flag says that the directory is read on. */
  function BuildEntry(path: string, e: Entry, env: Env, m: nat, mallocOk: nat -> bool): (seq<ErrorInfo>, nat, bool)
    decreases e, 1
  {
    if Skipped(path, e.name, env) then ([], m, true)
    else
      match e
      case Dir(name, d) =>
        var (below, m') := Build(path + "/" + name, d, env, m, mallocOk);
        (below, m', true)
      case File(name) =>
        if mallocOk(m) then ([InfoFor(path, name, env)], m + 1, true) else ([], m + 1, false)
      case _ => ([], m, true)
  }

  const ALWAYS: nat -> bool := (m: nat) => true

  // ---- an independent description ----

  /** A file of the tree: the directories that lead to it, whether all open, and its name. */
  datatype Trail = Trail(dirs: seq<string>, open: bool, name: string)

  /** Every regular file below a directory, depth first in reading order. */
  function Trails(dir: Directory): seq<Trail>
    decreases dir, 0
  {
    EntryTrails(dir.opens, dir.entries)
  }

  function EntryTrails(open: bool, es: seq<Entry>): seq<Trail>
    decreases es, 1
  {
    if es == [] then []
    else
      (match es[0]
       case File(name) => [Trail([], open, name)]
       case Dir(name, d) => Under(name, open, Trails(d))
       case _ => [])
      + EntryTrails(open, es[1..])
  }

  /** The same files seen from one directory higher. */
  function Under(name: string, open: bool, ts: seq<Trail>): seq<Trail> {
    if ts == [] then []
    else [Trail([name] + ts[0].dirs, open && ts[0].open, ts[0].name)] + Under(name, open, ts[1..])
  }

  function DirPath(path: string, dirs: seq<string>): string
    decreases |dirs|
  {
    if dirs == [] then path else DirPath(path + "/" + dirs[0], dirs[1..])
  }

  /** No directory on the way is skipped or too long, and neither is the file itself. */
  predicate Eligible(path: string, t: Trail, env: Env) {
    t.open && Reachable(path, t.dirs, env) && !Skipped(DirPath(path, t.dirs), t.name, env)
  }

  predicate Reachable(path: string, dirs: seq<string>, env: Env)
    decreases |dirs|
  {
    !TooLong(path, env) &&
    (dirs == [] || (!Skipped(path, dirs[0], env) && Reachable(path + "/" + dirs[0], dirs[1..], env)))
  }

  /** The entries of the eligible files, in order. */
  function Infos(path: string, ts: seq<Trail>, env: Env): seq<ErrorInfo> {
    if ts == [] then []
    else
      (if Eligible(path, ts[0], env) then [InfoFor(DirPath(path, ts[0].dirs), ts[0].name, env)] else [])
      + Infos(path, ts[1..], env)
  }

  lemma InfosFirst(path: string, ts: seq<Trail>, env: Env)
    requires ts != []
    ensures Infos(path, ts, env) == Infos(path, [ts[0]], env) + Infos(path, ts[1..], env)
  {
    hide Eligible, InfoFor, DirPath;
    assert [ts[0]][1..] == [];
  }

  lemma {:induction false} InfosConcat(path: string, x: seq<Trail>, y: seq<Trail>, env: Env)
    ensures Infos(path, x + y, env) == Infos(path, x, env) + Infos(path, y, env)
  {
    hide Infos;
    if x == [] {
      assert x + y == y;
      NoInfos(path, env);
    } else {
      InfosFirst(path, x, env);
      InfosFirst(path, x + y, env);
      assert (x + y)[1..] == x[1..] + y;
      InfosConcat(path, x[1..], y, env);
    }
  }

  lemma NoInfos(path: string, env: Env)
    ensures Infos(path, [], env) == []
  {
  }

  /** What lies under a directory is judged from inside it, if it is entered at all. */
  lemma {:induction false} InfosUnder(path: string, name: string, open: bool, ts: seq<Trail>, env: Env)
    ensures Infos(path, Under(name, open, ts), env) ==
            if open && !TooLong(path, env) && !Skipped(path, name, env)
            then Infos(path + "/" + name, ts, env) else []
  {
    if ts != [] {
      var t := Under(name, open, ts)[0];
      assert t.dirs[1..] == ts[0].dirs;
      InfosUnder(path, name, open, ts[1..], env);
      assert Under(name, open, ts)[1..] == Under(name, open, ts[1..]);
    }
  }

  lemma {:induction false} ClosedGivesNothing(path: string, ts: seq<Trail>, env: Env)
    requires TooLong(path, env) || forall i :: 0 <= i < |ts| ==> !ts[i].open
    ensures Infos(path, ts, env) == []
  {
    if ts != [] {
      ClosedGivesNothing(path, ts[1..], env);
    }
  }

  lemma {:induction false} ClosedTrails(es: seq<Entry>)
    ensures forall i :: 0 <= i < |EntryTrails(false, es)| ==> !EntryTrails(false, es)[i].open
    decreases es
  {
    if es != [] {
      ClosedTrails(es[1..]);
      if es[0].Dir? {
        UnderClosed(es[0].name, Trails(es[0].dir));
      }
    }
  }

  lemma {:induction false} UnderClosed(name: string, ts: seq<Trail>)
    ensures forall i :: 0 <= i < |Under(name, false, ts)| ==> !Under(name, false, ts)[i].open
  {
    if ts != [] {
      UnderClosed(name, ts[1..]);
    }
  }

  /**
   * With memory, build_error_list appends exactly the entries of the eligible files of the
   * tree, in the order of a depth-first walk.
   */
  lemma {:induction false} BuildIsEligibleFiles(path: string, dir: Directory, env: Env, m: nat, mallocOk: nat -> bool)
    requires forall k :: mallocOk(k)
    ensures Build(path, dir, env, m, mallocOk).0 == Infos(path, Trails(dir), env)
    decreases dir, 0
  {
    if TooLong(path, env) {
      ClosedGivesNothing(path, Trails(dir), env);
    } else if !dir.opens {
      assert Trails(dir) == EntryTrails(false, dir.entries);
      ClosedTrails(dir.entries);
      ClosedGivesNothing(path, Trails(dir), env);
    } else {
      BuildEntriesIsEligible(path, dir.entries, env, m, mallocOk);
    }
  }

  lemma {:induction false} BuildEntriesIsEligible(path: string, es: seq<Entry>, env: Env, m: nat, mallocOk: nat -> bool)
    requires !TooLong(path, env) && forall k :: mallocOk(k)
    ensures BuildEntries(path, es, env, m, mallocOk).0 == Infos(path, EntryTrails(true, es), env)
    decreases es, 1
  {
    hide Infos, EntryTrails, BuildEntry;
    NoEntries(path, env);
    if es != [] {
      var m1 := BuildEntry(path, es[0], env, m, mallocOk).1;
      BuildEntryIsEligible(path, es[0], env, m, mallocOk);
      TrailsOfFirst(es);
      InfosConcat(path, EntryTrails(true, [es[0]]), EntryTrails(true, es[1..]), env);
      BuildEntriesIsEligible(path, es[1..], env, m1, mallocOk);
    }
  }

  lemma NoEntries(path: string, env: Env)
    ensures Infos(path, EntryTrails(true, []), env) == []
  {
  }

  lemma TrailsOfFirst(es: seq<Entry>)
    requires es != []
    ensures EntryTrails(true, es) == EntryTrails(true, [es[0]]) + EntryTrails(true, es[1..])
  {
    assert [es[0]][1..] == [];
  }

  lemma {:induction false} BuildEntryIsEligible(path: string, e: Entry, env: Env, m: nat, mallocOk: nat -> bool)
    requires !TooLong(path, env) && forall k :: mallocOk(k)
    ensures var (first, _, goOn) := BuildEntry(path, e, env, m, mallocOk);
            goOn && first == Infos(path, EntryTrails(true, [e]), env)
    decreases e, 1
  {
    assert [e][1..] == [];
    match e
    case File(name) =>
      assert EntryTrails(true, [e]) == [Trail([], true, name)];
      OneFile(path, name, env);
    case Dir(name, d) =>
      assert EntryTrails(true, [e]) == Under(name, true, Trails(d));
      InfosUnder(path, name, true, Trails(d), env);
      if !Skipped(path, name, env) {
        BuildIsEligibleFiles(path + "/" + name, d, env, m, mallocOk);
      }
    case _ =>
  }

  lemma OneFile(path: string, name: string, env: Env)
    requires !TooLong(path, env)
    ensures Infos(path, [Trail([], true, name)], env) ==
            if Skipped(path, name, env) then [] else [InfoFor(path, name, env)]
  {
    var ts := [Trail([], true, name)];
    assert ts[1..] == [];
  }

  /** In a directory without further ones a refused malloc ends the search: the entries before it are kept. */
  lemma {:induction false} RefusalEndsDirectory(
      path: string, es: seq<Entry>, env: Env, m: nat, mallocOk: nat -> bool, r: nat)
    requires !TooLong(path, env) && forall i :: 0 <= i < |es| ==> !es[i].Dir?
    requires r < |Infos(path, EntryTrails(true, es), env)|
    requires !mallocOk(m + r) && forall k :: m <= k < m + r ==> mallocOk(k)
    ensures BuildEntries(path, es, env, m, mallocOk) == (Infos(path, EntryTrails(true, es), env)[..r], m + r + 1)
    decreases |es|
  {
    hide Infos, EntryTrails, Skipped, InfoFor;
    NoEntries(path, env);
    TrailsOfFirst(es);
    InfosConcat(path, EntryTrails(true, [es[0]]), EntryTrails(true, es[1..]), env);
    FirstOfFlat(path, es[0], env);
    if es[0].File? && !Skipped(path, es[0].name, env) {
      if r > 0 {
        RefusalEndsDirectory(path, es[1..], env, m + 1, mallocOk, r - 1);
        PrefixCons(InfoFor(path, es[0].name, env), Infos(path, EntryTrails(true, es[1..]), env), r);
      }
    } else {
      assert BuildEntry(path, es[0], env, m, mallocOk) == ([], m, true);
      assert [] + Infos(path, EntryTrails(true, es[1..]), env) == Infos(path, EntryTrails(true, es), env);
      RefusalEndsDirectory(path, es[1..], env, m, mallocOk, r);
      assert Infos(path, EntryTrails(true, es), env) == Infos(path, EntryTrails(true, es[1..]), env);
      PassedBy(path, es, env, m, mallocOk);
    }
  }

  /** A name that is passed over leaves everything to the names behind it. */
  lemma PassedBy(path: string, es: seq<Entry>, env: Env, m: nat, mallocOk: nat -> bool)
    requires es != [] && BuildEntry(path, es[0], env, m, mallocOk) == ([], m, true)
    ensures BuildEntries(path, es, env, m, mallocOk) == BuildEntries(path, es[1..], env, m, mallocOk)
  {
    var rest := BuildEntries(path, es[1..], env, m, mallocOk).0;
    assert [] + rest == rest;
  }

  lemma PrefixCons<T>(x: T, s: seq<T>, r: nat)
    requires 0 < r <= |s| + 1
    ensures ([x] + s)[..r] == [x] + s[..r - 1]
  {
  }

  lemma FirstOfFlat(path: string, e: Entry, env: Env)
    requires !e.Dir? && !TooLong(path, env)
    ensures Infos(path, EntryTrails(true, [e]), env) ==
            if e.File? && !Skipped(path, e.name, env) then [InfoFor(path, e.name, env)] else []
  {
    assert [e][1..] == [];
    if e.File? {
      assert EntryTrails(true, [e]) == [Trail([], true, e.name)];
      OneFile(path, e.name, env);
    }
  }

  /** Whatever is refused below a directory, the search goes on behind it. */
  lemma RefusalBelowStaysBelow(path: string, e: Entry, es: seq<Entry>, env: Env, m: nat, mallocOk: nat -> bool)
    requires e.Dir? && !Skipped(path, e.name, env)
    ensures var (below, m1) := Build(path + "/" + e.name, e.dir, env, m, mallocOk);
            var (behind, m2) := BuildEntries(path, es, env, m1, mallocOk);
            BuildEntries(path, [e] + es, env, m, mallocOk) == (below + behind, m2)
  {
    assert ([e] + es)[1..] == es;
  }

  /** The count without a list is the number appended with one, when memory does not fail. */
  lemma CountModeAgrees(path: string, dir: Directory, env: Env, m: nat, mallocOk: nat -> bool)
    requires forall k :: mallocOk(k)
    ensures |Build(path, dir, env, 0, ALWAYS).0| == |Build(path, dir, env, m, mallocOk).0|
  {
    BuildIsEligibleFiles(path, dir, env, 0, ALWAYS);
    BuildIsEligibleFiles(path, dir, env, m, mallocOk);
  }
}
