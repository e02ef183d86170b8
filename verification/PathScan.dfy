/** The search of a path for a component "..". */
module PathScan {

  /** The components of a path: what stands between its slashes. */
  function Split(path: string): (parts: seq<string>)
    ensures parts != []
  {
    if path == "" then [""]
    else
      var rest := Split(path[1..]);
      if path[0] == '/' then [""] + rest else [[path[0]] + rest[0]] + rest[1..]
  }

  function Join(parts: seq<string>): string
    requires parts != []
  {
    parts[0] + if |parts| == 1 then "" else "/" + Join(parts[1..])
  }

  /** Slashes rebuild the path from its components. */
  lemma {:induction false} JoinSplit(path: string)
    ensures Join(Split(path)) == path
  {
    if path != "" {
      var c, rest := path[0], Split(path[1..]);
      JoinSplit(path[1..]);
      assert path == [c] + path[1..];
      if c == '/' {
        assert ([""] + rest)[1..] == rest;
      } else {
        JoinPrepend(c, rest);
      }
    }
  }

  lemma JoinUnfolds(parts: seq<string>)
    requires parts != []
    ensures Join(parts) == parts[0] + if |parts| == 1 then "" else "/" + Join(parts[1..])
  {
  }

  lemma JoinPrepend(c: char, parts: seq<string>)
    requires parts != []
    ensures Join([[c] + parts[0]] + parts[1..]) == [c] + Join(parts)
  {
    hide Join;
    var longer := [[c] + parts[0]] + parts[1..];
    assert longer[1..] == parts[1..];
    JoinUnfolds(parts);
    JoinUnfolds(longer);
    var tail := if |parts| == 1 then "" else "/" + Join(parts[1..]);
    assert ([c] + parts[0]) + tail == [c] + (parts[0] + tail);
  }

  /** No component has a slash in it. */
  lemma {:induction false} NoSlashes(path: string)
    ensures forall k :: 0 <= k < |Split(path)| ==> '/' !in Split(path)[k]
  {
    if path != "" {
      NoSlashes(path[1..]);
    }
  }

  /** The first component is "..". */
  predicate Starts(path: string) {
    |path| >= 2 && path[0] == '.' && path[1] == '.' && (|path| == 2 || path[2] == '/')
  }

  lemma FirstIsEmpty(path: string)
    ensures Split(path)[0] == "" <==> path == "" || path[0] == '/'
  {
  }

  lemma FirstGrows(path: string)
    requires path != "" && path[0] != '/'
    ensures Split(path)[0] == [path[0]] + Split(path[1..])[0]
  {
  }

  lemma FirstIsDotDot(path: string)
    ensures Starts(path) <==> Split(path)[0] == ".."
  {
    hide Split;
    FirstIsEmpty(path);
    if path != "" && path[0] != '/' {
      var t := path[1..];
      FirstGrows(path);
      FirstIsEmpty(t);
      assert |Split(path)[0]| == 1 + |Split(t)[0]| && (t != "" ==> path[1] == t[0]);
      if t != "" && t[0] != '/' {
        FirstGrows(t);
        FirstIsEmpty(t[1..]);
        var u := Split(t[1..])[0];
        assert |Split(path)[0]| == 2 + |u|;
        assert Split(path)[0][0] == path[0] && Split(path)[0][1] == path[1];
        assert |path| == 2 + |t[1..]| && (t[1..] != "" ==> t[1..][0] == path[2]);
        if Starts(path) {
          assert u == "" && Split(path)[0] == [path[0]] + [path[1]];
        }
      } else {
        assert |Split(path)[0]| == 1 && !Starts(path);
      }
    }
  }

  /** Some component after the first is "..". */
  predicate Later(path: string) {
    ".." in Split(path)[1..]
  }

  /** Where ".." may begin: behind a slash. */
  lemma LaterStep(path: string)
    requires path != ""
    ensures Later(path) <==> (path[0] == '/' && Starts(path[1..])) || Later(path[1..])
  {
    hide Starts;
    var rest := Split(path[1..]);
    FirstIsDotDot(path[1..]);
    if path[0] == '/' {
      assert Split(path)[1..] == rest == [rest[0]] + rest[1..];
    } else {
      assert Split(path)[1..] == rest[1..];
    }
  }

  /** opae_bitstream_path_contains_dotdot, with len the length of the path */
  method ContainsDotDot(path: string) returns (found: bool)
    ensures found <==> ".." in Split(path)
  {
    hide Later, Split;
    FirstIsDotDot(path);
    InSplit(path);
    var len := |path|;
    if len >= 3 {
      if path[0] == '.' && path[1] == '.' && path[2] == '/' {
        return true;
      }
    } else if len == 2 {
      if path[0] == '.' && path[1] == '.' {
        return true;
      }
    }
    var p := 0;
    assert path[0..] == path;
    while p < |path|
      invariant 0 <= p <= |path| && len == |path| - p
      invariant !Starts(path) && (Later(path) <==> Later(path[p..]))
    {
      LaterStep(path[p..]);
      assert path[p..][1..] == path[p + 1..];
      if len >= 4 {
        if path[p] == '/' && path[p + 1] == '.' && path[p + 2] == '.' && path[p + 3] == '/' {
          return true;
        }
      } else if len == 3 {
        if path[p] == '/' && path[p + 1] == '.' && path[p + 2] == '.' {
          return true;
        }
      }
      p, len := p + 1, len - 1;
    }
    NoneInEmpty();
    assert path[p..] == "";
    return false;
  }

  lemma InSplit(path: string)
    ensures ".." in Split(path) <==> Split(path)[0] == ".." || Later(path)
  {
    assert Split(path) == [Split(path)[0]] + Split(path)[1..];
  }

  lemma NoneInEmpty()
    ensures !Later("")
  {
  }
}
