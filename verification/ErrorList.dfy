/** The error list of a token, appended to through a pointer to the slot to fill next. */
module ErrorList {
  import opened Word
  import opened Lists
  import opened Chains
  import opened ErrorListSpec

  lemma Regroup<T>(a: seq<T>, b: seq<T>, c: seq<T>)
    ensures a + (b + c) == (a + b) + c
  {
  }

  /** Where the directory loop stands: i entries are read, and these were added so far. */
  ghost predicate Progress(path: string, es: seq<Entry>, i: nat, env: Env, m0: nat, m: nat,
                           ok: nat -> bool, added: seq<ErrorInfo>)
  {
    i <= |es| &&
    var (rest, m1) := BuildEntries(path, es[i..], env, m, ok);
    BuildEntries(path, es, env, m0, ok) == (added + rest, m1)
  }

  lemma ProgressStart(path: string, es: seq<Entry>, env: Env, m: nat, ok: nat -> bool)
    ensures Progress(path, es, 0, env, m, m, ok, [])
  {
    assert es[0..] == es;
    var rest := BuildEntries(path, es, env, m, ok).0;
    assert [] + rest == rest;
  }

  lemma ProgressStep(path: string, es: seq<Entry>, i: nat, env: Env, m0: nat, m: nat,
                     ok: nat -> bool, added: seq<ErrorInfo>)
    requires Progress(path, es, i, env, m0, m, ok, added) && i < |es|
    ensures var (more, m', goOn) := BuildEntry(path, es[i], env, m, ok);
            if goOn then Progress(path, es, i + 1, env, m0, m', ok, added + more)
            else BuildEntries(path, es, env, m0, ok) == (added + more, m')
  {
    hide BuildEntry;
    assert es[i..][0] == es[i] && es[i..][1..] == es[i + 1..];
    var (more, m', goOn) := BuildEntry(path, es[i], env, m, ok);
    if goOn {
      Regroup(added, more, BuildEntries(path, es[i + 1..], env, m', ok).0);
    }
  }

  lemma ProgressEnd(path: string, es: seq<Entry>, env: Env, m0: nat, m: nat, ok: nat -> bool, added: seq<ErrorInfo>)
    requires Progress(path, es, |es|, env, m0, m, ok, added)
    ensures BuildEntries(path, es, env, m0, ok) == (added, m)
  {
    assert added + [] == added;
  }

  /** What el points at: the head of the list, or the next field of a cell. */
  function Slot(list: Chain<ErrorInfo>, el: Cell?<ErrorInfo>): Cell?<ErrorInfo>
    reads list, el
  {
    if el == null then list.first else el.next
  }

  /** From any slot on to the one at the end of the list. */
  method LastSlot(list: Chain<ErrorInfo>, from: Cell?<ErrorInfo>, ghost j: nat) returns (el: Cell?<ErrorInfo>)
    requires list.Valid() && j <= |list.cells| && from == At(list.cells, j - 1)
    ensures el == At(list.cells, |list.cells| - 1)
  {
    el := from;
    ghost var k := j;
    while Slot(list, el) != null
      invariant k <= |list.cells| && el == At(list.cells, k - 1)
      decreases |list.cells| - k
    {
      el, k := Slot(list, el), k + 1;
    }
  }

  /** The loops over errors_exclude and errors_clearable. */
  method InTable(name: string, table: seq<string>) returns (found: bool)
    ensures found == (name in table)
  {
    var i := 0;
    while i < |table|
      invariant 0 <= i <= |table| && name !in table[..i]
    {
      if name == table[i] {
        return true;
      }
      assert table[..i + 1] == table[..i] + [table[i]];
      i := i + 1;
    }
    assert table[..i] == table;
    return false;
  }

  /** The three reasons not to look at a name. */
  method Skips(path: string, name: string, env: Env) returns (skip: bool)
    ensures skip == Skipped(path, name, env)
  {
    if name != "" && name[0] == '.' {
      return true;
    }
    skip := InTable(name, EXCLUDED);
    if !skip {
      skip := |path| + 1 + |name| > env.filenameMax;
    }
  }

  /** Fill in the entry for one file, looking for the file that clears it. */
  method MakeInfo(path: string, name: string, env: Env) returns (info: ErrorInfo)
    ensures info == InfoFor(path, name, env)
  {
    hide Truncate;
    var file := path + "/" + name;
    info := ErrorInfo(Truncate(name, env.nameMax), Truncate(file, env.pathMax), false, "");
    if name == "errors" && env.intelClass {
      if env.exists_(path + "/clear") {
        info := info.(canClear := true, clearFile := Truncate(path + "/clear", env.pathMax));
      }
    } else {
      var clearable := InTable(name, CLEARABLE);
      if clearable && env.exists_(file) {
        info := info.(canClear := true, clearFile := Truncate(file, env.pathMax));
      }
    }
  }

  /** Append the entry for one file, with memory. */
  method AppendFile(list: Chain<ErrorInfo>, from: Cell?<ErrorInfo>, ghost j: nat, path: string, name: string, env: Env)
    returns (el: Cell<ErrorInfo>)
    requires list.Valid() && j <= |list.cells| && from == At(list.cells, j - 1)
    modifies list.Repr()
    ensures list.Valid() && fresh(list.members - old(list.members))
    ensures list.cells == old(list.cells) + [el]
    ensures list.view == old(list.view) + [InfoFor(path, name, env)] && el == At(list.cells, |list.cells| - 1)
  {
    hide Path, Shows, Elems, Distinct, InfoFor;
    var info := MakeInfo(path, name, env);
    var entry := new Cell(info);
    var last := LastSlot(list, from, j);
    list.Append(last, entry);
    return entry;
  }

  /** What an appending step promises: the new entries follow the old list, their number is n. */
  twostate predicate Appended(list: Chain<ErrorInfo>, added: seq<ErrorInfo>)
    reads list, list.Repr()
  {
    && list.Valid() && fresh(list.members - old(list.members))
    && old(list.cells) <= list.cells && list.view == old(list.view) + added
  }

  /** One name of a directory; el is the slot to go on from and k its position. */
  method VisitEntry(path: string, e: Entry, env: Env, list: Chain?<ErrorInfo>,
                    from: Cell?<ErrorInfo>, ghost j: nat, m0: nat, mallocOk: nat -> bool)
    returns (n: u32, m: nat, goOn: bool, el: Cell?<ErrorInfo>, ghost k: nat)
    requires list != null ==> list.Valid() && j <= |list.cells| && from == At(list.cells, j - 1)
    modifies if list == null then {} else list.Repr()
    ensures var (added, m1, on) := BuildEntry(path, e, env, m0, if list == null then ALWAYS else mallocOk);
            n == Wrap32(|added|) && m == m1 && goOn == on && (list != null ==> Appended(list, added))
    ensures list != null ==> k <= |list.cells| && el == At(list.cells, k - 1)
    decreases e
  {
    hide Path, Shows, Elems, Distinct, InfoFor, At, Build;
    n, m, goOn, el, k := 0, m0, true, from, j;
    var skip := Skips(path, e.name, env);
    if skip {
      return;
    }
    match e {
      case Dir(name, d) =>
        n, m := BuildErrorList(path + "/" + name, d, env, list, el, k, m, mallocOk);
        if list != null {
          AtPrefix(old(list.cells), list.cells, k - 1);
        }
      case File(name) =>
        n, m := 1, m + 1;
        if list != null {
          if mallocOk(m0) {
            el := AppendFile(list, el, k, path, name, env);
            k := |list.cells|;
          } else {
            n, goOn := 0, false;
          }
        }
      case _ =>
    }
  }

  /**
   * build_error_list. Without a list it only counts; m is how many entries were tried
   * before, which with a list is how often malloc was called.
   */
  method BuildErrorList(path: string, dir: Directory, env: Env, list: Chain?<ErrorInfo>,
                        from: Cell?<ErrorInfo>, ghost j: nat, m0: nat, mallocOk: nat -> bool)
    returns (n: u32, m: nat)
    requires list != null ==> list.Valid() && j <= |list.cells| && from == At(list.cells, j - 1)
    modifies if list == null then {} else list.Repr()
    ensures var (added, m1) := Build(path, dir, env, m0, if list == null then ALWAYS else mallocOk);
            n == Wrap32(|added|) && m == m1 && (list != null ==> Appended(list, added))
    decreases dir
  {
    hide Path, Shows, Elems, Distinct, At, BuildEntries, BuildEntry, Progress;
    n, m := 0, m0;
    if |path| + 3 > env.filenameMax {
      return;
    }
    if !dir.opens {
      return;
    }
    var es := dir.entries;
    var el := from;
    ghost var k: nat := j;
    ghost var ok := if list == null then ALWAYS else mallocOk;
    ghost var added: seq<ErrorInfo> := [];
    var i := 0;
    ProgressStart(path, es, env, m, ok);
    while i < |es|
      invariant 0 <= i <= |es| && n == Wrap32(|added|)
      invariant list != null ==> Appended(list, added)
      invariant list != null ==> k <= |list.cells| && el == At(list.cells, k - 1)
      invariant Progress(path, es, i, env, m0, m, ok, added)
    {
      ProgressStep(path, es, i, env, m0, m, ok, added);
      ghost var more := BuildEntry(path, es[i], env, m, ok).0;
      var sub, goOn;
      sub, m, goOn, el, k := VisitEntry(path, es[i], env, list, el, k, m, mallocOk);
      Wrap32Sum(|added|, |more|);
      if list != null {
        Regroup(old(list.view), added, more);
      }
      n := Wrap32(n + sub);
      added := added + more;
      i := i + 1;
      if !goOn {
        return;
      }
    }
    ProgressEnd(path, es, env, m0, m, ok, added);
  }

  /** free_list: drop the copies made so far. */
  method FreeAll(list: Chain<ErrorInfo>)
    requires list.Valid()
    modifies list.Repr()
    ensures list.Valid() && list.view == [] && list.members <= old(list.members)
  {
    hide Path, Shows, Elems, Distinct;
    list.Here(0);
    while list.first != null
      invariant list.Valid() && list.first == At(list.cells, 0) && |list.cells| == |list.view|
      invariant list.members <= old(list.members)
      decreases |list.cells|
    {
      var trash := list.first;
      list.Unlink(null, trash, 0);
      list.Here(0);
    }
  }

  /** clone_error_list: all of the entries, or none when one cannot be allocated. */
  method CloneErrorList(src: Chain<ErrorInfo>, mallocOk: nat -> bool) returns (clone: Chain<ErrorInfo>)
    requires src.Valid()
    ensures clone.Valid() && fresh(clone.Repr())
    ensures clone.view ==
            if forall k :: 0 <= k < |src.view| ==> mallocOk(k) then src.view else []
  {
    hide Path, Shows, Elems, Distinct;
    clone := new Chain();
    var last: Cell?<ErrorInfo> := null;
    src.Here(0);
    var p, k := src.first, 0;
    while p != null
      invariant src.Valid() && 0 <= k <= |src.cells| == |src.view| && p == At(src.cells, k)
      invariant clone.Valid() && fresh(clone.Repr()) && last == At(clone.cells, |clone.cells| - 1)
      invariant clone.view == src.view[..k]
      invariant forall i :: 0 <= i < k ==> mallocOk(i)
      decreases |src.cells| - k
    {
      if !mallocOk(k) {
        FreeAll(clone);
        return;
      }
      src.Here(k);
      var copy := new Cell(p.data);
      clone.Append(last, copy);
      last := copy;
      p, k := p.next, k + 1;
    }
  }
}
