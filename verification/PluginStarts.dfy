/** When a start of the plugin manager is free of errors. */
module PluginStarts {
  import opened Lists
  import opened PluginSpec

  /** The plugins still to be loaded for the detected rows from i on. */
  function ToLoad(rows: seq<Row>, i: nat): set<string> {
    set k | i <= k < |rows| && rows[k].detected && !IsLoaded(rows, rows[k].plugin) :: rows[k].plugin
  }

  ghost predicate SomeDetected(rows: seq<Row>, i: nat) {
    exists k :: i <= k < |rows| && rows[k].detected
  }

  /** n attempts from the m-th one on all end with an adapter that is configured. */
  ghost predicate AllConfigured(outcomes: nat -> Outcome, m: nat, n: nat) {
    forall k :: m <= k < m + n ==> outcomes(k) == Configured
  }

  lemma {:induction false} ErrorsStay(l: Loading, i: nat, outcomes: nat -> Outcome)
    requires i <= |l.rows|
    ensures l.errors <= LoadRows(l, i, outcomes).errors
    decreases |l.rows| - i
  {
    if i < |l.rows| && !l.stopped {
      ErrorsStay(LoadRow(l, i, outcomes), i + 1, outcomes);
    }
  }

  /** A row that needs no attempt changes nothing that is still to be done. */
  lemma PassRow(rows: seq<Row>, i: nat)
    requires i < |rows| && (!rows[i].detected || IsLoaded(rows, rows[i].plugin))
    ensures ToLoad(rows, i) == ToLoad(rows, i + 1)
  {
    hide IsLoaded;
    forall p | p in ToLoad(rows, i)
      ensures p in ToLoad(rows, i + 1)
    {
      var k :| i <= k < |rows| && rows[k].detected && !IsLoaded(rows, rows[k].plugin) && rows[k].plugin == p;
      assert i + 1 <= k;
    }
  }

  /** Loading row i leaves the other plugins to be loaded. */
  lemma MarkRow(rows: seq<Row>, i: nat)
    requires i < |rows| && rows[i].detected && !IsLoaded(rows, rows[i].plugin)
    ensures var rows' := rows[i := rows[i].(loaded := true)];
            && rows[i].plugin in ToLoad(rows, i)
            && ToLoad(rows', i + 1) == ToLoad(rows, i) - {rows[i].plugin}
            && forall k :: 0 <= k < |rows| ==> rows'[k].detected == rows[k].detected
  {
    hide IsLoaded;
    LoadingOne(rows, i);
    var rows' := rows[i := rows[i].(loaded := true)];
    forall p | p in ToLoad(rows, i) - {rows[i].plugin}
      ensures p in ToLoad(rows', i + 1)
    {
      var k :| i <= k < |rows| && rows[k].detected && !IsLoaded(rows, rows[k].plugin) && rows[k].plugin == p;
      assert rows'[k].plugin == p && rows'[k].detected;
    }
    forall p | p in ToLoad(rows', i + 1)
      ensures p in ToLoad(rows, i) - {rows[i].plugin}
    {
      var k :| i + 1 <= k < |rows| && rows'[k].detected && !IsLoaded(rows', rows'[k].plugin) && rows'[k].plugin == p;
      assert rows[k].plugin == p && rows[k].detected;
    }
  }

  /**
   * The loading loop ends without an error exactly when each plugin still to be loaded gets
   * a configured adapter; then these are added to the list, and some platform is counted
   * exactly if some row is detected.
   */
  lemma {:induction false} LoadWorksIff(l: Loading, i: nat, outcomes: nat -> Outcome)
    requires i <= |l.rows| && l.errors == 0 && !l.stopped
    ensures var end := LoadRows(l, i, outcomes);
            && (end.errors == 0 <==> AllConfigured(outcomes, l.attempts, |ToLoad(l.rows, i)|))
            && (end.errors == 0 ==>
                  && Elems(end.names) == Elems(l.names) + ToLoad(l.rows, i)
                  && (end.platforms > 0 <==> l.platforms > 0 || SomeDetected(l.rows, i)))
    decreases |l.rows| - i
  {
    hide IsLoaded, ToLoad, Elems, SomeDetected;
    if i == |l.rows| {
      NothingToLoad(l.rows);
      assert Elems(l.names) + {} == Elems(l.names);
      assert AllConfigured(outcomes, l.attempts, 0);
    } else {
      var l' := LoadRow(l, i, outcomes);
      DetectedFrom(l.rows, i);
      if !l.rows[i].detected || IsLoaded(l.rows, l.rows[i].plugin) {
        PassRow(l.rows, i);
        LoadWorksIff(l', i + 1, outcomes);
      } else if outcomes(l.attempts) == Configured {
        LoadWorksIff(l', i + 1, outcomes);
        LoadedRow(l, i, outcomes);
      } else {
        MarkRow(l.rows, i);
        ErrorsStay(l', i + 1, outcomes);
        assert ToLoad(l.rows, i) != {};
      }
    }
  }

  /** What is left to do behind a row whose plugin has just been loaded. */
  lemma LoadedRow(l: Loading, i: nat, outcomes: nat -> Outcome)
    requires i < |l.rows| && l.rows[i].detected && !IsLoaded(l.rows, l.rows[i].plugin)
    requires outcomes(l.attempts) == Configured
    ensures var l' := LoadRow(l, i, outcomes);
            && Elems(l'.names) + ToLoad(l'.rows, i + 1) == Elems(l.names) + ToLoad(l.rows, i)
            && |ToLoad(l.rows, i)| == |ToLoad(l'.rows, i + 1)| + 1
            && (SomeDetected(l'.rows, i + 1) <==> SomeDetected(l.rows, i + 1))
  {
    hide IsLoaded, ToLoad, Elems, SomeDetected;
    var l' := LoadRow(l, i, outcomes);
    MarkRow(l.rows, i);
    SameDetected(l.rows, l'.rows, i + 1);
    ElemsAppend(l.names, l.rows[i].plugin);
    assert ToLoad(l.rows, i) == ToLoad(l'.rows, i + 1) + {l.rows[i].plugin};
  }

  lemma NothingToLoad(rows: seq<Row>)
    ensures ToLoad(rows, |rows|) == {} && !SomeDetected(rows, |rows|)
  {
  }

  lemma DetectedFrom(rows: seq<Row>, i: nat)
    requires i < |rows|
    ensures SomeDetected(rows, i) <==> rows[i].detected || SomeDetected(rows, i + 1)
  {
  }

  lemma SameDetected(rows: seq<Row>, rows': seq<Row>, i: nat)
    requires |rows| == |rows'| && forall k :: 0 <= k < |rows| ==> rows'[k].detected == rows[k].detected
    ensures SomeDetected(rows, i) <==> SomeDetected(rows', i)
  {
    assert forall k :: 0 <= k < |rows| ==> rows[k].detected == rows'[k].detected;
  }

  function Failing(names: seq<string>, starts: string -> bool): set<string> {
    set p | p in names && !starts(p)
  }

  lemma FailingCons(name: string, rest: seq<string>, starts: string -> bool)
    requires name !in rest
    ensures |Failing([name] + rest, starts)| == (if starts(name) then 0 else 1) + |Failing(rest, starts)|
  {
    assert Failing([name] + rest, starts) == (if starts(name) then {} else {name}) + Failing(rest, starts);
  }

  /** The errors of a round over the adapters are those of the list for which it fails. */
  lemma {:induction false} FailuresCount(names: seq<string>, starts: string -> bool)
    requires Distinct(names)
    ensures Failures(names, starts) == |Failing(names, starts)|
  {
    hide Distinct, Elems, Failing;
    if names == [] {
      assert Failing([], starts) == {} by {
        NoneFailing(starts);
      }
    } else {
      assert names == [names[0]] + names[1..];
      ElemsCons(names[0], names[1..]);
      FailingCons(names[0], names[1..], starts);
      FailuresCount(names[1..], starts);
    }
  }

  lemma NoneFailing(starts: string -> bool)
    ensures Failing([], starts) == {}
  {
  }

  lemma {:induction false} NoFailuresIff(names: seq<string>, starts: string -> bool)
    ensures Failures(names, starts) == 0 <==> forall p :: p in Elems(names) ==> starts(p)
  {
    if names != [] {
      assert names == [names[0]] + names[1..];
      ElemsCons(names[0], names[1..]);
      NoFailuresIff(names[1..], starts);
    }
  }

  // ---- the start ----

  /** A device of the row was seen before or is seen now. */
  ghost predicate IsSeen(row: Row, scan: Scan) {
    row.detected || IdOf(row) in Seen(scan.ids)
  }

  /** The plugins of all rows seen that are not loaded yet. */
  ghost function NewPlugins(m: Mgr, scan: Scan): set<string> {
    set k | 0 <= k < |m.rows| && IsSeen(m.rows[k], scan) && !IsLoaded(m.rows, m.rows[k].plugin) :: m.rows[k].plugin
  }

  lemma {:induction false} DetectedRows(rows: seq<Row>, ids: seq<Id>)
    ensures var rows' := DetectPlatforms(rows, ids);
            && |rows'| == |rows|
            && forall k :: 0 <= k < |rows| ==>
                 rows'[k] == rows[k].(detected := rows[k].detected || IdOf(rows[k]) in Seen(ids))
    decreases |ids|
  {
    hide Seen;
    if ids == [] {
      assert Seen([]) == {} by {
        NothingSeen();
      }
    } else {
      SeenCons(ids);
      DetectedRows(DetectPlatform(rows, Narrow(ids[0])), ids[1..]);
    }
  }

  lemma NothingSeen()
    ensures Seen([]) == {}
  {
  }

  /**
   * Detection flags exactly the rows of the devices read, by the low 16 bits of vendor and
   * device, beside those flagged before, and changes nothing else.
   */
  lemma DetectedIff(rows: seq<Row>, ids: seq<Id>, k: nat)
    requires k < |rows|
    ensures |DetectPlatforms(rows, ids)| == |rows|
    ensures var row := DetectPlatforms(rows, ids)[k];
            && (row.detected <==>
                  || rows[k].detected
                  || exists i :: 0 <= i < |ids| && ids[i].vendor % 0x1_0000 == rows[k].vendor
                                && ids[i].device % 0x1_0000 == rows[k].device)
            && row.(detected := rows[k].detected) == rows[k]
  {
    DetectedRows(rows, ids);
    if i :| 0 <= i < |ids| && Narrow(ids[i]) == IdOf(rows[k]) {
      assert Narrow(ids[i]) in Seen(ids);
    }
  }

  lemma NewAfterDetection(m: Mgr, scan: Scan)
    ensures ToLoad(DetectPlatforms(m.rows, scan.ids), 0) == NewPlugins(m, scan)
    ensures SomeDetected(DetectPlatforms(m.rows, scan.ids), 0) <==>
            exists k :: 0 <= k < |m.rows| && IsSeen(m.rows[k], scan)
  {
    hide DetectPlatforms, Seen, IsLoaded;
    DetectedRows(m.rows, scan.ids);
    var rows := DetectPlatforms(m.rows, scan.ids);
    assert forall p :: IsLoaded(rows, p) <==> IsLoaded(m.rows, p) by {
      SameLoaded(m.rows, rows);
    }
    assert forall k :: 0 <= k < |rows| ==>
      (rows[k].detected <==> IsSeen(m.rows[k], scan)) && rows[k].plugin == m.rows[k].plugin;
  }

  lemma SameLoaded(rows: seq<Row>, rows': seq<Row>)
    requires |rows| == |rows'|
    requires forall k :: 0 <= k < |rows| ==> rows'[k].plugin == rows[k].plugin && rows'[k].loaded == rows[k].loaded
    ensures forall p :: IsLoaded(rows', p) <==> IsLoaded(rows, p)
  {
    assert forall k :: 0 <= k < |rows| ==> rows[k].plugin == rows'[k].plugin && rows[k].loaded == rows'[k].loaded;
  }

  /**
   * A start that is not ignored reports no error exactly when the scan ends well, each
   * plugin new to the list gets a configured adapter, and every adapter of the list then
   * starts. It counts as done if besides that some row of the table was seen.
   */
  lemma StartWorksIff(m: Mgr, scan: Scan, outcomes: nat -> Outcome, starts: string -> bool)
    requires !m.initialized
    ensures var (m', errors) := Initialize(m, scan, outcomes, starts);
            var wanted := NewPlugins(m, scan);
            && (errors == 0 <==>
                  && scan.ok
                  && AllConfigured(outcomes, 0, |wanted|)
                  && forall p :: p in Elems(m.names) + wanted ==> starts(p))
            && (errors == 0 ==> Elems(m'.names) == Elems(m.names) + wanted)
            && (m'.initialized <==> errors == 0 && exists k :: 0 <= k < |m.rows| && IsSeen(m.rows[k], scan))
  {
    hide DetectPlatforms, LoadRows, Failures, ToLoad, NewPlugins, IsSeen, Elems, SomeDetected, AllConfigured;
    NewAfterDetection(m, scan);
    var l := StartLoading(DetectPlatforms(m.rows, scan.ids), m.names);
    LoadWorksIff(l, 0, outcomes);
    NoFailuresIff(LoadRows(l, 0, outcomes).names, starts);
  }

  /** A second start is ignored. */
  lemma SecondStartIgnored(m: Mgr, scan: Scan, outcomes: nat -> Outcome, starts: string -> bool)
    requires m.initialized
    ensures Initialize(m, scan, outcomes, starts) == (m, 0)
  {
  }
}
