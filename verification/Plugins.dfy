/** The plugin manager: a table of flags and a linked list of adapters, changed in place. */
module Plugins {
  import opened Lists
  import opened Chains
  import opened PluginSpec

  /** An adapter, known by the plugin it comes from. */
  type AdapterTable = Cell<string>

  class PluginMgr {
    const table: array<Row>
    const adapters: Chain<string>
    var initialized: bool

    constructor (rows: seq<Row>)
      ensures Valid() && fresh(Repr()) && Model() == Mgr(rows, [], false)
    {
      table := new Row[|rows|](i requires 0 <= i < |rows| => rows[i]);
      adapters := new Chain();
      initialized := false;
      new;
      assert table[..] == rows;
    }

    ghost function Repr(): set<object>
      reads this, adapters
    {
      {this, table} + adapters.Repr()
    }

    ghost predicate Valid()
      reads this, adapters, Repr()
    {
      this !in adapters.Repr() && table !in adapters.Repr() && adapters.Valid()
    }

    ghost function Model(): Mgr
      reads this, table, adapters
    {
      Mgr(table[..], adapters.view, initialized)
    }

    /** opae_plugin_mgr_detect_platform */
    method DetectPlatform(id: Id)
      modifies table
      ensures table[..] == PluginSpec.DetectPlatform(old(table[..]), id)
    {
      var i := 0;
      while i < table.Length
        invariant 0 <= i <= table.Length
        invariant forall k :: i <= k < table.Length ==> table[k] == old(table[k])
        invariant forall k :: 0 <= k < i ==>
                    table[k] == if IdOf(old(table[k])) == id then old(table[k]).(detected := true) else old(table[k])
      {
        if table[i].vendor == id.vendor && table[i].device == id.device {
          table[i] := table[i].(detected := true);
        }
        i := i + 1;
      }
    }

    /** opae_plugin_mgr_detect_platforms; it gives up at the first device it cannot read. */
    method DetectPlatforms(scan: Scan) returns (errors: nat)
      modifies table
      ensures table[..] == PluginSpec.DetectPlatforms(old(table[..]), scan.ids)
      ensures errors == if scan.ok then 0 else 1
    {
      hide PluginSpec.DetectPlatform;
      var i := 0;
      assert scan.ids[0..] == scan.ids;
      while i < |scan.ids|
        invariant 0 <= i <= |scan.ids|
        invariant PluginSpec.DetectPlatforms(table[..], scan.ids[i..]) ==
                  PluginSpec.DetectPlatforms(old(table[..]), scan.ids)
      {
        assert scan.ids[i..][1..] == scan.ids[i + 1..];
        DetectPlatform(Narrow(scan.ids[i]));
        i := i + 1;
      }
      return if scan.ok then 0 else 1;
    }

    /** Walk to the last entry of the adapter list, which must not be empty. */
    method LastEntry() returns (aptr: AdapterTable)
      requires Valid() && adapters.first != null
      ensures 0 < |adapters.cells| && aptr == adapters.cells[|adapters.cells| - 1]
    {
      hide Path, Shows, Elems, Distinct;
      adapters.Here(0);
      ghost var k := 0;
      aptr := adapters.first;
      while aptr.next != null
        invariant 0 <= k < |adapters.cells| && aptr == adapters.cells[k]
        invariant aptr.next == At(adapters.cells, k + 1)
        decreases |adapters.cells| - k
      {
        adapters.Here(k + 1);
        aptr, k := aptr.next, k + 1;
      }
    }

    /** opae_plugin_mgr_register_adapter: new entries go to the end. */
    method RegisterAdapter(adapter: AdapterTable)
      requires Valid() && adapter !in adapters.members
      modifies adapters.Repr(), adapter
      ensures Valid() && adapters.members == old(adapters.members) + {adapter}
      ensures adapters.view == old(adapters.view) + [old(adapter.data)]
    {
      hide Path, Shows, Elems, Distinct;
      adapter.next := null;
      adapters.Here(0);
      if adapters.first == null {
        adapters.Append(null, adapter);
      } else {
        var aptr := LastEntry();
        adapters.Append(aptr, adapter);
      }
    }

    /** The inner loop over the table: is the plugin loaded for another row? */
    method AlreadyLoaded(plugin: string) returns (loaded: bool)
      ensures loaded == IsLoaded(table[..], plugin)
    {
      var j := 0;
      while j < table.Length
        invariant 0 <= j <= table.Length
        invariant forall k :: 0 <= k < j ==> !(table[k].plugin == plugin && table[k].loaded)
      {
        if plugin == table[j].plugin && table[j].loaded {
          assert table[..][j] == table[j];
          return true;
        }
        j := j + 1;
      }
      return false;
    }

    /** The state of the loading loop. */
    ghost function Now(attempts: nat, errors: nat, platforms: nat, stopped: bool): Loading
      reads this, table, adapters
    {
      Loading(table[..], adapters.view, attempts, errors, platforms, stopped)
    }

    /** Allocate, configure and register the adapter for the plugin of a row. */
    method LoadPlugin(i: nat, outcome: Outcome)
      requires Valid() && i < table.Length
      modifies table, adapters.Repr()
      ensures Valid() && fresh(adapters.members - old(adapters.members))
      ensures if outcome == Configured then
                && table[..] == old(table[..])[i := old(table[i]).(loaded := true)]
                && adapters.view == old(adapters.view) + [old(table[i]).plugin]
              else table[..] == old(table[..]) && adapters.view == old(adapters.view)
    {
      hide Path, Shows, Elems, Distinct, Chain.Valid;
      if outcome == Configured {
        var adapter := new Cell(table[i].plugin);
        RegisterAdapter(adapter);
        table[i] := table[i].(loaded := true);
      }
    }

    /** The loop over the detected platforms. */
    method LoadDetected(outcomes: nat -> Outcome) returns (errors: nat, platforms: nat)
      requires Valid()
      modifies table, adapters.Repr()
      ensures Valid() && fresh(adapters.members - old(adapters.members))
      ensures var l := LoadRows(StartLoading(old(table[..]), old(adapters.view)), 0, outcomes);
              table[..] == l.rows && adapters.view == l.names && errors == l.errors && platforms == l.platforms
    {
      hide Path, Shows, Elems, Distinct, Chain.Valid, IsLoaded;
      errors, platforms := 0, 0;
      var i, attempts := 0, 0;
      ghost var l := LoadRows(StartLoading(table[..], adapters.view), 0, outcomes);
      while i < table.Length
        invariant 0 <= i <= table.Length
        invariant Valid() && fresh(adapters.members - old(adapters.members))
        invariant LoadRows(Now(attempts, errors, platforms, false), i, outcomes) == l
      {
        ghost var before := Now(attempts, errors, platforms, false);
        i := i + 1;
        if !table[i - 1].detected {
          continue;
        }
        platforms := platforms + 1;
        var loaded := AlreadyLoaded(table[i - 1].plugin);
        if loaded {
          continue;
        }
        attempts := attempts + 1;
        LoadPlugin(i - 1, outcomes(attempts - 1));
        match outcomes(attempts - 1) {
          case NoAdapter =>
            errors := errors + 1;
            return;
          case NotConfigured =>
            errors := errors + 1;
          case Configured =>
        }
      }
    }

    /** opae_plugin_mgr_initialize_all; an adapter starts if it wants no initialization or that succeeds. */
    method InitializeAll(starts: string -> bool) returns (errors: nat)
      requires Valid()
      ensures errors == Failures(adapters.view, starts)
    {
      hide Path, Shows, Elems, Distinct;
      adapters.Here(0);
      var aptr := adapters.first;
      ghost var k := 0;
      errors := 0;
      while aptr != null
        invariant 0 <= k <= |adapters.cells| == |adapters.view| && aptr == At(adapters.cells, k)
        invariant errors + Failures(adapters.view[k..], starts) == Failures(adapters.view, starts)
        decreases |adapters.cells| - k
      {
        adapters.Here(k);
        assert adapters.view[k..][1..] == adapters.view[k + 1..];
        if !starts(aptr.data) {
          errors := errors + 1;
        }
        aptr, k := aptr.next, k + 1;
      }
    }

    /** opae_plugin_mgr_initialize, for which no configuration file names a plugin */
    method Initialize(scan: Scan, outcomes: nat -> Outcome, starts: string -> bool) returns (errors: nat)
      requires Valid()
      modifies this`initialized, table, adapters.Repr()
      ensures Valid() && fresh(adapters.members - old(adapters.members))
      ensures (Model(), errors) == PluginSpec.Initialize(old(Model()), scan, outcomes, starts)
    {
      hide Chain.Valid, LoadRows, PluginSpec.DetectPlatforms, Failures;
      if initialized {
        return 0;
      }
      errors := DetectPlatforms(scan);
      var platforms := 0;
      if errors == 0 {
        errors, platforms := LoadDetected(outcomes);
        if errors == 0 {
          errors := InitializeAll(starts);
          if errors == 0 && platforms > 0 {
            initialized := true;
          }
        }
      }
    }

    /** Finalize the adapters one by one, take each off the list and close its library. */
    method FreeAdapters(finalizes: string -> bool, closes: string -> bool) returns (errors: nat)
      requires Valid()
      modifies adapters.Repr()
      ensures Valid() && adapters.members <= old(adapters.members) && adapters.view == []
      ensures errors == Failures(old(adapters.view), finalizes) + Failures(old(adapters.view), closes)
    {
      hide Path, Shows, Elems, Distinct;
      errors := 0;
      adapters.Here(0);
      while adapters.first != null
        invariant Valid() && adapters.first == At(adapters.cells, 0) && |adapters.cells| == |adapters.view|
        invariant adapters.members <= old(adapters.members)
        invariant errors + Failures(adapters.view, finalizes) + Failures(adapters.view, closes) ==
                  Failures(old(adapters.view), finalizes) + Failures(old(adapters.view), closes)
        decreases |adapters.cells|
      {
        var trash := adapters.first;
        adapters.Here(0);
        if !finalizes(trash.data) {
          errors := errors + 1;
        }
        assert Remove(adapters.view, 0) == adapters.view[1..];
        adapters.Unlink(null, trash, 0);
        if !closes(trash.data) {
          errors := errors + 1;
        }
        adapters.Here(0);
      }
    }

    /** opae_plugin_mgr_finalize_all; the errors are the finalizers and closings that fail. */
    method FinalizeAll(finalizes: string -> bool, closes: string -> bool) returns (errors: nat)
      requires Valid()
      modifies this`initialized, table, adapters.Repr()
      ensures Valid() && adapters.members <= old(adapters.members)
      ensures Model() == Finalize(old(Model()))
      ensures errors == Failures(old(adapters.view), finalizes) + Failures(old(adapters.view), closes)
    {
      hide Path, Shows, Elems, Distinct, Chain.Valid, Failures;
      errors := FreeAdapters(finalizes, closes);
      var i := 0;
      while i < table.Length
        invariant 0 <= i <= table.Length
        invariant Valid() && adapters.members <= old(adapters.members) && adapters.view == []
        invariant forall k :: i <= k < table.Length ==> table[k] == old(table[k])
        invariant forall k :: 0 <= k < i ==> table[k] == old(table[k]).(detected := false, loaded := false)
      {
        table[i] := table[i].(detected := false, loaded := false);
        i := i + 1;
      }
      initialized := false;
    }
  }
}
