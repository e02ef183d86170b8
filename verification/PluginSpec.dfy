/** Detecting platforms and loading the native plugin of each, over any sequence of attempts. */
module PluginSpec {
  import opened Lists

  /** A row of the platform table with its two flags. */
  datatype Row = Row(vendor: int, device: int, plugin: string, detected: bool, loaded: bool)

  datatype Id = Id(vendor: int, device: int)

  /** The PCI devices that were read before the scan ended, and whether it ended well. */
  datatype Scan = Scan(ids: seq<Id>, ok: bool)

  /** What one attempt to load a plugin comes to. */
  datatype Outcome = NoAdapter | NotConfigured | Configured

  /** The table, the adapter list by plugin name, and the flag against a second start. */
  datatype Mgr = Mgr(rows: seq<Row>, names: seq<string>, initialized: bool)

  function IdOf(row: Row): Id {
    Id(row.vendor, row.device)
  }

  /** Vendor and device are read as unsigned and passed on as 16-bit numbers. */
  function Narrow(id: Id): Id {
    Id(id.vendor % 0x1_0000, id.device % 0x1_0000)
  }

  // ---- the calls ----

  function DetectPlatform(rows: seq<Row>, id: Id): seq<Row> {
    seq(|rows|, i requires 0 <= i < |rows| => if IdOf(rows[i]) == id then rows[i].(detected := true) else rows[i])
  }

  function DetectPlatforms(rows: seq<Row>, ids: seq<Id>): seq<Row>
    decreases |ids|
  {
    if ids == [] then rows else DetectPlatforms(DetectPlatform(rows, Narrow(ids[0])), ids[1..])
  }

  predicate IsLoaded(rows: seq<Row>, plugin: string) {
    exists j :: 0 <= j < |rows| && rows[j].plugin == plugin && rows[j].loaded
  }

  /** The loading loop; the n-th attempt ends as outcomes(n) says. */
  datatype Loading = Loading(
    rows: seq<Row>, names: seq<string>, attempts: nat, errors: nat, platforms: nat, stopped: bool)

  function LoadRow(l: Loading, i: nat, outcomes: nat -> Outcome): Loading
    requires i < |l.rows|
  {
    var plugin := l.rows[i].plugin;
    if !l.rows[i].detected then l
    else if IsLoaded(l.rows, plugin) then l.(platforms := l.platforms + 1)
    else
      var t := l.(platforms := l.platforms + 1, attempts := l.attempts + 1);
      match outcomes(l.attempts)
      case NoAdapter => t.(errors := l.errors + 1, stopped := true)
      case NotConfigured => t.(errors := l.errors + 1)
      case Configured => t.(rows := l.rows[i := l.rows[i].(loaded := true)], names := l.names + [plugin])
  }

  function LoadRows(l: Loading, i: nat, outcomes: nat -> Outcome): Loading
    requires i <= |l.rows|
    decreases |l.rows| - i
  {
    if i == |l.rows| || l.stopped then l else LoadRows(LoadRow(l, i, outcomes), i + 1, outcomes)
  }

  function StartLoading(rows: seq<Row>, names: seq<string>): Loading {
    Loading(rows, names, 0, 0, 0, false)
  }

  function Failures(names: seq<string>, starts: string -> bool): nat {
    if names == [] then 0 else (if starts(names[0]) then 0 else 1) + Failures(names[1..], starts)
  }

  /** opae_plugin_mgr_initialize without a configuration file: the new state and the errors. */
  function Initialize(m: Mgr, scan: Scan, outcomes: nat -> Outcome, starts: string -> bool): (Mgr, nat) {
    if m.initialized then (m, 0)
    else
      var rows := DetectPlatforms(m.rows, scan.ids);
      if !scan.ok then (m.(rows := rows), 1)
      else
        var l := LoadRows(StartLoading(rows, m.names), 0, outcomes);
        var errors := if l.errors > 0 then l.errors else Failures(l.names, starts);
        (Mgr(l.rows, l.names, errors == 0 && l.platforms > 0), errors)
  }

  function Finalize(m: Mgr): Mgr {
    Mgr(seq(|m.rows|, i requires 0 <= i < |m.rows| => m.rows[i].(detected := false, loaded := false)), [], false)
  }

  // ---- what holds in every run ----

  /** The fixed part of the table. */
  predicate SameTable(rows: seq<Row>, table: seq<Row>) {
    |rows| == |table| && forall i :: 0 <= i < |rows| ==>
      IdOf(rows[i]) == IdOf(table[i]) && rows[i].plugin == table[i].plugin
  }

  /** Flagged are the rows whose device was seen, and loaded rows are among them. */
  ghost predicate Flagged(rows: seq<Row>, seen: set<Id>) {
    forall i :: 0 <= i < |rows| ==>
      (rows[i].detected <==> IdOf(rows[i]) in seen) && (rows[i].loaded ==> rows[i].detected)
  }

  /** The list holds the plugins of loaded rows, each once. */
  ghost predicate Listed(rows: seq<Row>, names: seq<string>) {
    Distinct(names) && forall p :: p in names <==> IsLoaded(rows, p)
  }

  /** The plugins in the list are exactly those of the table that serve a device seen. */
  ghost predicate Exact(table: seq<Row>, names: seq<string>, seen: set<Id>) {
    forall p :: p in names <==> exists i :: 0 <= i < |table| && table[i].plugin == p && IdOf(table[i]) in seen
  }

  ghost predicate Inv(m: Mgr, table: seq<Row>, seen: set<Id>) {
    && SameTable(m.rows, table) && Flagged(m.rows, seen) && Listed(m.rows, m.names)
    && (m.initialized ==> Exact(table, m.names, seen) && m.names != [])
  }

  ghost function Seen(ids: seq<Id>): set<Id> {
    set i | 0 <= i < |ids| :: Narrow(ids[i])
  }

  lemma DetectOne(rows: seq<Row>, table: seq<Row>, names: seq<string>, seen: set<Id>, id: Id)
    requires SameTable(rows, table) && Flagged(rows, seen) && Listed(rows, names)
    ensures var rows' := DetectPlatform(rows, id);
            SameTable(rows', table) && Flagged(rows', seen + {id}) && Listed(rows', names)
  {
    var rows' := DetectPlatform(rows, id);
    assert forall i :: 0 <= i < |rows| ==> rows'[i].plugin == rows[i].plugin && rows'[i].loaded == rows[i].loaded;
    assert forall p :: IsLoaded(rows', p) <==> IsLoaded(rows, p);
  }

  lemma {:induction false} DetectKeeps(
      rows: seq<Row>, table: seq<Row>, names: seq<string>, seen: set<Id>, ids: seq<Id>)
    requires SameTable(rows, table) && Flagged(rows, seen) && Listed(rows, names)
    ensures var rows' := DetectPlatforms(rows, ids);
            SameTable(rows', table) && Flagged(rows', seen + Seen(ids)) && Listed(rows', names)
    decreases |ids|
  {
    hide SameTable, Flagged, Listed, DetectPlatform;
    if ids == [] {
      assert seen + Seen(ids) == seen;
    } else {
      var id := Narrow(ids[0]);
      DetectOne(rows, table, names, seen, id);
      DetectKeeps(DetectPlatform(rows, id), table, names, seen + {id}, ids[1..]);
      SeenCons(ids);
      assert seen + {id} + Seen(ids[1..]) == seen + Seen(ids);
    }
  }

  lemma SeenCons(ids: seq<Id>)
    requires ids != []
    ensures Seen(ids) == {Narrow(ids[0])} + Seen(ids[1..])
  {
    forall x | x in Seen(ids)
      ensures x in {Narrow(ids[0])} + Seen(ids[1..])
    {
      var i :| 0 <= i < |ids| && x == Narrow(ids[i]);
      if i > 0 {
        assert ids[1..][i - 1] == ids[i];
      }
    }
  }

  /** Up to i, every detected row has its plugin, unless there was an error. */
  ghost predicate Served(l: Loading, i: nat)
    requires i <= |l.rows|
  {
    && (l.errors == 0 ==> !l.stopped && forall k :: 0 <= k < i && l.rows[k].detected ==>
          IsLoaded(l.rows, l.rows[k].plugin))
    && (l.platforms > 0 ==> exists k :: 0 <= k < i && l.rows[k].detected)
  }

  /** Marking a row loads its plugin and unloads none. */
  lemma LoadingOne(rows: seq<Row>, i: nat)
    requires i < |rows|
    ensures forall p :: IsLoaded(rows[i := rows[i].(loaded := true)], p) <==> IsLoaded(rows, p) || p == rows[i].plugin
  {
    var rows' := rows[i := rows[i].(loaded := true)];
    assert rows'[i].loaded;
    forall p | IsLoaded(rows, p)
      ensures IsLoaded(rows', p)
    {
      var j :| 0 <= j < |rows| && rows[j].plugin == p && rows[j].loaded;
      assert rows'[j].plugin == p && rows'[j].loaded;
    }
    forall p | IsLoaded(rows', p)
      ensures IsLoaded(rows, p) || p == rows[i].plugin
    {
      var j :| 0 <= j < |rows'| && rows'[j].plugin == p && rows'[j].loaded;
      assert j != i ==> rows[j].loaded;
    }
  }

  lemma LoadRowKeeps(l: Loading, i: nat, outcomes: nat -> Outcome, table: seq<Row>, seen: set<Id>)
    requires i < |l.rows| && !l.stopped && Served(l, i)
    requires SameTable(l.rows, table) && Flagged(l.rows, seen) && Listed(l.rows, l.names)
    ensures var l' := LoadRow(l, i, outcomes);
            && |l'.rows| == |l.rows| && SameTable(l'.rows, table) && Flagged(l'.rows, seen)
            && Listed(l'.rows, l'.names) && Served(l', i + 1)
  {
    hide IsLoaded;
    LoadingOne(l.rows, i);
  }

  lemma {:induction false} LoadRowsKeeps(
      l: Loading, i: nat, outcomes: nat -> Outcome, table: seq<Row>, seen: set<Id>)
    requires i <= |l.rows| && Served(l, i)
    requires SameTable(l.rows, table) && Flagged(l.rows, seen) && Listed(l.rows, l.names)
    ensures var l' := LoadRows(l, i, outcomes);
            && SameTable(l'.rows, table) && Flagged(l'.rows, seen) && Listed(l'.rows, l'.names)
            && (l'.errors == 0 ==> Served(l', |l'.rows|))
    decreases |l.rows| - i
  {
    hide SameTable, Flagged, Listed, LoadRow;
    if i < |l.rows| && !l.stopped {
      LoadRowKeeps(l, i, outcomes, table, seen);
      LoadRowsKeeps(LoadRow(l, i, outcomes), i + 1, outcomes, table, seen);
    }
  }

  lemma ServedIsExact(l: Loading, table: seq<Row>, seen: set<Id>)
    requires SameTable(l.rows, table) && Flagged(l.rows, seen) && Listed(l.rows, l.names)
    requires l.errors == 0 && Served(l, |l.rows|)
    ensures Exact(table, l.names, seen)
    ensures l.platforms > 0 ==> l.names != []
  {
    forall p | exists i :: 0 <= i < |table| && table[i].plugin == p && IdOf(table[i]) in seen
      ensures p in l.names
    {
      var i :| 0 <= i < |table| && table[i].plugin == p && IdOf(table[i]) in seen;
      assert l.rows[i].detected && l.rows[i].plugin == p;
    }
    forall p | p in l.names
      ensures exists i :: 0 <= i < |table| && table[i].plugin == p && IdOf(table[i]) in seen
    {
      var j :| 0 <= j < |l.rows| && l.rows[j].plugin == p && l.rows[j].loaded;
      assert table[j].plugin == p && IdOf(table[j]) in seen;
    }
  }

  /** A start that is not ignored adds what it saw to the devices seen. */
  ghost function SeenAfter(m: Mgr, seen: set<Id>, scan: Scan): set<Id> {
    if m.initialized then seen else seen + Seen(scan.ids)
  }

  /**
   * Starting keeps the invariant whether it fails or not; if it reports no error, the
   * adapters are exactly the plugins of the devices seen.
   */
  lemma InitializeKeeps(m: Mgr, table: seq<Row>, seen: set<Id>, scan: Scan, outcomes: nat -> Outcome,
                        starts: string -> bool)
    requires Inv(m, table, seen)
    ensures var (m', errors) := Initialize(m, scan, outcomes, starts);
            && Inv(m', table, SeenAfter(m, seen, scan))
            && (errors == 0 ==> Exact(table, m'.names, SeenAfter(m, seen, scan)))
  {
    hide SameTable, Flagged, Listed, Exact, DetectPlatforms, LoadRows, Seen;
    if !m.initialized {
      DetectKeeps(m.rows, table, m.names, seen, scan.ids);
      var l := StartLoading(DetectPlatforms(m.rows, scan.ids), m.names);
      LoadRowsKeeps(l, 0, outcomes, table, seen + Seen(scan.ids));
      var l' := LoadRows(l, 0, outcomes);
      if l'.errors == 0 {
        ServedIsExact(l', table, seen + Seen(scan.ids));
      }
    }
  }

  lemma FinalizeKeeps(m: Mgr, table: seq<Row>, seen: set<Id>)
    requires Inv(m, table, seen)
    ensures Inv(Finalize(m), table, {})
  {
    var rows := Finalize(m).rows;
    assert forall i :: 0 <= i < |rows| ==> !rows[i].loaded && !rows[i].detected;
  }

  // ---- runs ----

  datatype Call =
    | Start(scan: Scan, outcomes: nat -> Outcome, starts: string -> bool)
    | Stop

  /** The manager and, for the specification, the devices seen since it was last stopped. */
  datatype World = World(mgr: Mgr, seen: set<Id>)

  ghost function Step(w: World, c: Call): World {
    match c
    case Start(scan, outcomes, starts) =>
      World(Initialize(w.mgr, scan, outcomes, starts).0, SeenAfter(w.mgr, w.seen, scan))
    case Stop => World(Finalize(w.mgr), {})
  }

  ghost function Run(w: World, calls: seq<Call>): World {
    if calls == [] then w else Step(Run(w, calls[..|calls| - 1]), calls[|calls| - 1])
  }

  /** A table without flags and nothing loaded. */
  ghost predicate Initial(m: Mgr, table: seq<Row>) {
    m.rows == table && m.names == [] && !m.initialized && Flagged(table, {})
  }

  /** No run, with failed starts or without, ever lists a plugin twice or one without a device. */
  lemma {:induction false} RunKeeps(m: Mgr, table: seq<Row>, calls: seq<Call>)
    requires Initial(m, table)
    ensures var w := Run(World(m, {}), calls); Inv(w.mgr, table, w.seen)
    ensures Distinct(Run(World(m, {}), calls).mgr.names)
  {
    hide Initialize, Finalize, Exact;
    if calls != [] {
      var init, c := calls[..|calls| - 1], calls[|calls| - 1];
      RunKeeps(m, table, init);
      var w := Run(World(m, {}), init);
      match c {
        case Start(scan, outcomes, starts) => InitializeKeeps(w.mgr, table, w.seen, scan, outcomes, starts);
        case Stop => FinalizeKeeps(w.mgr, table, w.seen);
      }
    }
  }

  /**
   * After any run, a start without errors leaves exactly the distinct plugins of the devices
   * seen since the last stop, also by starts that failed.
   */
  lemma ErrorFreeStartIsExact(m: Mgr, table: seq<Row>, calls: seq<Call>, scan: Scan, outcomes: nat -> Outcome,
                              starts: string -> bool)
    requires Initial(m, table)
    ensures var w := Run(World(m, {}), calls);
            var (m', errors) := Initialize(w.mgr, scan, outcomes, starts);
            errors == 0 ==> Distinct(m'.names) && Exact(table, m'.names, SeenAfter(w.mgr, w.seen, scan))
  {
    hide Initialize, Exact, Run;
    RunKeeps(m, table, calls);
    var w := Run(World(m, {}), calls);
    InitializeKeeps(w.mgr, table, w.seen, scan, outcomes, starts);
  }
}
