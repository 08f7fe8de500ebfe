/**
 * A netlist cell (CCircuit) while it is read: its ports and internal
 * signals get dense local ids, its devices and subcircuit instances are
 * numbered in input order, and a repeated instance name is rejected.
 */
module Circuits {
  import opened Outcomes
  import opened CvcTypes
  import opened Text

  /** No name occurs twice. */
  predicate Distinct(names: seq<string>) {
    forall i, j :: 0 <= i < j < |names| ==> names[i] != names[j]
  }

  /** Local ids are 0 .. size-1, one per signal name. */
  predicate Dense(ids: map<string, nat>) {
    && (forall k :: k in ids ==> ids[k] < |ids|)
    && (forall a, b :: a in ids && b in ids && ids[a] == ids[b] ==> a == b)
  }

  // ---- ports ----

  /** The signal map after AddPortSignalIds: port i gets id `next + i`; a repeated port keeps its last id. */
  function PortsAdded(ids: map<string, nat>, next: nat, ports: seq<string>): map<string, nat>
    decreases |ports|
  {
    if ports == [] then ids
    else PortsAdded(ids, next, ports[..|ports| - 1])[ports[|ports| - 1] := next + |ports| - 1]
  }

  /** Distinct ports are numbered in order from `next`; other names keep their ids. */
  lemma {:induction false} PortsNumbered(ids: map<string, nat>, next: nat, ports: seq<string>)
    requires Distinct(ports)
    ensures forall i :: 0 <= i < |ports| ==> ports[i] in PortsAdded(ids, next, ports) && PortsAdded(ids, next, ports)[ports[i]] == next + i
    ensures forall k :: k in PortsAdded(ids, next, ports) <==> k in ids || k in ports
    ensures forall k :: k in ids && k !in ports ==> PortsAdded(ids, next, ports)[k] == ids[k]
    decreases |ports|
  {
    if ports != [] {
      var front := ports[..|ports| - 1];
      PortsNumbered(ids, next, front);
      assert forall i :: 0 <= i < |front| ==> front[i] == ports[i];
      assert forall k :: k in ports <==> k in front || k == ports[|ports| - 1];
    }
  }

  /** Ports added to an empty cell from 0 give a dense map with one id per port. */
  lemma {:induction false} PortsDense(ports: seq<string>)
    requires Distinct(ports)
    ensures Dense(PortsAdded(map[], 0, ports)) && |PortsAdded(map[], 0, ports)| == |ports|
    decreases |ports|
  {
    if ports != [] {
      var front := ports[..|ports| - 1];
      var last := ports[|ports| - 1];
      assert Distinct(front);
      PortsDense(front);
      PortsNumbered(map[], 0, front);
      assert last !in front;
      var before := PortsAdded(map[], 0, front);
      assert last !in before;
    }
  }

  // ---- signal interning ----

  /** The signal map, the new internal names and the ids of a signal list after SetSignalIds. */
  datatype Interned = Interned(ids: map<string, nat>, internal: seq<string>, signalIds: seq<nat>)

  /** SetSignalIds: a known name keeps its id; a new one gets the map's size and joins the internal list. */
  function Intern(ids: map<string, nat>, internal: seq<string>, names: seq<string>): (r: Interned)
    ensures |r.signalIds| == |names|
    decreases |names|
  {
    if names == [] then Interned(ids, internal, [])
    else InternNext(Intern(ids, internal, names[..|names| - 1]), names[|names| - 1])
  }

  /** One name of SetSignalIds' loop. */
  function InternNext(r: Interned, name: string): Interned {
    if name in r.ids then r.(signalIds := r.signalIds + [r.ids[name]])
    else Interned(r.ids[name := |r.ids|], r.internal + [name], r.signalIds + [|r.ids|])
  }

  /** One more name keeps the earlier ids and gives the name its id in the map. */
  lemma InternNextIds(r: Interned, name: string)
    ensures forall k :: k in r.ids ==> k in InternNext(r, name).ids && InternNext(r, name).ids[k] == r.ids[k]
    ensures forall k :: k in InternNext(r, name).ids ==> k in r.ids || k == name
    ensures InternNext(r, name).signalIds == r.signalIds + [InternNext(r, name).ids[name]]
  {
  }

  /**
   * Each name's id is the one the final map gives it; known names keep
   * their ids, and the map gains exactly the names of the list.
   */
  lemma {:induction false} InternIds(ids: map<string, nat>, internal: seq<string>, names: seq<string>)
    ensures var r := Intern(ids, internal, names);
      forall i :: 0 <= i < |names| ==> (names[i] in r.ids && r.signalIds[i] == r.ids[names[i]])
    ensures var r := Intern(ids, internal, names);
      forall k :: k in ids ==> k in r.ids && r.ids[k] == ids[k]
    ensures var r := Intern(ids, internal, names);
      forall k :: k in r.ids ==> k in ids || k in names
    decreases |names|
  {
    if names != [] {
      var front := names[..|names| - 1];
      var name := names[|names| - 1];
      InternIds(ids, internal, front);
      var p := Intern(ids, internal, front);
      var r := Intern(ids, internal, names);
      InternNextIds(p, name);
      forall i | 0 <= i < |names|
        ensures names[i] in r.ids && r.signalIds[i] == r.ids[names[i]]
      {
        if i < |front| {
          assert names[i] == front[i];
          assert r.signalIds[i] == p.signalIds[i];
        }
      }
      assert forall k :: k in front ==> k in names;
    }
  }

  /** Interning keeps a dense map dense. */
  lemma {:induction false} InternDense(ids: map<string, nat>, internal: seq<string>, names: seq<string>)
    requires Dense(ids)
    ensures Dense(Intern(ids, internal, names).ids)
    decreases |names|
  {
    if names != [] {
      InternDense(ids, internal, names[..|names| - 1]);
    }
  }

  /**
   * The internal list grows by the new names in first-use order, and the
   * j-th new name gets the id the map's size gave it.
   */
  lemma {:induction false} InternList(ids: map<string, nat>, internal: seq<string>, names: seq<string>)
    ensures var r := Intern(ids, internal, names);
      && |internal| <= |r.internal| && r.internal[..|internal|] == internal
      && |r.ids| - |ids| == |r.internal| - |internal|
      && forall j :: |internal| <= j < |r.internal| ==>
           r.internal[j] !in ids && r.internal[j] in r.ids && r.ids[r.internal[j]] == |ids| + j - |internal|
    decreases |names|
  {
    if names != [] {
      var front := names[..|names| - 1];
      InternList(ids, internal, front);
      InternIds(ids, internal, front);
      var r := Intern(ids, internal, front);
      var name := names[|names| - 1];
      if name !in r.ids {
        var internal' := r.internal + [name];
        assert internal'[..|internal|] == internal;
        assert forall j :: |internal| <= j < |r.internal| ==> internal'[j] == r.internal[j];
      }
    }
  }

  // ---- devices ----

  /** A device or subcircuit instance as the netlist parser hands it over. */
  datatype DeviceSpec = DeviceSpec(name: string, isSubcircuit: bool, masterName: string,
                                   modelName: string, modelType: ModelType, signals: seq<string>)

  /** A device stored in a cell: its local signal ids and its offset among its kind. */
  datatype Placed = Placed(device: DeviceSpec, signalIds: seq<nat>, offset: nat)

  /** The state LoadDevices works on: the cell's signals and lists, the names seen and the two counters. */
  datatype Loading = Loading(ids: map<string, nat>, internal: seq<string>, devices: seq<Placed>, subcircuits: seq<Placed>,
                             seen: set<string>, nextDevice: nat, nextInstance: nat)

  /** The state after LoadDevices' loop, and whether it stopped at a repeated name. */
  datatype Loaded = Loaded(state: Loading, duplicate: bool)

  function Names(list: seq<DeviceSpec>): (r: seq<string>)
    ensures |r| == |list| && forall i :: 0 <= i < |list| ==> r[i] == list[i].name
  {
    seq(|list|, i requires 0 <= i < |list| => list[i].name)
  }

  /** The devices of one kind (subcircuit instances or primitives), in input order. */
  function Kept(list: seq<DeviceSpec>, subcircuit: bool): seq<DeviceSpec>
    decreases |list|
  {
    if list == [] then []
    else Kept(list[..|list| - 1], subcircuit) + (if list[|list| - 1].isSubcircuit == subcircuit then [list[|list| - 1]] else [])
  }

  /** One device of LoadDevices' loop: intern its signals, then reject a seen name or store it with the next offset of its kind. */
  function Place(st: Loading, d: DeviceSpec): Loaded {
    var r := Intern(st.ids, st.internal, d.signals);
    var st' := st.(ids := r.ids, internal := r.internal);
    if d.name in st.seen then Loaded(st', true)
    else if d.isSubcircuit then
      Loaded(st'.(subcircuits := st.subcircuits + [Placed(d, r.signalIds, st.nextInstance)],
                  seen := st.seen + {d.name}, nextInstance := st.nextInstance + 1), false)
    else
      Loaded(st'.(devices := st.devices + [Placed(d, r.signalIds, st.nextDevice)],
                  seen := st.seen + {d.name}, nextDevice := st.nextDevice + 1), false)
  }

  /** LoadDevices' loop over the list, stopping at the first repeated name. */
  function Load(st: Loading, list: seq<DeviceSpec>): Loaded
    decreases |list|
  {
    if list == [] then Loaded(st, false)
    else
      var before := Load(st, list[..|list| - 1]);
      if before.duplicate then before else Place(before.state, list[|list| - 1])
  }

  /** The names of a device list, as a set. */
  function NameSet(list: seq<DeviceSpec>): set<string> {
    set i | 0 <= i < |list| :: list[i].name
  }

  lemma NameSetLast(list: seq<DeviceSpec>)
    requires list != []
    ensures NameSet(list) == NameSet(list[..|list| - 1]) + {list[|list| - 1].name}
  {
    var front := list[..|list| - 1];
    forall n | n in NameSet(list) ensures n in NameSet(front) + {list[|list| - 1].name} {
      var i :| 0 <= i < |list| && list[i].name == n;
      if i < |front| {
        assert front[i].name == n;
      }
    }
    forall n | n in NameSet(front) ensures n in NameSet(list) {
      var i :| 0 <= i < |front| && front[i].name == n;
      assert list[i].name == n;
    }
  }

  /** A list has distinct names exactly when its front does and its last name is new. */
  lemma DistinctLast(list: seq<DeviceSpec>)
    requires list != []
    ensures Distinct(Names(list)) <==> Distinct(Names(list[..|list| - 1])) && list[|list| - 1].name !in NameSet(list[..|list| - 1])
  {
    var front := list[..|list| - 1];
    var names := Names(list);
    assert forall i :: 0 <= i < |front| ==> Names(front)[i] == names[i];
    if !Distinct(names) && Distinct(Names(front)) {
      var i, j :| 0 <= i < j < |list| && names[i] == names[j];
      assert j == |list| - 1;
      assert front[i].name in NameSet(front);
    }
  }

  /** One device is rejected exactly when its name was seen; otherwise its name joins the seen set. */
  lemma PlaceSeen(st: Loading, d: DeviceSpec)
    ensures Place(st, d).duplicate <==> d.name in st.seen
    ensures !Place(st, d).duplicate ==> Place(st, d).state.seen == st.seen + {d.name}
  {
  }

  /** After a list without repeats, the seen set holds exactly its names. */
  lemma {:induction false} LoadSeen(st: Loading, list: seq<DeviceSpec>)
    ensures !Load(st, list).duplicate ==> Load(st, list).state.seen == st.seen + NameSet(list)
    decreases |list|
  {
    if list != [] {
      LoadSeen(st, list[..|list| - 1]);
      NameSetLast(list);
      PlaceSeen(Load(st, list[..|list| - 1]).state, list[|list| - 1]);
    }
  }

  /** A name is rejected exactly when the list repeats it or it was seen before. */
  lemma {:induction false} LoadDuplicate(st: Loading, list: seq<DeviceSpec>)
    ensures !Load(st, list).duplicate <==> Distinct(Names(list)) && st.seen !! NameSet(list)
    decreases |list|
  {
    if list != [] {
      var front := list[..|list| - 1];
      LoadDuplicate(st, front);
      LoadSeen(st, front);
      NameSetLast(list);
      DistinctLast(list);
      PlaceSeen(Load(st, front).state, list[|list| - 1]);
    }
  }

  /** The stored devices of one kind, and that kind's next offset. */
  function Of(st: Loading, subcircuit: bool): seq<Placed> {
    if subcircuit then st.subcircuits else st.devices
  }

  function NextOf(st: Loading, subcircuit: bool): nat {
    if subcircuit then st.nextInstance else st.nextDevice
  }

  /** Placing a device appends it, with the next offset, to its own kind and leaves the other kind alone. */
  lemma PlaceKind(st: Loading, d: DeviceSpec, subcircuit: bool)
    requires !Place(st, d).duplicate
    ensures var s := Place(st, d).state;
      if d.isSubcircuit == subcircuit then
        && |Of(s, subcircuit)| == |Of(st, subcircuit)| + 1 && Of(s, subcircuit)[..|Of(st, subcircuit)|] == Of(st, subcircuit)
        && Of(s, subcircuit)[|Of(st, subcircuit)|].device == d && Of(s, subcircuit)[|Of(st, subcircuit)|].offset == NextOf(st, subcircuit)
        && NextOf(s, subcircuit) == NextOf(st, subcircuit) + 1
      else Of(s, subcircuit) == Of(st, subcircuit) && NextOf(s, subcircuit) == NextOf(st, subcircuit)
  {
  }

  /** The devices of a stored list, and their offsets. */
  function DevicesOf(ps: seq<Placed>): (r: seq<DeviceSpec>)
    ensures |r| == |ps| && forall i :: 0 <= i < |ps| ==> r[i] == ps[i].device
  {
    seq(|ps|, i requires 0 <= i < |ps| => ps[i].device)
  }

  function OffsetsOf(ps: seq<Placed>): (r: seq<nat>)
    ensures |r| == |ps| && forall i :: 0 <= i < |ps| ==> r[i] == ps[i].offset
  {
    seq(|ps|, i requires 0 <= i < |ps| => ps[i].offset)
  }

  /** The offsets next, next + 1, ..., next + n - 1. */
  function Numbered(next: nat, n: nat): (r: seq<nat>)
    ensures |r| == n && forall i :: 0 <= i < n ==> r[i] == next + i
  {
    seq(n, i requires 0 <= i < n => next + i)
  }

  /** One more stored device extends both projections. */
  lemma StoredAppend(ps: seq<Placed>, p: Placed, next: nat)
    requires OffsetsOf(ps) == Numbered(next, |ps|) && p.offset == next + |ps|
    ensures DevicesOf(ps + [p]) == DevicesOf(ps) + [p.device]
    ensures OffsetsOf(ps + [p]) == Numbered(next, |ps| + 1)
  {
  }

  /**
   * Without a repeated name, each kind's list gains the devices of that
   * kind in input order, numbered on from the kind's counter.
   */
  lemma {:induction false} LoadPlaced(st: Loading, list: seq<DeviceSpec>, subcircuit: bool)
    requires !Load(st, list).duplicate
    ensures var s := Load(st, list).state;
      var n := |Of(st, subcircuit)|;
      && Of(st, subcircuit) <= Of(s, subcircuit)
      && DevicesOf(Of(s, subcircuit)[n..]) == Kept(list, subcircuit)
      && OffsetsOf(Of(s, subcircuit)[n..]) == Numbered(NextOf(st, subcircuit), |Kept(list, subcircuit)|)
      && NextOf(s, subcircuit) == NextOf(st, subcircuit) + |Kept(list, subcircuit)|
    decreases |list|
  {
    if list == [] {
      assert Of(st, subcircuit)[|Of(st, subcircuit)|..] == [];
    } else {
      var front := list[..|list| - 1];
      var d := list[|list| - 1];
      LoadPlaced(st, front, subcircuit);
      var before := Load(st, front).state;
      assert !Load(st, front).duplicate;
      PlaceKind(before, d, subcircuit);
      var s := Load(st, list).state;
      assert s == Place(before, d).state;
      var n := |Of(st, subcircuit)|;
      var ob, os := Of(before, subcircuit), Of(s, subcircuit);
      if d.isSubcircuit == subcircuit {
        assert os == ob + [os[|ob|]];
        assert os[n..] == ob[n..] + [os[|ob|]];
        StoredAppend(ob[n..], os[|ob|], NextOf(st, subcircuit));
      }
    }
  }

  /** A stored device's signal ids are what the signal map gives its signal names. */
  predicate Resolved(p: Placed, ids: map<string, nat>) {
    && |p.signalIds| == |p.device.signals|
    && forall j :: 0 <= j < |p.signalIds| ==> p.device.signals[j] in ids && p.signalIds[j] == ids[p.device.signals[j]]
  }

  predicate AllResolved(st: Loading) {
    && (forall k :: 0 <= k < |st.devices| ==> Resolved(st.devices[k], st.ids))
    && (forall k :: 0 <= k < |st.subcircuits| ==> Resolved(st.subcircuits[k], st.ids))
  }

  /** A map that keeps every existing id keeps a device resolved. */
  lemma ResolvedGrow(p: Placed, ids: map<string, nat>, ids': map<string, nat>)
    requires Resolved(p, ids)
    requires forall k :: k in ids ==> k in ids' && ids'[k] == ids[k]
    ensures Resolved(p, ids')
  {
  }

  /** Placing a device keeps every stored device resolved, the new one included. */
  lemma PlaceResolved(st: Loading, d: DeviceSpec)
    requires AllResolved(st)
    ensures AllResolved(Place(st, d).state)
  {
    var r := Intern(st.ids, st.internal, d.signals);
    InternIds(st.ids, st.internal, d.signals);
    var s := Place(st, d).state;
    assert s.ids == r.ids;
    forall k | 0 <= k < |st.devices| ensures Resolved(st.devices[k], s.ids) {
      ResolvedGrow(st.devices[k], st.ids, s.ids);
    }
    forall k | 0 <= k < |st.subcircuits| ensures Resolved(st.subcircuits[k], s.ids) {
      ResolvedGrow(st.subcircuits[k], st.ids, s.ids);
    }
    assert Resolved(Placed(d, r.signalIds, 0), s.ids);
  }

  /** Loading keeps every stored device's signal ids in step with the signal map, and keeps the map dense. */
  lemma {:induction false} LoadResolved(st: Loading, list: seq<DeviceSpec>)
    ensures AllResolved(st) ==> AllResolved(Load(st, list).state)
    ensures Dense(st.ids) ==> Dense(Load(st, list).state.ids)
    decreases |list|
  {
    if list != [] {
      var front := list[..|list| - 1];
      LoadResolved(st, front);
      var before := Load(st, front);
      if !before.duplicate {
        if AllResolved(st) {
          PlaceResolved(before.state, list[|list| - 1]);
        }
        if Dense(st.ids) {
          InternDense(before.state.ids, before.state.internal, list[|list| - 1].signals);
        }
      }
    }
  }

  /** Once a name is rejected, the rest of the list is not looked at. */
  lemma {:induction false} LoadStops(st: Loading, list: seq<DeviceSpec>, n: nat)
    requires n <= |list| && Load(st, list[..n]).duplicate
    ensures Load(st, list) == Load(st, list[..n])
    decreases |list| - n
  {
    if n < |list| {
      assert list[..n + 1][..n] == list[..n];
      LoadStops(st, list, n + 1);
    } else {
      assert list[..n] == list;
    }
  }

  /** The per-device error counters of one sub-check (four per device). */
  const NO_ERRORS: seq<nat> := [0, 0, 0, 0]

  /** `vector::resize`: truncate, or pad with zeroed counters. */
  function Resized(counts: seq<seq<nat>>, n: nat): (r: seq<seq<nat>>)
    ensures |r| == n
    ensures forall i :: 0 <= i < n ==> r[i] == if i < |counts| then counts[i] else NO_ERRORS
  {
    if n <= |counts| then counts[..n] else counts + seq(n - |counts|, _ => NO_ERRORS)
  }

  // ---- hierarchy totals ----

  /** A subcircuit instance as the counting sees it: its master's name and the number of signals it connects. */
  datatype Instance = Instance(master: string, width: nat)

  /** What counting reads of a loaded cell: its own devices and nets, its ports and its instances in order. */
  datatype Cell = Cell(devices: nat, nets: int, ports: nat, instances: seq<Instance>)

  /** Device, net and subcircuit totals of a cell's whole hierarchy. */
  datatype Counts = Counts(devices: nat, nets: int, subcircuits: nat)

  function Plus(a: Counts, b: Counts): Counts {
    Counts(a.devices + b.devices, a.nets + b.nets, a.subcircuits + b.subcircuits)
  }

  /** Every instantiated master that exists ranks below the cell instantiating it: the hierarchy has no cycle. */
  predicate Ranked(cells: map<string, Cell>, rank: map<string, nat>) {
    && cells.Keys <= rank.Keys
    && forall n, i :: n in cells && 0 <= i < |cells[n].instances| && cells[n].instances[i].master in cells ==>
         rank[cells[n].instances[i].master] < rank[n]
  }

  /**
   * The totals CountObjectsAndLinkSubcircuits gives a cell: its own
   * devices, local nets and instances, plus each child's totals. A missing
   * master or a port-count mismatch anywhere below throws EFatalError.
   */
  function Totals(cells: map<string, Cell>, rank: map<string, nat>, name: string): (r: Result<Counts>)
    requires Ranked(cells, rank) && name in cells
    ensures r.Fail? ==> r.failure == FatalError
    decreases rank[name], 1, 0
  {
    var cell := cells[name];
    TotalsFrom(cells, rank, name, 0, Counts(cell.devices, cell.nets, |cell.instances|))
  }

  /** The totals from instance k on, added to `acc`. */
  function TotalsFrom(cells: map<string, Cell>, rank: map<string, nat>, name: string, k: nat, acc: Counts): (r: Result<Counts>)
    requires Ranked(cells, rank) && name in cells && k <= |cells[name].instances|
    ensures r.Fail? ==> r.failure == FatalError
    ensures r.Ok? ==> r.value.subcircuits >= acc.subcircuits
    decreases rank[name], 0, |cells[name].instances| - k
  {
    var instances := cells[name].instances;
    if k == |instances| then Ok(acc)
    else
      var master := instances[k].master;
      if master !in cells then Fail(FatalError)
      else match Totals(cells, rank, master)
        case Fail(f) => Fail(f)
        case Ok(child) =>
          if instances[k].width != cells[master].ports then Fail(FatalError)
          else TotalsFrom(cells, rank, name, k + 1, Plus(acc, child))
  }

  /** How often `target` is instantiated in the expanded hierarchy below `name`. */
  function Occurrences(cells: map<string, Cell>, rank: map<string, nat>, name: string, target: string): nat
    requires Ranked(cells, rank) && name in cells
    decreases rank[name], 1, 0
  {
    OccurrencesFrom(cells, rank, name, 0, target)
  }

  /** The occurrences below instances k.. of `name`. */
  function OccurrencesFrom(cells: map<string, Cell>, rank: map<string, nat>, name: string, k: nat, target: string): nat
    requires Ranked(cells, rank) && name in cells && k <= |cells[name].instances|
    decreases rank[name], 0, |cells[name].instances| - k
  {
    var instances := cells[name].instances;
    if k == |instances| then 0
    else
      var master := instances[k].master;
      (if master in cells then (if master == target then 1 else 0) + Occurrences(cells, rank, master, target) else 0)
        + OccurrencesFrom(cells, rank, name, k + 1, target)
  }

  /** Only cells ranked strictly below occur below a cell. */
  lemma {:induction false} OccurrencesRank(cells: map<string, Cell>, rank: map<string, nat>, name: string, target: string)
    requires Ranked(cells, rank) && name in cells
    ensures Occurrences(cells, rank, name, target) > 0 ==> target in rank && rank[target] < rank[name]
    decreases rank[name], 1, 0
  {
    OccurrencesFromRank(cells, rank, name, 0, target);
  }

  lemma {:induction false} OccurrencesFromRank(cells: map<string, Cell>, rank: map<string, nat>, name: string, k: nat, target: string)
    requires Ranked(cells, rank) && name in cells && k <= |cells[name].instances|
    ensures OccurrencesFrom(cells, rank, name, k, target) > 0 ==> target in rank && rank[target] < rank[name]
    decreases rank[name], 0, |cells[name].instances| - k
  {
    var instances := cells[name].instances;
    if k < |instances| {
      var master := instances[k].master;
      if master in cells {
        OccurrencesRank(cells, rank, master, target);
      }
      OccurrencesFromRank(cells, rank, name, k + 1, target);
    }
  }

  /** A cell whose total subcircuit count is 0 has no instances, so nothing occurs below it. */
  lemma NoSubcircuits(cells: map<string, Cell>, rank: map<string, nat>, name: string)
    requires Ranked(cells, rank) && name in cells
    requires Totals(cells, rank, name).Ok? && Totals(cells, rank, name).value.subcircuits == 0
    ensures forall target :: Occurrences(cells, rank, name, target) == 0
  {
  }

  /** `ic` is `ic0` with every instance in the expanded hierarchy below `name` counted once more. */
  ghost predicate CountedBelow(cells: map<string, Cell>, rank: map<string, nat>, name: string, ic: map<string, nat>, ic0: map<string, nat>)
    requires Ranked(cells, rank) && name in cells
  {
    && ic.Keys == cells.Keys && ic0.Keys == cells.Keys
    && forall n {:trigger ic[n]} :: n in cells ==> ic[n] == ic0[n] + Occurrences(cells, rank, name, n)
  }

  /** One instance's share of the occurrences. */
  lemma OccurrencesStep(cells: map<string, Cell>, rank: map<string, nat>, name: string, k: nat, target: string)
    requires Ranked(cells, rank) && name in cells && k < |cells[name].instances|
    requires cells[name].instances[k].master in cells
    ensures OccurrencesFrom(cells, rank, name, k, target)
      == (if cells[name].instances[k].master == target then 1 else 0)
         + Occurrences(cells, rank, cells[name].instances[k].master, target)
         + OccurrencesFrom(cells, rank, name, k + 1, target)
  {
  }

  /** One instance's share of the totals, when its master exists, counts and fits. */
  lemma TotalsStep(cells: map<string, Cell>, rank: map<string, nat>, name: string, k: nat, acc: Counts, child: Counts)
    requires Ranked(cells, rank) && name in cells && k < |cells[name].instances|
    requires cells[name].instances[k].master in cells
    requires Totals(cells, rank, cells[name].instances[k].master) == Ok(child)
    requires cells[name].instances[k].width == cells[cells[name].instances[k].master].ports
    ensures TotalsFrom(cells, rank, name, k, acc) == TotalsFrom(cells, rank, name, k + 1, Plus(acc, child))
  {
  }

  /** The instances of a cell as counting sees them. */
  function InstancesOf(subcircuits: seq<Placed>): (r: seq<Instance>)
    ensures |r| == |subcircuits|
    ensures forall i :: 0 <= i < |r| ==> r[i] == Instance(subcircuits[i].device.masterName, |subcircuits[i].signalIds|)
  {
    seq(|subcircuits|, i requires 0 <= i < |subcircuits| => Instance(subcircuits[i].device.masterName, |subcircuits[i].signalIds|))
  }

  /** What counting reads of a loaded cell; its local nets are its signals less its ports (LocalNetCount). */
  function ShapeOf(c: Circuit): Cell
    reads c`devices, c`signalIds, c`portCount, c`subcircuits
  {
    Cell(|c.devices|, |c.signalIds| - c.portCount, c.portCount, InstancesOf(c.subcircuits))
  }

  /** A netlist cell: its signal map and lists and its devices. */
  class Circuit {
    var name: string
    var signalIds: map<string, nat>
    var internalSignalList: seq<string>
    var internalSignals: seq<string>
    var devices: seq<Placed>
    var subcircuits: seq<Placed>
    var errorCounts: seq<seq<nat>>
    var instanceIds: seq<nat>
    var portCount: nat

    constructor(name: string)
      ensures this.name == name && signalIds == map[] && internalSignalList == [] && internalSignals == []
      ensures devices == [] && subcircuits == [] && errorCounts == [] && instanceIds == []
      ensures portCount == 0
    {
      this.name := name;
      signalIds := map[];
      internalSignalList := [];
      internalSignals := [];
      devices := [];
      subcircuits := [];
      errorCounts := [];
      instanceIds := [];
      portCount := 0;
    }

    /** AddPortSignalIds: the ports take the next ids in order, one port count each. */
    method AddPortSignalIds(ports: seq<string>)
      modifies this`signalIds, this`portCount
      ensures signalIds == PortsAdded(old(signalIds), old(portCount), ports)
      ensures portCount == old(portCount) + |ports|
    {
      for i := 0 to |ports|
        invariant signalIds == PortsAdded(old(signalIds), old(portCount), ports[..i])
        invariant portCount == old(portCount) + i
      {
        assert ports[..i + 1][..i] == ports[..i];
        signalIds := signalIds[ports[i] := portCount];
        portCount := portCount + 1;
      }
      assert ports[..|ports|] == ports;
    }

    /** SetSignalIds: the local ids of a signal list, interning new names. */
    method SetSignalIds(names: seq<string>) returns (ids: seq<nat>)
      modifies this`signalIds, this`internalSignalList
      ensures Intern(old(signalIds), old(internalSignalList), names) == Interned(signalIds, internalSignalList, ids)
    {
      ids := [];
      for i := 0 to |names|
        invariant Intern(old(signalIds), old(internalSignalList), names[..i]) == Interned(signalIds, internalSignalList, ids)
      {
        assert names[..i + 1][..i] == names[..i];
        var id: nat;
        if names[i] in signalIds {
          id := signalIds[names[i]];
        } else {
          id := |signalIds|;
          signalIds := signalIds[names[i] := id];
          internalSignalList := internalSignalList + [names[i]];
        }
        ids := ids + [id];
      }
      assert names[..|names|] == names;
    }

    /**
     * LoadDevices: intern each device's signals, reject a repeated name with
     * EDuplicateInstance, and store instances and primitives apart, each
     * numbered from 0; then move the new internal names to the signal vector.
     */
    method LoadDevices(list: seq<DeviceSpec>) returns (r: Result<()>)
      modifies this`signalIds, this`internalSignalList, this`internalSignals, this`devices, this`subcircuits, this`errorCounts
      ensures var outcome := Load(Loading(old(signalIds), old(internalSignalList), old(devices), old(subcircuits), {}, 0, 0), list);
        && (r.Fail? <==> outcome.duplicate) && (r.Fail? ==> r.failure == DuplicateInstance)
        && signalIds == outcome.state.ids && devices == outcome.state.devices && subcircuits == outcome.state.subcircuits
        && (r.Ok? ==> internalSignals == old(internalSignals) + outcome.state.internal && internalSignalList == [])
        && (r.Fail? ==> internalSignals == old(internalSignals) && internalSignalList == outcome.state.internal)
      ensures errorCounts == Resized(old(errorCounts), |Kept(list, false)|)
    {
      errorCounts := Resized(errorCounts, |Kept(list, false)|);
      ghost var st0 := Loading(signalIds, internalSignalList, devices, subcircuits, {}, 0, 0);
      var seen: set<string> := {};
      var nextDevice: nat := 0;
      var nextInstance: nat := 0;
      for i := 0 to |list|
        invariant Load(st0, list[..i]) == Loaded(Loading(signalIds, internalSignalList, devices, subcircuits, seen, nextDevice, nextInstance), false)
        invariant internalSignals == old(internalSignals)
        invariant errorCounts == Resized(old(errorCounts), |Kept(list, false)|)
      {
        var d := list[i];
        ghost var st := Loading(signalIds, internalSignalList, devices, subcircuits, seen, nextDevice, nextInstance);
        assert list[..i + 1][..i] == list[..i];
        assert Load(st0, list[..i + 1]) == Place(st, d);
        var ids := SetSignalIds(d.signals);
        if d.name in seen {
          LoadStops(st0, list, i + 1);
          return Fail(DuplicateInstance);
        }
        if d.isSubcircuit {
          subcircuits := subcircuits + [Placed(d, ids, nextInstance)];
          nextInstance := nextInstance + 1;
        } else {
          devices := devices + [Placed(d, ids, nextDevice)];
          nextDevice := nextDevice + 1;
        }
        seen := seen + {d.name};
      }
      assert list[..|list|] == list;
      internalSignals := internalSignals + internalSignalList;
      internalSignalList := [];
      return Ok(());
    }
  }

  /** Linked cells hold their hierarchy's totals, and every master they instantiate is linked too. */
  ghost predicate LinkedOk(cells: map<string, Cell>, rank: map<string, nat>, totals: map<string, Counts>, linked: set<string>)
    requires Ranked(cells, rank)
  {
    && linked <= cells.Keys && linked <= totals.Keys
    && (forall n {:trigger totals[n]} :: n in linked ==> Totals(cells, rank, n) == Ok(totals[n]))
    && forall n, i :: n in linked && 0 <= i < |cells[n].instances| ==> cells[n].instances[i].master in linked
  }

  /**
   * The totals part of CountObjectsAndLinkSubcircuits' state for cell
   * `name` after its first i instances: those masters are linked, and what
   * the rest add to the running total `t[name]` gives the cell's totals.
   */
  ghost predicate LinkingTotals(cells: map<string, Cell>, rank: map<string, nat>, name: string, i: nat,
                                t: map<string, Counts>, l: set<string>)
    requires Ranked(cells, rank) && name in cells && i <= |cells[name].instances|
  {
    && t.Keys == cells.Keys && name !in l && LinkedOk(cells, rank, t, l)
    && TotalsFrom(cells, rank, name, i, t[name]) == Totals(cells, rank, name)
    && (forall j :: 0 <= j < i ==> cells[name].instances[j].master in l)
  }

  /** The instance counts after i instances: what the rest will count completes the occurrences below the cell. */
  ghost predicate LinkingCounts(cells: map<string, Cell>, rank: map<string, nat>, name: string, i: nat,
                                ic: map<string, nat>, ic0: map<string, nat>)
    requires Ranked(cells, rank) && name in cells && i <= |cells[name].instances|
  {
    && ic.Keys == cells.Keys && ic0.Keys == cells.Keys
    && forall n {:trigger ic[n]} :: n in cells ==> ic[n] + OccurrencesFrom(cells, rank, name, i, n) == ic0[n] + Occurrences(cells, rank, name, n)
  }

  /** Linking only adds to the linked set and leaves the totals of cells ranked at or above `name`, other than its own, alone. */
  ghost predicate LinkingFrame(cells: map<string, Cell>, rank: map<string, nat>, name: string,
                               t: map<string, Counts>, l: set<string>, t0: map<string, Counts>, l0: set<string>)
    requires Ranked(cells, rank)
  {
    && t.Keys == cells.Keys && t0.Keys == cells.Keys && name in rank
    && l0 <= l
    && forall n {:trigger t[n]} :: n in cells && n != name && rank[n] >= rank[name] ==> t[n] == t0[n] && (n in l <==> n in l0)
  }

  /** One instance whose master is linked (t1, l1) and fits: its totals are added to the cell's. */
  lemma LinkingTotalsStep(cells: map<string, Cell>, rank: map<string, nat>, name: string, i: nat,
                          t: map<string, Counts>, l: set<string>, t1: map<string, Counts>, l1: set<string>, t': map<string, Counts>)
    requires Ranked(cells, rank) && name in cells && i < |cells[name].instances|
    requires LinkingTotals(cells, rank, name, i, t, l)
    requires cells[name].instances[i].master in cells && cells[name].instances[i].master in l1
    requires cells[name].instances[i].width == cells[cells[name].instances[i].master].ports
    requires t1.Keys == cells.Keys && LinkedOk(cells, rank, t1, l1) && l <= l1
    requires name !in l1 && t1[name] == t[name]
    requires t' == t1[name := Plus(t1[name], t1[cells[name].instances[i].master])]
    ensures LinkingTotals(cells, rank, name, i + 1, t', l1)
  {
    var master := cells[name].instances[i].master;
    TotalsStep(cells, rank, name, i, t[name], t1[master]);
    forall n | n in l1 ensures n != name && t'[n] == t1[n] {
    }
  }

  /** One instance whose master's occurrences have been counted (ic1) counts once more. */
  lemma LinkingCountsStep(cells: map<string, Cell>, rank: map<string, nat>, name: string, i: nat,
                          ic: map<string, nat>, ic1: map<string, nat>, ic0: map<string, nat>, ic': map<string, nat>)
    requires Ranked(cells, rank) && name in cells && i < |cells[name].instances|
    requires LinkingCounts(cells, rank, name, i, ic, ic0)
    requires cells[name].instances[i].master in cells
    requires CountedBelow(cells, rank, cells[name].instances[i].master, ic1, ic)
    requires ic' == ic1[cells[name].instances[i].master := ic1[cells[name].instances[i].master] + 1]
    ensures LinkingCounts(cells, rank, name, i + 1, ic', ic0)
  {
    forall n | n in cells {
      OccurrencesStep(cells, rank, name, i, n);
    }
  }

  /** Linking a master ranked below `name` keeps the frame, and leaves `name` unlinked with its running total. */
  lemma LinkingFrameStep(cells: map<string, Cell>, rank: map<string, nat>, name: string, master: string,
                         t: map<string, Counts>, l: set<string>, t1: map<string, Counts>, l1: set<string>,
                         t0: map<string, Counts>, l0: set<string>)
    requires Ranked(cells, rank) && name in cells && master in cells && rank[master] < rank[name]
    requires LinkingFrame(cells, rank, name, t, l, t0, l0) && name !in l
    requires LinkingFrame(cells, rank, master, t1, l1, t, l)
    ensures name !in l1 && t1[name] == t[name]
    ensures LinkingFrame(cells, rank, name, t1, l1, t0, l0)
  {
  }

  /** Changing only the cell's own running total keeps the frame. */
  lemma LinkingFrameOwn(cells: map<string, Cell>, rank: map<string, nat>, name: string,
                        t: map<string, Counts>, l: set<string>, t0: map<string, Counts>, l0: set<string>, c: Counts)
    requires Ranked(cells, rank) && name in cells
    requires LinkingFrame(cells, rank, name, t, l, t0, l0)
    ensures LinkingFrame(cells, rank, name, t[name := c], l, t0, l0)
  {
  }

  /** One instance linked: the running total, the counts and the frame all move on past it. */
  lemma LinkingStep(cells: map<string, Cell>, rank: map<string, nat>, name: string, i: nat,
                    t: map<string, Counts>, l: set<string>, t1: map<string, Counts>, l1: set<string>,
                    ic: map<string, nat>, ic1: map<string, nat>, ic0: map<string, nat>,
                    t0: map<string, Counts>, l0: set<string>, t': map<string, Counts>, ic': map<string, nat>)
    requires Ranked(cells, rank) && name in cells && i < |cells[name].instances|
    requires LinkingTotals(cells, rank, name, i, t, l) && LinkingCounts(cells, rank, name, i, ic, ic0)
    requires LinkingFrame(cells, rank, name, t1, l1, t0, l0) && l <= l1 && name !in l1 && t1[name] == t[name]
    requires var master := cells[name].instances[i].master;
      && master in cells && master in l1 && cells[name].instances[i].width == cells[master].ports
      && LinkedOk(cells, rank, t1, l1) && CountedBelow(cells, rank, master, ic1, ic)
      && t' == t1[name := Plus(t1[name], t1[master])] && ic' == ic1[master := ic1[master] + 1]
    ensures LinkingTotals(cells, rank, name, i + 1, t', l1)
    ensures LinkingCounts(cells, rank, name, i + 1, ic', ic0)
    ensures LinkingFrame(cells, rank, name, t', l1, t0, l0)
  {
    var master := cells[name].instances[i].master;
    LinkingTotalsStep(cells, rank, name, i, t, l, t1, l1, t');
    LinkingCountsStep(cells, rank, name, i, ic, ic1, ic0, ic');
    LinkingFrameOwn(cells, rank, name, t1, l1, t0, l0, t'[name]);
    assert t' == t1[name := t'[name]];
  }

  /** The instance the loop stopped at makes the cell's totals throw. */
  lemma LinkingFails(cells: map<string, Cell>, rank: map<string, nat>, name: string, i: nat, acc: Counts)
    requires Ranked(cells, rank) && name in cells && i < |cells[name].instances|
    requires var master := cells[name].instances[i].master;
      || master !in cells
      || (master in cells && Totals(cells, rank, master).Fail?)
      || (master in cells && Totals(cells, rank, master).Ok? && cells[name].instances[i].width != cells[master].ports)
    ensures TotalsFrom(cells, rank, name, i, acc).Fail?
  {
  }

  /** After the last instance the cell is linked with its totals, and its occurrences are all counted. */
  lemma LinkingDone(cells: map<string, Cell>, rank: map<string, nat>, name: string, t: map<string, Counts>, l: set<string>,
                    ic: map<string, nat>, ic0: map<string, nat>, t0: map<string, Counts>, l0: set<string>, l': set<string>)
    requires Ranked(cells, rank) && name in cells
    requires LinkingTotals(cells, rank, name, |cells[name].instances|, t, l)
    requires LinkingCounts(cells, rank, name, |cells[name].instances|, ic, ic0)
    requires LinkingFrame(cells, rank, name, t, l, t0, l0) && l' == l + {name}
    ensures Totals(cells, rank, name) == Ok(t[name]) && name in l' && LinkedOk(cells, rank, t, l')
    ensures CountedBelow(cells, rank, name, ic, ic0)
    ensures LinkingFrame(cells, rank, name, t, l', t0, l0)
  {
    forall n | n in cells ensures ic[n] == ic0[n] + Occurrences(cells, rank, name, n) {
      assert OccurrencesFrom(cells, rank, name, |cells[name].instances|, n) == 0;
    }
  }

  /** Before the first instance: the cell's own counts start its running total, and nothing is counted yet. */
  lemma LinkingStart(cells: map<string, Cell>, rank: map<string, nat>, name: string, t: map<string, Counts>, l: set<string>,
                     ic: map<string, nat>, t': map<string, Counts>)
    requires Ranked(cells, rank) && name in cells && name !in l && LinkedOk(cells, rank, t, l)
    requires t.Keys == cells.Keys && ic.Keys == cells.Keys
    requires t' == t[name := Counts(cells[name].devices, cells[name].nets, |cells[name].instances|)]
    ensures LinkingTotals(cells, rank, name, 0, t', l)
    ensures LinkingCounts(cells, rank, name, 0, ic, ic)
    ensures LinkingFrame(cells, rank, name, t', l, t, l)
  {
    assert LinkedOk(cells, rank, t', l) by {
      forall n | n in l ensures t'[n] == t[n] {
      }
    }
  }

  /**
   * The circuit list's view of the hierarchy while it is linked: the shape
   * of every loaded cell by name, and each cell's totals, instance count
   * and linked flag.
   */
  class CircuitList {
    const cells: map<string, Cell>
    var totals: map<string, Counts>
    var instanceCount: map<string, nat>
    var linked: set<string>

    /** A list of cells as loaded (each cell's ShapeOf under its name), nothing counted or linked yet. */
    constructor(cells: map<string, Cell>)
      ensures this.cells == cells && linked == {}
      ensures totals == map n | n in cells :: Counts(0, 0, 0)
      ensures instanceCount == map n | n in cells :: 0
    {
      this.cells := cells;
      totals := map n | n in cells :: Counts(0, 0, 0);
      instanceCount := map n | n in cells :: 0;
      linked := {};
    }

    /**
     * CountInstantiations: every instance below a linked cell counts once
     * more, descending only into masters that have instances of their own.
     */
    method CountInstantiations(name: string, ghost rank: map<string, nat>)
      requires Ranked(cells, rank) && name in linked && LinkedOk(cells, rank, totals, linked)
      requires instanceCount.Keys == cells.Keys
      modifies this`instanceCount
      ensures CountedBelow(cells, rank, name, instanceCount, old(instanceCount))
      decreases rank[name]
    {
      var instances := cells[name].instances;
      for i := 0 to |instances|
        invariant LinkingCounts(cells, rank, name, i, instanceCount, old(instanceCount))
      {
        var master := instances[i].master;
        label Before:
        if totals[master].subcircuits > 0 {
          CountInstantiations(master, rank);
        } else {
          NoSubcircuits(cells, rank, master);
          assert CountedBelow(cells, rank, master, instanceCount, instanceCount);
        }
        label Counted:
        instanceCount := instanceCount[master := instanceCount[master] + 1];
        LinkingCountsStep(cells, rank, name, i, old@Before(instanceCount), old@Counted(instanceCount), old(instanceCount), instanceCount);
      }
    }

    /**
     * One instance's master: linked (with its hierarchy counted) when it
     * was not, or else counted again below when it has instances.
     */
    method LinkOrCount(master: string, ghost rank: map<string, nat>) returns (r: Result<()>)
      requires Ranked(cells, rank) && master in cells && LinkedOk(cells, rank, totals, linked)
      requires totals.Keys == cells.Keys && instanceCount.Keys == cells.Keys
      modifies this`totals, this`instanceCount, this`linked
      ensures instanceCount.Keys == cells.Keys
      ensures r.Fail? <==> Totals(cells, rank, master).Fail?
      ensures r.Fail? ==> r.failure == FatalError
      ensures r.Ok? ==> master in linked && LinkedOk(cells, rank, totals, linked)
      ensures r.Ok? ==> CountedBelow(cells, rank, master, instanceCount, old(instanceCount))
      ensures LinkingFrame(cells, rank, master, totals, linked, old(totals), old(linked))
      decreases rank[master], 3
    {
      if master in linked {
        if totals[master].subcircuits > 0 {
          CountInstantiations(master, rank);
        } else {
          NoSubcircuits(cells, rank, master);
        }
        r := Ok(());
      } else {
        r := CountObjectsAndLinkSubcircuits(master, rank);
      }
    }

    /**
     * CountObjectsAndLinkSubcircuits: a cell's totals are its own devices,
     * local nets and instances plus each master's totals, linking an
     * unlinked master first; a missing master or a port mismatch throws
     * EFatalError. Every instance in the expanded hierarchy below counts
     * once, and cells ranked at or above this one keep their totals.
     */
    method CountObjectsAndLinkSubcircuits(name: string, ghost rank: map<string, nat>) returns (r: Result<()>)
      requires Ranked(cells, rank) && name in cells && name !in linked && LinkedOk(cells, rank, totals, linked)
      requires totals.Keys == cells.Keys && instanceCount.Keys == cells.Keys
      modifies this`totals, this`instanceCount, this`linked
      ensures instanceCount.Keys == cells.Keys
      ensures r.Fail? <==> Totals(cells, rank, name).Fail?
      ensures r.Fail? ==> r.failure == FatalError
      ensures r.Ok? ==> name in linked && LinkedOk(cells, rank, totals, linked) && Totals(cells, rank, name) == Ok(totals[name])
      ensures r.Ok? ==> CountedBelow(cells, rank, name, instanceCount, old(instanceCount))
      ensures LinkingFrame(cells, rank, name, totals, linked, old(totals), old(linked))
      decreases rank[name], 2
    {
      var cell := cells[name];
      totals := totals[name := Counts(cell.devices, cell.nets, |cell.instances|)];
      LinkingStart(cells, rank, name, old(totals), linked, instanceCount, totals);
      r := LinkInstances(name, rank, old(totals), old(instanceCount), old(linked));
      if r.Fail? {
        return;
      }
      LinkingDone(cells, rank, name, totals, linked, instanceCount, old(instanceCount), old(totals), old(linked), linked + {name});
      linked := linked + {name};
    }

    /** The loop of CountObjectsAndLinkSubcircuits over the cell's instances, stopping at the first failure. */
    method LinkInstances(name: string, ghost rank: map<string, nat>,
                         ghost t0: map<string, Counts>, ghost ic0: map<string, nat>, ghost l0: set<string>)
      returns (r: Result<()>)
      requires Ranked(cells, rank) && name in cells
      requires LinkingTotals(cells, rank, name, 0, totals, linked)
      requires LinkingCounts(cells, rank, name, 0, instanceCount, ic0)
      requires LinkingFrame(cells, rank, name, totals, linked, t0, l0)
      modifies this`totals, this`instanceCount, this`linked
      ensures instanceCount.Keys == cells.Keys
      ensures r.Fail? ==> r.failure == FatalError && Totals(cells, rank, name).Fail?
      ensures r.Ok? ==> LinkingTotals(cells, rank, name, |cells[name].instances|, totals, linked)
      ensures r.Ok? ==> LinkingCounts(cells, rank, name, |cells[name].instances|, instanceCount, ic0)
      ensures LinkingFrame(cells, rank, name, totals, linked, t0, l0)
      decreases rank[name], 1
    {
      r := Ok(());
      for i := 0 to |cells[name].instances|
        invariant r.Ok?
        invariant LinkingTotals(cells, rank, name, i, totals, linked)
        invariant LinkingCounts(cells, rank, name, i, instanceCount, ic0)
        invariant LinkingFrame(cells, rank, name, totals, linked, t0, l0)
      {
        r := LinkInstance(name, i, rank, t0, ic0, l0);
        if r.Fail? {
          return;
        }
      }
    }

    /**
     * Instance i of cell `name` in CountObjectsAndLinkSubcircuits: its
     * master is looked up, linked or counted, checked for its port count,
     * counted once and its totals added to the cell's.
     */
    method LinkInstance(name: string, i: nat, ghost rank: map<string, nat>,
                        ghost t0: map<string, Counts>, ghost ic0: map<string, nat>, ghost l0: set<string>)
      returns (r: Result<()>)
      requires Ranked(cells, rank) && name in cells && i < |cells[name].instances|
      requires LinkingTotals(cells, rank, name, i, totals, linked)
      requires LinkingCounts(cells, rank, name, i, instanceCount, ic0)
      requires LinkingFrame(cells, rank, name, totals, linked, t0, l0)
      modifies this`totals, this`instanceCount, this`linked
      ensures instanceCount.Keys == cells.Keys
      ensures r.Fail? ==> r.failure == FatalError && Totals(cells, rank, name).Fail?
      ensures r.Ok? ==> LinkingTotals(cells, rank, name, i + 1, totals, linked)
      ensures r.Ok? ==> LinkingCounts(cells, rank, name, i + 1, instanceCount, ic0)
      ensures LinkingFrame(cells, rank, name, totals, linked, t0, l0)
      decreases rank[name], 0
    {
      var master := cells[name].instances[i].master;
      if master !in cells {
        LinkingFails(cells, rank, name, i, totals[name]);
        return Fail(FatalError);
      }
      ghost var t, l, ic := totals, linked, instanceCount;
      var linking := LinkOrCount(master, rank);
      var t1, l1, ic1 := totals, linked, instanceCount;
      LinkingFrameStep(cells, rank, name, master, t, l, t1, l1, t0, l0);
      if linking.Fail? {
        LinkingFails(cells, rank, name, i, t1[name]);
        return linking;
      }
      if cells[name].instances[i].width != cells[master].ports {
        LinkingFails(cells, rank, name, i, t1[name]);
        return Fail(FatalError);
      }
      var t', ic' := t1[name := Plus(t1[name], t1[master])], ic1[master := ic1[master] + 1];
      LinkingStep(cells, rank, name, i, t, l, t1, l1, ic, ic1, ic0, t0, l0, t', ic');
      totals, instanceCount := t', ic';
      return Ok(());
    }
  }

  // ---- local device ids ----

  function DeviceNames(devices: seq<Placed>): (r: seq<string>)
    ensures |r| == |devices| && forall i :: 0 <= i < |devices| ==> r[i] == devices[i].device.name
  {
    seq(|devices|, i requires 0 <= i < |devices| => devices[i].device.name)
  }

  /** The name-to-index map GetLocalDeviceId builds: each name maps to its last index. */
  function NameIndex(names: seq<string>): map<string, nat>
    decreases |names|
  {
    if names == [] then map[] else NameIndex(names[..|names| - 1])[names[|names| - 1] := |names| - 1]
  }

  /** The map holds exactly the names, each at an index that carries it; with distinct names, at its own index. */
  lemma {:induction false} NameIndexFacts(names: seq<string>)
    ensures forall k :: k in NameIndex(names) <==> k in names
    ensures forall k :: k in NameIndex(names) ==> NameIndex(names)[k] < |names| && names[NameIndex(names)[k]] == k
    ensures Distinct(names) ==> forall i :: 0 <= i < |names| ==> NameIndex(names)[names[i]] == i
    decreases |names|
  {
    if names != [] {
      var front := names[..|names| - 1];
      NameIndexFacts(front);
      assert forall i :: 0 <= i < |front| ==> front[i] == names[i];
      assert forall k :: k in names <==> k in front || k == names[|names| - 1];
      if Distinct(names) {
        assert Distinct(front);
      }
    }
  }

  /** The static name map of GetLocalDeviceId and the cell it was built for. */
  class DeviceIdCache {
    var lastCircuit: Option<string>
    var deviceIds: map<string, nat>

    constructor()
      ensures lastCircuit == None && deviceIds == map[]
    {
      lastCircuit := None;
      deviceIds := map[];
    }

    /**
     * GetLocalDeviceId: rebuild the map when the cell differs from the last
     * one, then look the name up (`at` throws for an unknown name). A map
     * built for this cell finds exactly its devices' names.
     */
    method GetLocalDeviceId(c: Circuit, deviceName: string) returns (r: Result<nat>)
      modifies this
      ensures lastCircuit == Some(c.name)
      ensures old(lastCircuit) == Some(c.name) ==> deviceIds == old(deviceIds)
      ensures old(lastCircuit) != Some(c.name) ==> deviceIds == NameIndex(DeviceNames(c.devices))
      ensures r == if deviceName in deviceIds then Ok(deviceIds[deviceName]) else Fail(OutOfRange)
      ensures deviceIds == NameIndex(DeviceNames(c.devices)) ==>
        && (r.Ok? <==> deviceName in DeviceNames(c.devices))
        && (r.Ok? ==> r.value < |c.devices| && c.devices[r.value].device.name == deviceName)
    {
      if lastCircuit != Some(c.name) {
        deviceIds := map[];
        var names := DeviceNames(c.devices);
        for i := 0 to |c.devices|
          invariant deviceIds == NameIndex(names[..i])
        {
          assert names[..i + 1][..i] == names[..i];
          deviceIds := deviceIds[c.devices[i].device.name := i];
        }
        assert names[..|c.devices|] == names;
        lastCircuit := Some(c.name);
      }
      NameIndexFacts(DeviceNames(c.devices));
      if deviceName in deviceIds {
        r := Ok(deviceIds[deviceName]);
      } else {
        r := Fail(OutOfRange);
      }
    }
  }
}
