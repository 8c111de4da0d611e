/** Whole runs: any program of declarations, calls, stores and scope ends keeps the accounting. */
module CountedPrograms {
  import opened Wrappers
  import opened CountedMemory
  import opened CountedSteps
  import opened CountedReach
  import opened CountedRuntime
  import opened CountedStores
  import opened CountedStructs
  import opened CountedValues

  /**
   * One step of a program. A store names its slot, the objects that keep the slot's owner in place while the slot's
   * old value is released, and the cell whose value it stores, if any. A call leaves its result in an owned temporary,
   * which a store can take over and the end of the statement releases.
   */
  datatype Command =
    | DeclareLocal(k: nat, weak: bool)
    | EndScope(k: nat)
    | DeclareArea(shape: seq<Shape>, base: nat)
    | EndArea(shape: seq<Shape>, base: nat)
    | CopyArea(shape: seq<Shape>, base: nat, source: nat)
    | New(k: nat, obj: nat, fields: seq<Content>)
    | Discard(obj: nat, fields: seq<Content>)
    | Store(slot: Place, keepers: set<nat>, from: Option<Place>)
    | Call(result: Option<Place>)
    | CallNew(obj: nat, fields: seq<Content>)
    | StoreTemp(slot: Place, keepers: set<nat>, i: nat)
    | EndTemp(i: nat)

  // ---------------------------------------------------------------- temporaries

  /** The references that owned temporaries hold. */
  function Debts(temps: seq<Ptr>): multiset<nat> {
    if temps == [] then multiset{} else RefsIn(temps[0]) + Debts(temps[1..])
  }

  function Without(temps: seq<Ptr>, i: nat): seq<Ptr>
    requires i < |temps|
  {
    temps[..i] + temps[i + 1..]
  }

  lemma {:induction false} DebtsAdded(temps: seq<Ptr>, ptr: Ptr)
    ensures Debts(temps + [ptr]) == Debts(temps) + RefsIn(ptr)
  {
    if temps == [] {
      assert temps + [ptr] == [ptr] && [ptr][1..] == [];
    } else {
      assert (temps + [ptr])[1..] == temps[1..] + [ptr];
      DebtsAdded(temps[1..], ptr);
    }
  }

  lemma {:induction false} DebtsTaken(temps: seq<Ptr>, i: nat)
    requires i < |temps|
    ensures Debts(temps) == Debts(Without(temps, i)) + RefsIn(temps[i])
  {
    if i == 0 {
      assert Without(temps, 0) == temps[1..];
    } else {
      assert Without(temps, i)[1..] == Without(temps[1..], i - 1);
      DebtsTaken(temps[1..], i - 1);
    }
  }

  /** Between steps all debts are those of the temporaries, which keep their objects in place. */
  ghost predicate Ready(rt: Runtime, temps: seq<Ptr>)
    reads rt
  {
    Steady(rt) && rt.owed == Debts(temps) && rt.pinned == Debts(temps)
  }

  /** Which owed references stay in place is the program's choice between steps. */
  ghost method Pin(rt: Runtime, pins: multiset<nat>)
    requires Steady(rt) && pins <= rt.owed
    modifies rt`pinned
    ensures Steady(rt) && rt.pinned == pins
  {
    Pinned(rt.View(), rt.owed, pins);
    rt.pinned := pins;
  }

  // ---------------------------------------------------------------- single steps

  /** The bits of a struct in local storage. */
  function Loaded(cells: map<Place, Content>, source: nat, n: nat): seq<Content>
    requires Area(source, n) <= cells.Keys
  {
    seq(n, i requires 0 <= i < n =>
      assert Local(source + i) in Area(source, n); cells[Local(source + i)])
  }

  /** The step is one that the compiler could have emitted for this state. A struct is only copied while its arrays are
      empty, since their elements would not be counted. */
  predicate Enabled(objs: map<nat, Header>, cells: map<Place, Content>, temps: seq<Ptr>, c: Command) {
    match c
    case DeclareLocal(k, _) => Local(k) !in cells
    case EndScope(k) => Local(k) in cells && !cells[Local(k)].Plain?
    case DeclareArea(shape, base) => Area(base, Width(shape)) !! cells.Keys
    case EndArea(shape, base) => Fits(cells, shape, base)
    case CopyArea(shape, base, source) =>
      Fits(cells, shape, base) && Area(source, Width(shape)) <= cells.Keys &&
      var bits := Loaded(cells, source, Width(shape));
      Bits(cells, base, bits) &&
      forall p :: p in ArrayCells(shape, base) ==> p in Area(base, |bits|) && bits[p.k - base] == Strong(Nil)
    case New(k, o, fields) =>
      Local(k) in cells && cells[Local(k)].Strong? && o !in objs &&
      forall i :: 0 <= i < |fields| ==> Initial(fields[i])
    case Discard(o, fields) => o !in objs && forall i :: 0 <= i < |fields| ==> Initial(fields[i])
    case Store(slot, keepers, from) =>
      slot in cells && !cells[slot].Plain? && Loadable(cells, from) &&
      (cells[slot].Strong? ==> KeepOwner(objs, cells, Debts(temps) + RefsIn(ValueOf(cells, from)), slot, keepers))
    case Call(result) => Loadable(cells, result)
    case CallNew(o, fields) => o !in objs && forall i :: 0 <= i < |fields| ==> Initial(fields[i])
    case StoreTemp(slot, keepers, i) =>
      i < |temps| && slot in cells && !cells[slot].Plain? &&
      (cells[slot].Strong? ==> KeepOwner(objs, cells, Debts(temps), slot, keepers))
    case EndTemp(i) => i < |temps|
  }

  /** The objects `keepers` hold the slot's owner up without the slot, with locals and the references `roots`. */
  predicate KeepOwner(objs: map<nat, Header>, cells: map<Place, Content>, roots: multiset<nat>, slot: Place,
                      keepers: set<nat>) {
    slot.Field? ==>
      slot.obj in keepers &&
      forall o :: o in keepers ==> o in objs && (roots[o] > 0 || HasKeeper(cells, slot, keepers, o))
  }

  predicate HasKeeper(cells: map<Place, Content>, slot: Place, keepers: set<nat>, o: nat) {
    exists p :: p in cells && p != slot && cells[p] == Strong(At(o)) && (p.Field? ==> p.obj in keepers)
  }

  lemma OwnerKept(m: Mem, roots: multiset<nat>, slot: Place, keepers: set<nat>, extra: multiset<nat>)
    requires m.idle == {} && m.doomed == {} && slot in m.cells && roots == m.pinned + extra
    requires m.cells[slot].Strong? ==> KeepOwner(m.objs, m.cells, roots, slot, keepers)
    ensures m.cells[slot].Strong? ==> OwnerStays(m, slot, extra)
  {
    if m.cells[slot].Strong? && slot.Field? {
      var d := Idled(m, slot);
      forall o | o in keepers
        ensures Supported(d, roots, keepers, {}, o)
      {
        if roots[o] == 0 {
          var p :| p in m.cells && p != slot && m.cells[p] == Strong(At(o)) && (p.Field? ==> p.obj in keepers);
          assert Holds(d, keepers, {}, p, o);
        }
      }
      assert Firm(d, roots, keepers);
    }
  }

  /** A program that got to the slot's owner over counted pointers can always store. */
  lemma ReachedStorable(rt: Runtime, temps: seq<Ptr>, slot: Place, path: seq<Place>, from: Option<Place>)
    returns (keepers: set<nat>)
    requires Ready(rt, temps) && slot in rt.cells && !rt.cells[slot].Plain? && Loadable(rt.cells, from)
    requires slot.Field? ==> Chain(rt.cells, {}, Debts(temps), path, slot.obj)
    ensures Enabled(rt.objs, rt.cells, temps, Store(slot, keepers, from))
  {
    keepers := {};
    if slot.Field? {
      var d := Idled(rt.View(), slot);
      OwnerLasts(rt.View(), slot, path);
      keepers :| slot.obj in keepers && Firm(d, rt.pinned, keepers);
      forall o | o in keepers
        ensures o in rt.objs && (Debts(temps)[o] > 0 || HasKeeper(rt.cells, slot, keepers, o))
      {
        assert Supported(d, rt.pinned, keepers, {}, o);
        if rt.pinned[o] == 0 {
          var p :| Holds(d, keepers, {}, p, o);
          assert p in rt.cells && p != slot;
        }
      }
    }
  }

  predicate Loadable(cells: map<Place, Content>, from: Option<Place>) {
    from.Some? ==> from.value in cells && !cells[from.value].Plain?
  }

  function ValueOf(cells: map<Place, Content>, from: Option<Place>): Ptr
    requires Loadable(cells, from)
  {
    if from.None? then Nil else cells[from.value].ptr
  }

  /** A pointer that a program can load, weak or counted, never points to freed memory. */
  lemma ValueLives(rt: Runtime, temps: seq<Ptr>, from: Option<Place>)
    requires Ready(rt, temps) && Loadable(rt.cells, from)
    ensures Points(rt.objs, ValueOf(rt.cells, from))
  {
  }

  /** Nor does an owned temporary. */
  lemma TempLives(rt: Runtime, temps: seq<Ptr>, i: nat)
    requires Ready(rt, temps) && i < |temps|
    ensures Points(rt.objs, temps[i])
  {
    DebtsTaken(temps, i);
    if temps[i].At? {
      assert temps[i].obj in rt.owed;
    }
  }

  // ---------------------------------------------------------------- what a step does

  /** A slot took a value: the other cells are as they were, and exactly what its old value alone held up is gone. */
  ghost predicate Stored(m: Mem, n: Mem, owed: multiset<nat>, slot: Place, val: Ptr)
    requires slot in m.cells && !m.cells[slot].Plain?
  {
    if m.cells[slot].Strong? then StoredOver(m, n, owed, slot, Strong(val))
    else n.cells == m.cells[slot := Weak(val)] && n.objs.Keys == m.objs.Keys
  }

  ghost predicate HasFields(n: Mem, o: nat, fields: seq<Content>) {
    o in n.objs && forall i :: 0 <= i < |fields| ==> Field(o, i) in n.cells && n.cells[Field(o, i)] == fields[i]
  }

  /** What an enabled step that does not fail makes of the memory and the temporaries. */
  ghost predicate Effect(m: Mem, temps: seq<Ptr>, c: Command, n: Mem, next: seq<Ptr>)
    requires Enabled(m.objs, m.cells, temps, c)
  {
    match c
    case DeclareLocal(k, weak) =>
      next == temps && n.objs == m.objs && n.cells == m.cells[Local(k) := if weak then Weak(Nil) else Strong(Nil)]
    case EndScope(k) =>
      next == temps && Local(k) !in n.cells && Untouched(m, n, {Local(k)}) &&
      Survivors(Idled(m, Local(k)), n, Debts(temps))
    case DeclareArea(shape, base) => next == temps && n.objs == m.objs && n.cells == m.cells + Blank(shape, base)
    case EndArea(shape, base) =>
      next == temps && n.cells.Keys !! Area(base, Width(shape)) && Untouched(m, n, Area(base, Width(shape))) &&
      Survivors(Apart(m, base, Width(shape)), n, Debts(temps))
    case CopyArea(shape, base, source) =>
      next == temps && Area(base, Width(shape)) <= n.cells.Keys &&
      Loaded(n.cells, base, Width(shape)) == Loaded(m.cells, source, Width(shape)) &&
      Untouched(m, n, Area(base, Width(shape))) && Survivors(Apart(m, base, Width(shape)), n, Debts(temps))
    case New(k, o, fields) =>
      next == temps && Local(k) in n.cells && n.cells[Local(k)] == Strong(At(o)) && HasFields(n, o, fields) &&
      Untouched(m, n, {Local(k)} + Own(o, |fields|)) &&
      forall x :: x in n.objs <==> x == o || Sustained(Idled(m, Local(k)), Debts(temps), x)
    case Discard(_, _) => next == temps && n.cells == m.cells && n.objs.Keys == m.objs.Keys
    case Store(slot, _, from) =>
      next == temps && var val := ValueOf(m.cells, from); Stored(m, n, Debts(temps) + RefsIn(val), slot, val)
    case Call(result) =>
      next == temps + [ValueOf(m.cells, result)] && n.cells == m.cells && n.objs.Keys == m.objs.Keys
    case CallNew(o, fields) =>
      next == temps + [At(o)] && HasFields(n, o, fields) && n.objs.Keys == m.objs.Keys + {o} &&
      Untouched(m, n, Own(o, |fields|))
    case StoreTemp(slot, _, i) =>
      next == (if m.cells[slot].Strong? then Without(temps, i) else temps) &&
      Stored(m, n, Debts(temps), slot, temps[i])
    case EndTemp(i) =>
      next == Without(temps, i) && Untouched(m, n, {}) && Survivors(m, n, Debts(next))
  }

  /** An enabled step and its effect. */
  ghost predicate Steps(m: Mem, temps: seq<Ptr>, c: Command, n: Mem, next: seq<Ptr>) {
    Enabled(m.objs, m.cells, temps, c) && exists d :: d == c && Performs(m, temps, d, n, next)
  }

  ghost predicate Performs(m: Mem, temps: seq<Ptr>, c: Command, n: Mem, next: seq<Ptr>) {
    Enabled(m.objs, m.cells, temps, c) && Effect(m, temps, c, n, next)
  }

  // ---------------------------------------------------------------- new objects

  /** A new object with initial fields, as Allocate leaves it. */
  ghost predicate Grown(m: Mem, d: Mem, o: nat, fields: seq<Content>) {
    o !in m.objs && d.objs.Keys == m.objs.Keys + {o} && d.objs[o].memcount == 0 &&
    (forall x :: x in m.objs ==> d.objs[x] == m.objs[x]) && d.cells.Keys == m.cells.Keys + Own(o, |fields|) &&
    (forall q :: q in m.cells ==> d.cells[q] == m.cells[q]) &&
    (forall i :: 0 <= i < |fields| ==> Field(o, i) in d.cells && d.cells[Field(o, i)] == fields[i]) &&
    (forall i :: 0 <= i < |fields| ==> Initial(fields[i])) &&
    m.doomed == {} == d.doomed && m.idle == {} == d.idle && d.pinned == m.pinned
  }

  method Create(rt: Runtime, o: nat, fields: seq<Content>)
    requires Steady(rt) && o !in rt.objs && forall k :: 0 <= k < |fields| ==> Initial(fields[k])
    modifies rt`objs, rt`cells
    ensures Steady(rt) && Grown(old(rt.View()), rt.View(), o, fields)
  {
    Allocate(rt, o, fields);
  }

  /** The new object's cells are its fields, and they hold nothing. */
  lemma GrownCells(m: Mem, d: Mem, o: nat, fields: seq<Content>)
    requires Grown(m, d, o, fields)
    ensures forall p :: p in d.cells && p !in m.cells ==> p.Field? && p.obj == o && Initial(d.cells[p])
  {
    forall p | p in d.cells && p !in m.cells
      ensures p.Field? && p.obj == o && Initial(d.cells[p])
    {
      assert p in Own(o, |fields|);
      var k :| 0 <= k < |fields| && p == Field(o, k);
    }
  }

  /** A new object holds nothing up, and nothing holds it up but what is owed to it. */
  lemma GrownSustained(m: Mem, d: Mem, o: nat, fields: seq<Content>, idle: set<Place>, owed: multiset<nat>, x: nat)
    requires Layout(m) && Grown(m, d, o, fields) && idle <= m.cells.Keys && x != o
    ensures Sustained(d.(idle := idle), owed + One(o), x) <==> Sustained(m.(idle := idle), owed, x)
  {
    GrownCells(m, d, o, fields);
    var a, b := m.(idle := idle), d.(idle := idle);
    if Sustained(b, owed + One(o), x) {
      var s :| x in s && Upheld(b, owed + One(o), s, {});
      forall t | t in s - {o}
        ensures Held(a, owed, s - {o}, {}, t)
      {
        assert Held(b, owed + One(o), s, {}, t);
        assert forall p :: Holds(b, s, {}, p, t) ==> Holds(a, s - {o}, {}, p, t);
      }
      assert Upheld(a, owed, s - {o}, {});
    }
    if Sustained(a, owed, x) {
      var s :| x in s && Upheld(a, owed, s, {});
      forall t | t in s
        ensures Held(b, owed + One(o), s, {}, t)
      {
        assert Held(a, owed, s, {}, t);
        assert forall p :: Holds(a, s, {}, p, t) ==> Holds(b, s, {}, p, t);
      }
      assert Upheld(b, owed + One(o), s, {});
    }
  }

  /** The new object in its slot. */
  lemma NewStored(m: Mem, d: Mem, n: Mem, owed: multiset<nat>, k: nat, o: nat, fields: seq<Content>)
    requires Layout(m) && Layout(n) && Sound(n) && n.idle == {} && n.doomed == {} && Grown(m, d, o, fields)
    requires Local(k) in m.cells && StoredOver(d, n, owed + One(o), Local(k), Strong(At(o)))
    ensures HasFields(n, o, fields) && Untouched(m, n, {Local(k)} + Own(o, |fields|))
    ensures forall x :: x in n.objs <==> x == o || Sustained(Idled(m, Local(k)), owed, x)
  {
    GrownCells(m, d, o, fields);
    assert n.cells[Local(k)] == Strong(At(o)) && o in Live(n);
    forall i | 0 <= i < |fields|
      ensures Field(o, i) in n.cells && n.cells[Field(o, i)] == fields[i]
    {
      assert Field(o, i) in d.cells && Field(o, i).obj in n.objs;
    }
    forall x ensures x in n.objs <==> x == o || Sustained(Idled(m, Local(k)), owed, x) {
      if x != o {
        assert d.idle + {Local(k)} == {Local(k)} == m.idle + {Local(k)};
        GrownSustained(m, d, o, fields, {Local(k)}, owed, x);
      }
    }
  }

  /** A new object that nobody took: everything is as before. */
  lemma NewGone(m: Mem, d: Mem, n: Mem, owed: multiset<nat>, o: nat, fields: seq<Content>)
    requires Inv(m, owed) && Layout(d) && Layout(n) && Grown(m, d, o, fields) && Settled(d, n) && o !in n.objs
    requires Survivors(d.(doomed := {o}), n, owed) && n.doomed == {}
    ensures n.cells == m.cells && n.objs.Keys == m.objs.Keys
  {
    var e := d.(doomed := {o});
    SettledSelf(m);
    SurvivorsHeld(m, m, owed);
    forall x | x in m.objs
      ensures Held(e, owed, Live(m), {}, x)
    {
      assert Held(m, owed, Live(m), {}, x);
      assert forall p :: Holds(m, Live(m), {}, p, x) ==> Holds(e, Live(m), {}, p, x);
    }
    assert Upheld(e, owed, Live(m), {});
    assert forall x :: x in m.objs ==> Sustained(e, owed, x);
    assert n.objs.Keys == m.objs.Keys;
    NewGoneCells(m, d, n, owed, o, fields);
  }

  lemma NewGoneCells(m: Mem, d: Mem, n: Mem, owed: multiset<nat>, o: nat, fields: seq<Content>)
    requires Inv(m, owed) && Layout(d) && Layout(n) && Grown(m, d, o, fields) && Settled(d, n) && n.doomed == {}
    requires n.objs.Keys == m.objs.Keys
    ensures n.cells == m.cells
  {
    GrownCells(m, d, o, fields);
    assert d.idle + {} == d.idle;
    SettledUntouched(d, n, {});
    assert Live(n) == Live(m);
    forall q | q in m.cells ensures q in n.cells && n.cells[q] == m.cells[q] {
      assert q.Field? ==> q.obj in n.objs;
      assert n.cells[q] == Fade(n, m.cells[q]);
    }
    assert forall q :: q in n.cells ==> q in m.cells;
  }

  // ---------------------------------------------------------------- stores and calls

  /** A pointer value stored in a slot, counted or weak. */
  method Assign(rt: Runtime, ghost temps: seq<Ptr>, slot: Place, val: Ptr)
    requires Ready(rt, temps) && slot in rt.cells && !rt.cells[slot].Plain? && Points(rt.objs, val)
    requires rt.cells[slot].Strong? ==> OwnerStays(rt.View(), slot, RefsIn(val))
    modifies rt
    ensures Ready(rt, temps) && Stored(old(rt.View()), rt.View(), old(rt.owed) + RefsIn(val), slot, val)
  {
    if rt.cells[slot].Strong? {
      SafeStore(rt, slot, val, false);
      PaidBack(old(rt.owed), RefsIn(val));
    } else {
      SafeStoreWeak(rt, slot, val);
    }
  }

  /** The result of a call: the callee counts it up, and the caller owns it. */
  method Return(rt: Runtime, temps: seq<Ptr>, val: Ptr) returns (next: seq<Ptr>)
    requires Ready(rt, temps) && Points(rt.objs, val)
    modifies rt
    ensures Ready(rt, next) && next == temps + [val] && rt.cells == old(rt.cells) && rt.objs.Keys == old(rt.objs).Keys
  {
    DebtsAdded(temps, val);
    CountNew(rt, val, false);
    next := temps + [val];
    Pin(rt, Debts(next));
  }

  /** A store that takes over a temporary's reference; a weak slot does not. */
  method AssignTemp(rt: Runtime, temps: seq<Ptr>, slot: Place, i: nat) returns (next: seq<Ptr>)
    requires Ready(rt, temps) && i < |temps| && slot in rt.cells && !rt.cells[slot].Plain?
    requires rt.cells[slot].Strong? ==> OwnerStays(rt.View(), slot, multiset{})
    modifies rt
    ensures Ready(rt, next) && next == if old(rt.cells)[slot].Strong? then Without(temps, i) else temps
    ensures Stored(old(rt.View()), rt.View(), old(rt.owed), slot, temps[i])
  {
    TempLives(rt, temps, i);
    if rt.cells[slot].Strong? {
      next := Without(temps, i);
      HandOver(rt, temps, slot, i);
    } else {
      next := temps;
      SafeStoreWeak(rt, slot, temps[i]);
    }
  }

  method HandOver(rt: Runtime, temps: seq<Ptr>, slot: Place, i: nat)
    requires Ready(rt, temps) && i < |temps| && slot in rt.cells && rt.cells[slot].Strong? && Points(rt.objs, temps[i])
    requires OwnerStays(rt.View(), slot, multiset{})
    modifies rt
    ensures Ready(rt, Without(temps, i)) && StoredOver(old(rt.View()), rt.View(), old(rt.owed), slot, Strong(temps[i]))
  {
    ghost var rest := Debts(Without(temps, i));
    DebtsTaken(temps, i);
    ghost var m := rt.View();
    Pin(rt, rest);
    OwnerUnpinned(m, slot, rest, RefsIn(temps[i]));
    SafeStore(rt, slot, temps[i], true);
    StoredUnpinned(m, rest, rt.View(), old(rt.owed), slot, Strong(temps[i]));
    PaidBack(rest, RefsIn(temps[i]));
  }

  lemma StoredUnpinned(m: Mem, rest: multiset<nat>, n: Mem, owed: multiset<nat>, slot: Place, c: Content)
    requires StoredOver(m.(pinned := rest), n, owed, slot, c)
    ensures StoredOver(m, n, owed, slot, c)
  {
    SustainedSame(Idled(m, slot), Idled(m.(pinned := rest), slot), owed);
  }

  lemma OwnerUnpinned(m: Mem, slot: Place, rest: multiset<nat>, extra: multiset<nat>)
    requires OwnerStays(m, slot, multiset{}) && m.pinned == rest + extra
    ensures OwnerStays(m.(pinned := rest), slot, extra)
  {
    if slot.Field? {
      assert m.pinned + multiset{} == rest + extra;
      LastingSame(Idled(m, slot), Idled(m.(pinned := rest), slot), rest + extra, slot.obj);
    }
  }

  /** ac_decr_loaded_transients: at the end of the statement an owned temporary is released. */
  method Release(rt: Runtime, temps: seq<Ptr>, i: nat) returns (next: seq<Ptr>)
    requires Ready(rt, temps) && i < |temps|
    modifies rt
    ensures Ready(rt, next) && next == Without(temps, i) && Settled(old(rt.View()).(pinned := Debts(next)), rt.View())
    ensures Survivors(old(rt.View()), rt.View(), Debts(next)) && Untouched(old(rt.View()), rt.View(), {})
  {
    ghost var m := rt.View();
    next := Without(temps, i);
    DebtsTaken(temps, i);
    Pin(rt, Debts(next));
    ghost var d := rt.View();
    SustainedSame(m, d, Debts(next));
    rt.DecrPtr(temps[i]);
    assert d.idle + {} == d.idle;
    SettledUntouched(d, rt.View(), {});
    PaidBack(Debts(next), RefsIn(temps[i]));
  }

  /** Whatever the source of a copy points to is held up without the target. */
  ghost predicate Copyable(m: Mem, owed: multiset<nat>, shape: seq<Shape>, base: nat, source: nat) {
    var n := Width(shape);
    Area(source, n) <= m.cells.Keys && BitsSustained(Apart(m, base, n), owed, shape, base, Loaded(m.cells, source, n))
  }

  /** Assignment between two structs in local storage; it fails exactly where the copy would read freed memory. */
  method Copy(rt: Runtime, ghost temps: seq<Ptr>, shape: seq<Shape>, base: nat, source: nat) returns (ok: bool)
    requires Ready(rt, temps) && Enabled(rt.objs, rt.cells, temps, CopyArea(shape, base, source))
    modifies rt
    ensures ok ==> Ready(rt, temps)
    ensures ok <==> Copyable(old(rt.View()), old(rt.owed), shape, base, source)
    ensures ok ==> Effect(old(rt.View()), temps, CopyArea(shape, base, source), rt.View(), temps)
  {
    var bits := Loaded(rt.cells, source, Width(shape));
    ok := AssignWhole(rt, shape, base, bits);
    if ok {
      LoadedBack(rt.cells, base, bits);
    }
  }

  lemma LoadedBack(cells: map<Place, Content>, base: nat, bits: seq<Content>)
    requires forall p :: p in Area(base, |bits|) ==> p in cells && cells[p] == bits[p.k - base]
    ensures Area(base, |bits|) <= cells.Keys && Loaded(cells, base, |bits|) == bits
  {
    forall i | 0 <= i < |bits| ensures Loaded(cells, base, |bits|)[i] == bits[i] {
      assert Local(base + i) in Area(base, |bits|);
    }
  }

  /** The elements of empty arrays are right as they are. */
  method AssignWhole(rt: Runtime, shape: seq<Shape>, base: nat, bits: seq<Content>) returns (ok: bool)
    requires Steady(rt) && Fits(rt.cells, shape, base) && |bits| == Width(shape) && Bits(rt.cells, base, bits)
    requires forall p :: p in ArrayCells(shape, base) ==> p in Area(base, |bits|) && bits[p.k - base] == Strong(Nil)
    modifies rt
    ensures ok ==> Steady(rt) && rt.owed == old(rt.owed) && rt.pinned == old(rt.pinned)
    ensures ok <==> BitsSustained(Apart(old(rt.View()), base, |bits|), old(rt.owed), shape, base, bits)
    ensures ok ==> forall p :: p in Area(base, |bits|) ==> p in rt.cells && rt.cells[p] == bits[p.k - base]
    ensures Untouched(old(rt.View()), rt.View(), Area(base, |bits|))
    ensures Survivors(Apart(old(rt.View()), base, |bits|), rt.View(), old(rt.owed))
  {
    ok := AssignStruct(rt, shape, base, bits);
    if ok {
      UseArrays(rt, shape, base, bits);
    }
  }

  ghost method UseArrays(rt: Runtime, shape: seq<Shape>, base: nat, bits: seq<Content>)
    requires rt.Valid() && OnlyLocalsIdle(rt) && rt.idle == ArrayCells(shape, base)
    requires forall p :: p in ArrayCells(shape, base) ==> p in Area(base, |bits|) && bits[p.k - base] == Strong(Nil)
    requires forall p :: p in Area(base, |bits|) ==> p in rt.cells && rt.cells[p] == bits[p.k - base]
    modifies rt`idle
    ensures Steady(rt)
  {
    UseNils(rt, rt.idle);
    assert rt.idle == {};
  }

  /** One step; it fails exactly for a struct that is copied over what holds something up that it points to. */
  method Execute(rt: Runtime, temps: seq<Ptr>, c: Command) returns (ok: bool, next: seq<Ptr>)
    requires Ready(rt, temps) && Enabled(rt.objs, rt.cells, temps, c)
    modifies rt
    ensures ok ==> Ready(rt, next) && Steps(old(rt.View()), temps, c, rt.View(), next)
    ensures ok <==> (c.CopyArea? ==> Copyable(old(rt.View()), old(rt.owed), c.shape, c.base, c.source))
  {
    ghost var m := rt.View();
    ok, next := true, temps;
    match c
    case DeclareLocal(_, _) => ExecuteScope(rt, temps, c);
    case EndScope(_) => ExecuteScope(rt, temps, c);
    case DeclareArea(_, _) => ExecuteScope(rt, temps, c);
    case EndArea(_, _) => ExecuteScope(rt, temps, c);
    case CopyArea(shape, base, source) =>
      ok := Copy(rt, temps, shape, base, source);
      assert ok ==> Performs(m, temps, c, rt.View(), next);
    case New(k, o, fields) =>
      StoreNew(rt, temps, k, o, fields);
      assert Performs(m, temps, c, rt.View(), next);
    case Discard(o, fields) =>
      DropNew(rt, temps, o, fields);
      assert Performs(m, temps, c, rt.View(), next);
    case Store(slot, keepers, from) =>
      ValueLives(rt, temps, from);
      var val := ValueOf(rt.cells, from);
      OwnerKept(rt.View(), Debts(temps) + RefsIn(val), slot, keepers, RefsIn(val));
      Assign(rt, temps, slot, val);
      assert Performs(m, temps, c, rt.View(), next);
    case Call(result) =>
      ValueLives(rt, temps, result);
      next := Return(rt, temps, ValueOf(rt.cells, result));
      assert Performs(m, temps, c, rt.View(), next);
    case CallNew(o, fields) =>
      next := ReturnNew(rt, temps, o, fields);
      assert Performs(m, temps, c, rt.View(), next);
    case StoreTemp(slot, keepers, i) =>
      OwnerKept(rt.View(), Debts(temps), slot, keepers, multiset{});
      next := AssignTemp(rt, temps, slot, i);
      assert Performs(m, temps, c, rt.View(), next);
    case EndTemp(i) =>
      next := Release(rt, temps, i);
      assert Performs(m, temps, c, rt.View(), next);
  }

  /** Declarations and ends of scopes. */
  method ExecuteScope(rt: Runtime, ghost temps: seq<Ptr>, c: Command)
    requires Ready(rt, temps) && Enabled(rt.objs, rt.cells, temps, c)
    requires c.DeclareLocal? || c.EndScope? || c.DeclareArea? || c.EndArea?
    modifies rt
    ensures Ready(rt, temps) && Steps(old(rt.View()), temps, c, rt.View(), temps)
  {
    ghost var m := rt.View();
    match c {
      case DeclareLocal(k, weak) => Declare(rt, k, weak);
      case EndScope(k) => LeaveScope(rt, k);
      case DeclareArea(shape, base) => DeclareStruct(rt, shape, base);
      case EndArea(shape, base) => LeaveStruct(rt, shape, base);
    }
    assert Performs(m, temps, c, rt.View(), temps);
  }

  /** `new`, stored in a local. */
  method StoreNew(rt: Runtime, ghost temps: seq<Ptr>, k: nat, o: nat, fields: seq<Content>)
    requires Ready(rt, temps) && Enabled(rt.objs, rt.cells, temps, New(k, o, fields))
    modifies rt
    ensures Ready(rt, temps) && Effect(old(rt.View()), temps, New(k, o, fields), rt.View(), temps)
  {
    ghost var m := rt.View();
    Create(rt, o, fields);
    ghost var d := rt.View();
    Assign(rt, temps, Local(k), At(o));
    NewStored(m, d, rt.View(), Debts(temps), k, o, fields);
  }

  /** `new` that nobody takes. */
  method DropNew(rt: Runtime, ghost temps: seq<Ptr>, o: nat, fields: seq<Content>)
    requires Ready(rt, temps) && Enabled(rt.objs, rt.cells, temps, Discard(o, fields))
    modifies rt
    ensures Ready(rt, temps) && Effect(old(rt.View()), temps, Discard(o, fields), rt.View(), temps)
  {
    ghost var m := rt.View();
    Create(rt, o, fields);
    ghost var d := rt.View();
    CheckPtr(rt, At(o));
    NewGone(m, d, rt.View(), rt.owed, o, fields);
  }

  /** `new` as the result of a call. */
  method ReturnNew(rt: Runtime, temps: seq<Ptr>, o: nat, fields: seq<Content>) returns (next: seq<Ptr>)
    requires Ready(rt, temps) && Enabled(rt.objs, rt.cells, temps, CallNew(o, fields))
    modifies rt
    ensures Ready(rt, next) && Effect(old(rt.View()), temps, CallNew(o, fields), rt.View(), next)
  {
    ghost var m := rt.View();
    Create(rt, o, fields);
    ghost var d := rt.View();
    next := Return(rt, temps, At(o));
    NewReturned(m, d, rt.View(), o, fields);
  }

  lemma NewReturned(m: Mem, d: Mem, n: Mem, o: nat, fields: seq<Content>)
    requires Sound(m) && Grown(m, d, o, fields) && n.cells == d.cells && n.objs.Keys == d.objs.Keys && n.doomed == {}
    ensures HasFields(n, o, fields) && Untouched(m, n, Own(o, |fields|))
  {
    GrownCells(m, d, o, fields);
    assert Live(n) == Live(m) + {o};
  }

  // ---------------------------------------------------------------- whole runs

  /** The memory and the temporaries between steps. */
  datatype State = State(mem: Mem, temps: seq<Ptr>)

  const START := State(Mem(map[], map[], {}, {}, multiset{}), [])

  /** A step that is not enabled is skipped, any other has its effect. */
  ghost predicate Follows(a: State, c: Command, b: State) {
    if Enabled(a.mem.objs, a.mem.cells, a.temps, c) then Steps(a.mem, a.temps, c, b.mem, b.temps) else b == a
  }

  /** The states that a program goes through. */
  ghost predicate Trace(program: seq<Command>, states: seq<State>) {
    0 < |states| <= |program| + 1 && states[0] == START && exists steps :: steps == program && Chained(steps, states)
  }

  ghost predicate Chained(program: seq<Command>, states: seq<State>)
    requires |states| <= |program| + 1
  {
    forall i :: 0 <= i < |states| - 1 ==> Follows(states[i], program[i], states[i + 1])
  }

  /** The copy that this state does not survive. */
  ghost predicate Fails(a: State, c: Command) {
    Enabled(a.mem.objs, a.mem.cells, a.temps, c) && c.CopyArea? &&
    !Copyable(a.mem, Debts(a.temps), c.shape, c.base, c.source)
  }

  /** From the empty memory, every program that only runs enabled steps ends in a state whose counts and weak lists
      are exact, each step with its effect; disabled steps are skipped, and a failed one ends the run. */
  method Run(program: seq<Command>) returns (rt: Runtime, temps: seq<Ptr>, ok: bool, ghost states: seq<State>)
    ensures fresh(rt) && (ok ==> Ready(rt, temps)) && Trace(program, states)
    ensures ok ==> |states| == |program| + 1 && states[|program|] == State(rt.View(), temps)
    ensures !ok ==> |states| <= |program| && Fails(states[|states| - 1], program[|states| - 1])
    ensures (forall c :: c in program ==> !c.CopyArea?) ==> ok
    ensures ok ==> forall o :: o in rt.objs ==>
      rt.objs[o].memcount == |Holders(rt.cells, {}, o)| + Debts(temps)[o]
    ensures ok ==> forall o :: o in rt.objs ==>
      rt.objs[o].wrefct <= |rt.objs[o].wrefs| && Tidy(Entries(rt.objs[o])) &&
      Places(Entries(rt.objs[o])) == WeakHolders(rt.cells, {}, o)
    ensures ok ==> forall p :: p in rt.cells && !rt.cells[p].Plain? ==> Points(rt.objs, rt.cells[p].ptr)
    ensures ok ==> forall i :: 0 <= i < |temps| ==> Points(rt.objs, temps[i])
  {
    rt, temps, ok, states := RunSteps(program);
    if ok {
      Exact(rt.View(), rt.owed);
      forall k | 0 <= k < |temps| ensures Points(rt.objs, temps[k]) {
        TempLives(rt, temps, k);
      }
    }
  }

  method RunSteps(program: seq<Command>) returns (rt: Runtime, temps: seq<Ptr>, ok: bool, ghost states: seq<State>)
    ensures fresh(rt) && (ok ==> Between(rt, temps))
    ensures ok ==> Reaches(program, |program|, states, State(rt.View(), temps))
    ensures !ok ==> Stops(program, states)
  {
    rt := Begin();
    temps, ok := [], true;
    states := Beginning(program);
    var i := 0;
    while i < |program| && ok
      invariant i <= |program| && fresh(rt)
      invariant if ok then Between(rt, temps) && Reaches(program, i, states, State(rt.View(), temps))
                else Stops(program, states)
    {
      ok, temps, states := Continue(rt, program, i, temps, states);
      i := i + 1;
    }
  }

  method Continue(rt: Runtime, program: seq<Command>, i: nat, temps: seq<Ptr>, ghost states: seq<State>)
    returns (ok: bool, next: seq<Ptr>, ghost more: seq<State>)
    requires i < |program| && Between(rt, temps) && Reaches(program, i, states, State(rt.View(), temps))
    modifies rt
    ensures if ok then Between(rt, next) && Reaches(program, i + 1, more, State(rt.View(), next))
            else Stops(program, more)
  {
    ghost var now := State(rt.View(), temps);
    ok, next := Advance(rt, temps, program[i]);
    more := states;
    if ok {
      ReachesOn(program, i, states, now, State(rt.View(), next));
      more := states + [State(rt.View(), next)];
    } else {
      Stopped(program, i, states, now);
    }
  }

  ghost predicate Reaches(program: seq<Command>, i: nat, states: seq<State>, now: State) {
    exists steps :: steps == program && ReachedBy(steps, i, states, now)
  }

  ghost predicate ReachedBy(program: seq<Command>, i: nat, states: seq<State>, now: State) {
    i <= |program| && Trace(program, states) && |states| == i + 1 && states[i] == now
  }

  ghost predicate Stops(program: seq<Command>, states: seq<State>) {
    Trace(program, states) && |states| <= |program| && Fails(states[|states| - 1], program[|states| - 1])
  }

  lemma Beginning(program: seq<Command>) returns (states: seq<State>)
    ensures Reaches(program, 0, states, START)
  {
    states := [START];
    assert Chained(program, states);
    assert ReachedBy(program, 0, states, START);
  }

  lemma ReachesOn(program: seq<Command>, i: nat, states: seq<State>, now: State, next: State)
    requires i < |program| && Reaches(program, i, states, now) && Follows(now, program[i], next)
    ensures Reaches(program, i + 1, states + [next], next)
  {
    TraceGrows(program, states, next);
    assert ReachedBy(program, i + 1, states + [next], next);
  }

  lemma Stopped(program: seq<Command>, i: nat, states: seq<State>, now: State)
    requires i < |program| && Reaches(program, i, states, now) && Fails(now, program[i])
    ensures Stops(program, states)
  {
  }

  method Begin() returns (rt: Runtime)
    ensures fresh(rt) && Between(rt, []) && State(rt.View(), []) == START
  {
    rt := new Runtime();
    assert Ready(rt, []);
  }

  /** Some list of temporaries, this one, has all the debts. */
  ghost predicate Between(rt: Runtime, temps: seq<Ptr>)
    reads rt
  {
    exists ts :: ts == temps && Ready(rt, ts)
  }

  method Advance(rt: Runtime, temps: seq<Ptr>, c: Command) returns (ok: bool, next: seq<Ptr>)
    requires Between(rt, temps)
    modifies rt
    ensures if ok then Between(rt, next) && Follows(State(old(rt.View()), temps), c, State(rt.View(), next))
            else Fails(State(old(rt.View()), temps), c)
  {
    ok, next := true, temps;
    if Enabled(rt.objs, rt.cells, temps, c) {
      ok, next := Execute(rt, temps, c);
      assert ok ==> Ready(rt, next);
    }
  }

  lemma TraceGrows(program: seq<Command>, states: seq<State>, b: State)
    requires Trace(program, states) && |states| <= |program|
    requires Follows(states[|states| - 1], program[|states| - 1], b)
    ensures Trace(program, states + [b])
  {
    assert Chained(program, states + [b]);
  }

  lemma Exact(m: Mem, owed: multiset<nat>)
    requires Inv(m, owed) && m.doomed == {} && m.idle == {}
    ensures forall o :: o in m.objs ==> m.objs[o].memcount == |Holders(m.cells, {}, o)| + owed[o]
    ensures forall o :: o in m.objs ==> Registry(m.objs[o], m.cells, {}, o)
    ensures forall p :: p in m.cells && !m.cells[p].Plain? ==> Points(m.objs, m.cells[p].ptr)
  {
    forall o | o in m.objs
      ensures m.objs[o].memcount == |Holders(m.cells, {}, o)| + owed[o]
      ensures Registry(m.objs[o], m.cells, {}, o)
    {
      Accounted(m, owed, o);
    }
  }
}
