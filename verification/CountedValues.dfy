/** Struct values and arrays in local storage: declared, assigned and left by the code the compiler emits. */
module CountedValues {
  import opened CountedMemory
  import opened CountedSteps
  import opened CountedReach
  import opened CountedRuntime
  import opened CountedStores
  import opened CountedStructs

  // ---------------------------------------------------------------- declarations

  /** What the generated constructor writes: nil in every pointer cell. */
  function Blank(fields: seq<Shape>, base: nat): map<Place, Content> {
    if fields == [] then map[]
    else FieldBlank(fields[0], base) + Blank(fields[1..], base + FieldWidth(fields[0]))
  }

  function FieldBlank(f: Shape, at: nat): map<Place, Content> {
    match f
    case CountedField => map[Local(at) := Strong(Nil)]
    case WeakField => map[Local(at) := Weak(Nil)]
    case DataField => map[Local(at) := Plain]
    case StructField(inner) => Blank(inner, at)
    case ArrayField(n) => map p | p in Area(at, n) :: Strong(Nil)
  }

  lemma {:induction false} BlankFits(fields: seq<Shape>, base: nat)
    ensures Blank(fields, base).Keys == Area(base, Width(fields)) && Fits(Blank(fields, base), fields, base)
    ensures forall p :: p in Blank(fields, base) ==> Initial(Blank(fields, base)[p])
    decreases fields, 0
  {
    if fields != [] {
      var v := FieldWidth(fields[0]);
      var first, rest, all := FieldBlank(fields[0], base), Blank(fields[1..], base + v), Blank(fields, base);
      FieldBlankFits(fields[0], base);
      BlankFits(fields[1..], base + v);
      BlankJoined(first, rest, all, base, v, Width(fields[1..]));
      FieldFitsKept(first, all, fields[0], base);
      FitsKept(rest, all, fields[1..], base + v);
    }
  }

  lemma BlankJoined(first: map<Place, Content>, rest: map<Place, Content>, all: map<Place, Content>, base: nat, v: nat,
                    w: nat)
    requires first.Keys == Area(base, v) && rest.Keys == Area(base + v, w) && all == first + rest
    ensures all.Keys == Area(base, v + w)
    ensures forall p :: p in first ==> p in all && all[p] == first[p]
    ensures forall p :: p in rest ==> p in all && all[p] == rest[p]
  {
    SplitArea(all, base, v, w);
    assert all.Keys == first.Keys + rest.Keys;
  }

  lemma {:induction false} FieldBlankFits(f: Shape, at: nat)
    ensures FieldBlank(f, at).Keys == Area(at, FieldWidth(f)) && FieldFits(FieldBlank(f, at), f, at)
    ensures forall p :: p in FieldBlank(f, at) ==> Initial(FieldBlank(f, at)[p])
    decreases f, 1
  {
    if f.StructField? {
      BlankFits(f.fields, at);
    } else if f.ArrayField? {
      assert forall k :: at <= k < at + f.n ==> Local(k) in Area(at, f.n);
    } else {
      assert forall p :: p in Area(at, 1) <==> p == Local(at);
    }
  }

  /** A struct or array comes into scope: ac_call_constructor, ac_nil_fill_array. */
  method DeclareStruct(rt: Runtime, fields: seq<Shape>, base: nat)
    requires Steady(rt) && Area(base, Width(fields)) !! rt.cells.Keys
    modifies rt`cells
    ensures Steady(rt) && rt.cells == old(rt.cells) + Blank(fields, base) && Fits(rt.cells, fields, base)
  {
    ghost var m := rt.View();
    BlankFits(fields, base);
    rt.cells := rt.cells + Blank(fields, base);
    AreaDeclared(m, rt.owed, Blank(fields, base));
    FitsKept(Blank(fields, base), rt.cells, fields, base);
  }

  lemma AreaDeclared(m: Mem, owed: multiset<nat>, added: map<Place, Content>)
    requires Inv(m, owed) && m.idle == {} && m.cells.Keys !! added.Keys
    requires forall p :: p in added ==> p.Local? && Initial(added[p])
    ensures var n := m.(cells := m.cells + added); Inv(n, owed) && Anchored(n)
  {
    var n := m.(cells := m.cells + added);
    forall o | o in Live(n)
      ensures n.objs[o].memcount == |Holders(n.cells, n.idle, o)| + owed[o]
      ensures Registry(n.objs[o], n.cells, n.idle, o)
    {
      Accounted(m, owed, o);
      NothingAdded(m.cells, added, o);
    }
  }

  // ---------------------------------------------------------------- ends of scopes

  /** Local cells that gave their references up can disappear. */
  lemma AreaDropped(m: Mem, owed: multiset<nat>, s: set<Place>)
    requires Inv(m, owed) && m.doomed == {} && m.idle <= s && forall p :: p in s ==> p.Local?
    requires forall p :: p in s && p in m.cells ==> p in m.idle || m.cells[p].Plain?
    ensures var n := m.(cells := m.cells - s, idle := {}); Inv(n, owed) && Anchored(n)
  {
    var n := m.(cells := m.cells - s, idle := {});
    forall o | o in Live(n)
      ensures n.objs[o].memcount == |Holders(n.cells, n.idle, o)| + owed[o]
      ensures Registry(n.objs[o], n.cells, n.idle, o)
    {
      Accounted(m, owed, o);
      assert Holders(n.cells, n.idle, o) == Holders(m.cells, m.idle, o);
      assert WeakHolders(n.cells, n.idle, o) == WeakHolders(m.cells, m.idle, o);
    }
  }

  /** The memory with the references of an area left out. */
  ghost function Apart(m: Mem, base: nat, w: nat): Mem { m.(idle := Pointers(m.cells, base, w)) }

  /** An area that was in use has exactly its pointer cells idle; exactly what others hold up is still there. */
  ghost predicate Ended(m: Mem, n: Mem, owed: multiset<nat>, base: nat, w: nat) {
    n.idle == Pointers(m.cells, base, w) && n.pinned == m.pinned && n.cells.Keys <= m.cells.Keys &&
    (forall p :: p in Area(base, w) && p in m.cells ==>
      p in n.cells && (m.cells[p].Plain? ==> n.cells[p] == Plain)) &&
    Survivors(Apart(m, base, w), n, owed) && Untouched(m, n, Area(base, w))
  }

  lemma StructIdle(m: Mem, n: Mem, owed: multiset<nat>, base: nat, w: nat)
    requires m.idle == {} && Inv(m, owed) && Inv(n, owed) && n.doomed == {} && Dealt(m, n, owed, {}, base, w)
    ensures Ended(m, n, owed, base, w) && ReachedStay(Apart(m, base, w), n)
  {
    var gone := Pointers(m.cells, base, w);
    assert m.idle + gone == gone;
    SurvivorsExactly(Apart(m, base, w), n, owed);
    SettledUntouched(m, n, gone);
    ReachedSurvive(Apart(m, base, w), n, owed);
    forall p | p in Area(base, w) && p in m.cells
      ensures p in n.cells && (m.cells[p].Plain? ==> n.cells[p] == Plain)
    {
      assert p.Local?;
      assert m.cells[p].Plain? ==> n.cells[p] == Fade(n, m.cells[p]);
    }
  }

  /** The destructor of a struct in use, as it leaves the cells. */
  method EndStruct(rt: Runtime, fields: seq<Shape>, base: nat)
    requires Steady(rt) && Fits(rt.cells, fields, base)
    modifies rt
    ensures rt.Valid() && OnlyLocalsIdle(rt) && rt.owed == old(rt.owed)
    ensures Ended(old(rt.View()), rt.View(), rt.owed, base, Width(fields))
    ensures ReachedStay(Apart(old(rt.View()), base, Width(fields)), rt.View())
  {
    ghost var m := rt.View();
    DestroyStruct(rt, fields, base, {});
    StructIdle(m, rt.View(), old(rt.owed), base, Width(fields));
  }

  method EndArray(rt: Runtime, at: nat, n: nat)
    requires Steady(rt) && FieldFits(rt.cells, ArrayField(n), at)
    modifies rt
    ensures rt.Valid() && OnlyLocalsIdle(rt) && rt.owed == old(rt.owed)
    ensures Ended(old(rt.View()), rt.View(), rt.owed, at, n) && ReachedStay(Apart(old(rt.View()), at, n), rt.View())
  {
    ghost var m := rt.View();
    DestroyArray(rt, at, n, {});
    StructIdle(m, rt.View(), old(rt.owed), at, n);
  }

  lemma AreaLeft(m: Mem, d: Mem, n: Mem, owed: multiset<nat>, base: nat, w: nat)
    requires Inv(d, owed) && d.doomed == {} && Ended(m, d, owed, base, w) && ReachedStay(Apart(m, base, w), d)
    requires forall p :: p in d.idle ==> p in Area(base, w)
    requires n == d.(cells := d.cells - Area(base, w), idle := {})
    ensures Inv(n, owed) && Anchored(n) && Survivors(Apart(m, base, w), n, owed) && Untouched(m, n, Area(base, w))
    ensures ReachedStay(Apart(m, base, w), n)
  {
    assert Live(n) == Live(d);
    AreaDropped(d, owed, Area(base, w));
  }

  /** ac_scope_leave_struct_callback; exactly what others hold up stays, and so does what they reach. */
  method LeaveStruct(rt: Runtime, fields: seq<Shape>, base: nat)
    requires Steady(rt) && Fits(rt.cells, fields, base)
    modifies rt
    ensures Steady(rt) && rt.owed == old(rt.owed) && rt.pinned == old(rt.pinned)
    ensures rt.cells.Keys !! Area(base, Width(fields))
    ensures Survivors(Apart(old(rt.View()), base, Width(fields)), rt.View(), rt.owed)
    ensures Untouched(old(rt.View()), rt.View(), Area(base, Width(fields)))
    ensures ReachedStay(Apart(old(rt.View()), base, Width(fields)), rt.View())
  {
    ghost var m := rt.View();
    EndStruct(rt, fields, base);
    ghost var d := rt.View();
    rt.cells := rt.cells - Area(base, Width(fields));
    rt.idle := {};
    AreaLeft(m, d, rt.View(), rt.owed, base, Width(fields));
  }

  /** ac_scope_leave_array_callback: the elements are counted down one after the other. */
  method LeaveArray(rt: Runtime, at: nat, n: nat)
    requires Steady(rt) && FieldFits(rt.cells, ArrayField(n), at)
    modifies rt
    ensures Steady(rt) && rt.owed == old(rt.owed) && rt.pinned == old(rt.pinned) && rt.cells.Keys !! Area(at, n)
    ensures Survivors(Apart(old(rt.View()), at, n), rt.View(), rt.owed)
    ensures Untouched(old(rt.View()), rt.View(), Area(at, n))
    ensures ReachedStay(Apart(old(rt.View()), at, n), rt.View())
  {
    ghost var m := rt.View();
    EndArray(rt, at, n);
    ghost var d := rt.View();
    rt.cells := rt.cells - Area(at, n);
    rt.idle := {};
    AreaLeft(m, d, rt.View(), rt.owed, at, n);
  }

  // ---------------------------------------------------------------- assignment

  /** The bits of a struct value, as they are loaded before the assignment. */
  predicate Bits(cells: map<Place, Content>, base: nat, bits: seq<Content>) {
    forall p :: p in Area(base, |bits|) ==> p in cells && SameKind(bits[p.k - base], cells[p])
  }

  /** Every pointer that the copy constructor is going to look at points to allocated memory. */
  predicate Survive(objs: map<nat, Header>, fields: seq<Shape>, base: nat, bits: seq<Content>) {
    forall p :: p in Area(base, |bits|) - ArrayCells(fields, base) && !bits[p.k - base].Plain? ==>
      Points(objs, bits[p.k - base].ptr)
  }

  /** The area overwritten bit by bit. */
  function Written(cells: map<Place, Content>, base: nat, bits: seq<Content>): (now: map<Place, Content>)
    ensures now.Keys == cells.Keys
  {
    map p | p in cells :: if p in Area(base, |bits|) then bits[p.k - base] else cells[p]
  }

  lemma WrittenIdle(m: Mem, owed: multiset<nat>, base: nat, bits: seq<Content>)
    requires Inv(m, owed) && m.doomed == {} && Bits(m.cells, base, bits) && forall p :: p in m.idle ==> p.Local?
    requires forall p :: p in Area(base, |bits|) ==> p in m.idle || m.cells[p].Plain?
    ensures var n := m.(cells := Written(m.cells, base, bits)); Inv(n, owed) && Anchored(n)
  {
    var n := m.(cells := Written(m.cells, base, bits));
    assert Live(n) == Live(m);
    forall p | p in n.cells && p !in n.idle ensures n.cells[p] == m.cells[p] {}
    forall o | o in Live(n)
      ensures n.objs[o].memcount == |Holders(n.cells, n.idle, o)| + owed[o]
      ensures Registry(n.objs[o], n.cells, n.idle, o)
    {
      Accounted(m, owed, o);
      assert Holders(n.cells, n.idle, o) == Holders(m.cells, m.idle, o);
      assert WeakHolders(n.cells, n.idle, o) == WeakHolders(m.cells, m.idle, o);
    }
  }

  /** Everything that the copy constructor is going to look at is held up. */
  ghost predicate BitsSustained(m: Mem, owed: multiset<nat>, fields: seq<Shape>, base: nat, bits: seq<Content>) {
    forall p :: p in Area(base, |bits|) - ArrayCells(fields, base) && !bits[p.k - base].Plain? ==>
      bits[p.k - base].ptr.At? ==> Sustained(m, owed, bits[p.k - base].ptr.obj)
  }

  lemma SurviveExactly(m: Mem, n: Mem, owed: multiset<nat>, fields: seq<Shape>, base: nat, bits: seq<Content>)
    requires Survivors(m, n, owed)
    ensures Survive(n.objs, fields, base, bits) <==> BitsSustained(m, owed, fields, base, bits)
  {
  }

  /** The bits point to `o`, from a place the copy constructor looks at. */
  ghost predicate PointsInto(fields: seq<Shape>, base: nat, bits: seq<Content>, o: nat) {
    exists p :: p in Area(base, |bits|) - ArrayCells(fields, base) && !bits[p.k - base].Plain? &&
      bits[p.k - base].ptr == At(o)
  }

  /** The area holds the last reference to something that the bits point to. */
  ghost predicate OwnsLast(m: Mem, fields: seq<Shape>, base: nat, bits: seq<Content>) {
    exists p :: p in Pointers(m.cells, base, |bits|) && m.cells[p].Strong? && m.cells[p].ptr.At? &&
      m.cells[p].ptr.obj in m.objs && m.objs[m.cells[p].ptr.obj].memcount <= 1 &&
      PointsInto(fields, base, bits, m.cells[p].ptr.obj)
  }

  lemma LastOnesGone(m: Mem, n: Mem, owed: multiset<nat>, fields: seq<Shape>, base: nat, bits: seq<Content>)
    requires Dealt(m, n, owed, {}, base, |bits|) && OwnsLast(m, fields, base, bits)
    ensures !Survive(n.objs, fields, base, bits)
  {
    var p :| p in Pointers(m.cells, base, |bits|) && m.cells[p].Strong? && m.cells[p].ptr.At? &&
      m.cells[p].ptr.obj in m.objs && m.objs[m.cells[p].ptr.obj].memcount <= 1 &&
      PointsInto(fields, base, bits, m.cells[p].ptr.obj);
    assert LastHeld(m, n, p);
  }

  /** The struct arm of ac_safe_store up to the store: destroy the old value, look whether the new one survived. */
  method DestroyOld(rt: Runtime, fields: seq<Shape>, base: nat, bits: seq<Content>) returns (ok: bool)
    requires Steady(rt) && Fits(rt.cells, fields, base) && |bits| == Width(fields) && Bits(rt.cells, base, bits)
    modifies rt
    ensures rt.Valid() && OnlyLocalsIdle(rt) && rt.owed == old(rt.owed)
    ensures Ended(old(rt.View()), rt.View(), rt.owed, base, |bits|) && Fits(rt.cells, fields, base)
    ensures ReachedStay(Apart(old(rt.View()), base, |bits|), rt.View())
    ensures Bits(rt.cells, base, bits) && ok == Survive(rt.objs, fields, base, bits)
    ensures OthersKept(old(rt.View()), rt.View(), Area(base, |bits|))
    ensures rt.idle == Pointers(rt.cells, base, |bits|)
    ensures ok <==> BitsSustained(Apart(old(rt.View()), base, |bits|), rt.owed, fields, base, bits)
    ensures OwnsLast(old(rt.View()), fields, base, bits) ==> !ok
  {
    ghost var m := rt.View();
    DestroyStruct(rt, fields, base, {});
    StructIdle(m, rt.View(), old(rt.owed), base, |bits|);
    StillBits(m, rt.View(), old(rt.owed), fields, base, bits);
    PointersSame(m, rt.View(), base, |bits|);
    if OwnsLast(m, fields, base, bits) {
      LastOnesGone(m, rt.View(), old(rt.owed), fields, base, bits);
    }
    SurviveExactly(Apart(m, base, |bits|), rt.View(), rt.owed, fields, base, bits);
    ok := Survive(rt.objs, fields, base, bits);
  }

  /** Outside the area, every cell that is left is as it was, but for weak pointers to what went away. */
  ghost predicate OthersKept(m: Mem, n: Mem, area: set<Place>) {
    n.cells.Keys <= m.cells.Keys && (forall q :: q in m.cells && q.Local? ==> q in n.cells) &&
    forall q :: q in n.cells && q !in area ==> n.cells[q] == Fade(n, m.cells[q])
  }

  lemma StillBits(m: Mem, n: Mem, owed: multiset<nat>, fields: seq<Shape>, base: nat, bits: seq<Content>)
    requires m.idle == {} && |bits| == Width(fields) && Dealt(m, n, owed, {}, base, |bits|)
    requires Fits(m.cells, fields, base) && Bits(m.cells, base, bits)
    ensures Fits(n.cells, fields, base) && Bits(n.cells, base, bits) && OthersKept(m, n, Area(base, |bits|))
    ensures forall p :: p in Area(base, |bits|) && p in m.cells ==> p in n.cells && SameKind(m.cells[p], n.cells[p])
  {
    forall p | p in Area(base, |bits|) && p in m.cells
      ensures p in n.cells && SameKind(m.cells[p], n.cells[p])
    {
      assert p.Local?;
    }
    FitsKept(m.cells, n.cells, fields, base);
  }

  /** The store and the copy constructor: each pointer takes its reference, array elements excepted. */
  method StoreBits(rt: Runtime, fields: seq<Shape>, base: nat, bits: seq<Content>)
    requires rt.Valid() && OnlyLocalsIdle(rt) && Fits(rt.cells, fields, base) && |bits| == Width(fields)
    requires Bits(rt.cells, base, bits) && rt.idle == Pointers(rt.cells, base, |bits|)
    requires Survive(rt.objs, fields, base, bits)
    modifies rt`objs, rt`cells, rt`owed, rt`idle
    ensures rt.Valid() && OnlyLocalsIdle(rt) && rt.owed == old(rt.owed) && rt.idle == ArrayCells(fields, base)
    ensures rt.cells == Written(old(rt.cells), base, bits) && rt.objs.Keys == old(rt.objs).Keys
  {
    ghost var m := rt.View();
    rt.cells := Written(rt.cells, base, bits);
    WrittenIdle(m, rt.owed, base, bits);
    WrittenFits(m.cells, m.idle, m.objs, fields, base, bits);
    CopyConstruct(rt, fields, base);
  }

  lemma WrittenFits(cells: map<Place, Content>, idle: set<Place>, objs: map<nat, Header>, fields: seq<Shape>,
                    base: nat, bits: seq<Content>)
    requires Fits(cells, fields, base) && |bits| == Width(fields) && Bits(cells, base, bits)
    requires idle == Pointers(cells, base, |bits|) && Survive(objs, fields, base, bits)
    ensures var now := Written(cells, base, bits);
      Fits(now, fields, base) && Copied(now, fields, base) <= idle &&
      idle - Copied(now, fields, base) == ArrayCells(fields, base) &&
      forall p :: p in Copied(now, fields, base) ==> Points(objs, now[p].ptr)
  {
    var now := Written(cells, base, bits);
    FitsKept(cells, now, fields, base);
    assert Pointers(now, base, |bits|) == Pointers(cells, base, |bits|);
    ArraysInside(now, fields, base);
  }

  /**
   * Assignment of a struct value that no temporary owns. The old value is destroyed first: the copy constructor can do
   * its work exactly if every object that the new bits point to is held up without the old value, and then all is
   * accounted for but the elements of arrays. An object whose last reference the old value held never survives, so
   * assigning a struct that holds the last reference to itself fails.
   */
  method AssignStruct(rt: Runtime, fields: seq<Shape>, base: nat, bits: seq<Content>) returns (ok: bool)
    requires Steady(rt) && Fits(rt.cells, fields, base) && |bits| == Width(fields) && Bits(rt.cells, base, bits)
    modifies rt
    ensures rt.Valid() && OnlyLocalsIdle(rt) && rt.owed == old(rt.owed) && rt.pinned == old(rt.pinned)
    ensures ok <==> BitsSustained(Apart(old(rt.View()), base, |bits|), rt.owed, fields, base, bits)
    ensures ok <==> Survive(rt.objs, fields, base, bits)
    ensures rt.idle == if ok then ArrayCells(fields, base) else Pointers(old(rt.cells), base, |bits|)
    ensures ok ==> forall p :: p in Area(base, |bits|) ==> p in rt.cells && rt.cells[p] == bits[p.k - base]
    ensures OthersKept(old(rt.View()), rt.View(), Area(base, |bits|))
    ensures Untouched(old(rt.View()), rt.View(), Area(base, |bits|))
    ensures Survivors(Apart(old(rt.View()), base, |bits|), rt.View(), rt.owed)
    ensures ReachedStay(Apart(old(rt.View()), base, |bits|), rt.View())
    ensures OwnsLast(old(rt.View()), fields, base, bits) ==> !ok
  {
    ghost var m := rt.View();
    ok := DestroyOld(rt, fields, base, bits);
    if ok {
      ghost var n := rt.View();
      StoreBits(rt, fields, base, bits);
      OthersStill(m, n, rt.View(), rt.owed, fields, base, bits);
    }
  }

  /** A struct that holds the last reference to an object. */
  ghost function LastHolder(): Mem {
    Mem(map[0 := Header(1, 0, 0, [], false, 0)], map[Local(0) := Strong(At(0))], {}, {}, multiset{})
  }

  /** Such a struct cannot be assigned to itself. */
  lemma SelfAssignmentFails()
    ensures var m, bits := LastHolder(), [Strong(At(0))];
      Inv(m, multiset{}) && Anchored(m) && Fits(m.cells, [CountedField], 0) && Bits(m.cells, 0, bits) &&
      OwnsLast(m, [CountedField], 0, bits) && !BitsSustained(Apart(m, 0, 1), multiset{}, [CountedField], 0, bits)
  {
    var m, bits := LastHolder(), [Strong(At(0))];
    assert Holders(m.cells, m.idle, 0) == {Local(0)} && WeakHolders(m.cells, m.idle, 0) == {};
    assert Entries(m.objs[0]) == [] && Local(0) in Area(0, 1) && PointsInto([CountedField], 0, bits, 0);
    NotSustained(Apart(m, 0, 1), multiset{}, 0);
    assert bits[Local(0).k].ptr.obj == 0;
  }

  /** A struct that holds the last reference to an object which in turn holds the last reference to another one. */
  ghost function LastOwner(): Mem {
    Mem(map[0 := Header(1, 0, 0, [], true, 1), 1 := Header(1, 0, 0, [], false, 0)],
        map[Local(0) := Strong(At(0)), Field(0, 0) := Strong(At(1))], {}, {}, multiset{})
  }

  /** Nor can it take over that other one, although it does not hold it itself. */
  lemma FieldAssignmentFails()
    ensures var m, bits := LastOwner(), [Strong(At(1))];
      Inv(m, multiset{}) && Anchored(m) && Fits(m.cells, [CountedField], 0) && Bits(m.cells, 0, bits) &&
      !OwnsLast(m, [CountedField], 0, bits) && !BitsSustained(Apart(m, 0, 1), multiset{}, [CountedField], 0, bits)
  {
    var m, bits := LastOwner(), [Strong(At(1))];
    LastOwnerAccounted();
    assert Local(0) in Area(0, 1);
    NotSustained(Apart(m, 0, 1), multiset{}, 0);
    NotSustained(Apart(m, 0, 1), multiset{}, 1);
    assert bits[Local(0).k].ptr.obj == 1;
  }

  lemma LastOwnerAccounted()
    ensures Inv(LastOwner(), multiset{}) && Anchored(LastOwner())
  {
    var m := LastOwner();
    assert Holders(m.cells, m.idle, 0) == {Local(0)} && WeakHolders(m.cells, m.idle, 0) == {};
    assert Holders(m.cells, m.idle, 1) == {Field(0, 0)} && WeakHolders(m.cells, m.idle, 1) == {};
    assert Entries(m.objs[0]) == [] && Entries(m.objs[1]) == [];
  }

  lemma PointersSame(m: Mem, n: Mem, base: nat, w: nat)
    requires n.idle == Pointers(m.cells, base, w) && n.cells.Keys <= m.cells.Keys
    requires forall p :: p in Area(base, w) && p in m.cells ==> p in n.cells && SameKind(m.cells[p], n.cells[p])
    ensures n.idle == Pointers(n.cells, base, w)
  {
  }

  lemma OthersStill(m: Mem, n: Mem, r: Mem, owed: multiset<nat>, fields: seq<Shape>, base: nat, bits: seq<Content>)
    requires OthersKept(m, n, Area(base, |bits|)) && Untouched(m, n, Area(base, |bits|))
    requires r.cells == Written(n.cells, base, bits)
    requires r.objs.Keys == n.objs.Keys && r.doomed == n.doomed && Survive(n.objs, fields, base, bits)
    requires Survivors(Apart(m, base, |bits|), n, owed) && ReachedStay(Apart(m, base, |bits|), n)
    ensures OthersKept(m, r, Area(base, |bits|)) && Untouched(m, r, Area(base, |bits|))
    ensures Survive(r.objs, fields, base, bits)
    ensures Survivors(Apart(m, base, |bits|), r, owed) && ReachedStay(Apart(m, base, |bits|), r)
    ensures forall p :: p in Area(base, |bits|) && p in n.cells ==> r.cells[p] == bits[p.k - base]
  {
    assert Live(r) == Live(n);
  }
}
