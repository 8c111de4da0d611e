/** Struct values in local storage: the generated copy constructor and destructor (ac_struct.c). */
module CountedStructs {
  import opened CountedMemory
  import opened CountedSteps
  import opened CountedReach
  import opened CountedRuntime
  import opened CountedStores

  /** The type of a field; an array is one of counted pointers, with its dimensions multiplied out. */
  datatype Shape = CountedField | WeakField | DataField | StructField(fields: seq<Shape>) | ArrayField(n: nat)

  function FieldWidth(f: Shape): nat {
    match f
    case StructField(inner) => Width(inner)
    case ArrayField(n) => n
    case _ => 1
  }

  function Width(fields: seq<Shape>): nat {
    if fields == [] then 0 else FieldWidth(fields[0]) + Width(fields[1..])
  }

  /** ty_needs_destructor: some field is counted or weak, here or in a nested struct or array. */
  predicate NeedsDestructor(fields: seq<Shape>) {
    fields != [] && (FieldNeeds(fields[0]) || NeedsDestructor(fields[1..]))
  }

  predicate FieldNeeds(f: Shape) {
    match f
    case CountedField => true
    case WeakField => true
    case DataField => false
    case StructField(inner) => NeedsDestructor(inner)
    case ArrayField(n) => n > 0
  }

  /** The cells from `base` on have the kinds that the fields declare. */
  predicate Fits(cells: map<Place, Content>, fields: seq<Shape>, base: nat) {
    fields == [] || (FieldFits(cells, fields[0], base) && Fits(cells, fields[1..], base + FieldWidth(fields[0])))
  }

  predicate FieldFits(cells: map<Place, Content>, f: Shape, at: nat) {
    match f
    case CountedField => Local(at) in cells && cells[Local(at)].Strong?
    case WeakField => Local(at) in cells && cells[Local(at)].Weak?
    case DataField => Local(at) in cells && cells[Local(at)].Plain?
    case StructField(inner) => Fits(cells, inner, at)
    case ArrayField(n) => forall k :: at <= k < at + n ==> Local(k) in cells && cells[Local(k)].Strong?
  }

  function Area(base: nat, n: nat): set<Place> {
    set k | base <= k < base + n :: Local(k)
  }

  /** The pointer cells of an area. */
  function Pointers(cells: map<Place, Content>, base: nat, n: nat): set<Place> {
    set p | p in Area(base, n) && p in cells && !cells[p].Plain?
  }

  /** The cells of the arrays in a struct. */
  function ArrayCells(fields: seq<Shape>, base: nat): set<Place> {
    if fields == [] then {}
    else FieldArrays(fields[0], base) + ArrayCells(fields[1..], base + FieldWidth(fields[0]))
  }

  function FieldArrays(f: Shape, at: nat): set<Place> {
    match f
    case StructField(inner) => ArrayCells(inner, at)
    case ArrayField(n) => Area(at, n)
    case _ => {}
  }

  /** A struct that needs no destructor has nothing but data in it, so skipping its destructor changes nothing. */
  lemma {:induction false} PlainStruct(cells: map<Place, Content>, fields: seq<Shape>, base: nat)
    requires Fits(cells, fields, base)
    ensures !NeedsDestructor(fields) <==> Pointers(cells, base, Width(fields)) == {}
    decreases fields, 0
  {
    if fields == [] {
    } else {
      var w := FieldWidth(fields[0]);
      PlainField(cells, fields[0], base);
      PlainStruct(cells, fields[1..], base + w);
      SplitArea(cells, base, w, Width(fields[1..]));
    }
  }

  lemma {:induction false} PlainField(cells: map<Place, Content>, f: Shape, at: nat)
    requires FieldFits(cells, f, at)
    ensures !FieldNeeds(f) <==> Pointers(cells, at, FieldWidth(f)) == {}
    ensures f.CountedField? || f.WeakField? ==> Pointers(cells, at, FieldWidth(f)) == {Local(at)}
    ensures f.ArrayField? ==> Pointers(cells, at, FieldWidth(f)) == Area(at, f.n)
    decreases f, 1
  {
    if f.StructField? {
      PlainStruct(cells, f.fields, at);
    } else if f.ArrayField? {
      assert f.n > 0 ==> Local(at) in Pointers(cells, at, f.n);
    } else {
      assert forall p :: p in Area(at, 1) <==> p == Local(at);
      assert !f.DataField? ==> Local(at) in Pointers(cells, at, 1);
    }
  }

  lemma SplitArea(cells: map<Place, Content>, base: nat, v: nat, w: nat)
    ensures Area(base, v + w) == Area(base, v) + Area(base + v, w) && Area(base, v) !! Area(base + v, w)
    ensures Pointers(cells, base, v + w) == Pointers(cells, base, v) + Pointers(cells, base + v, w)
    ensures Pointers(cells, base, v) !! Pointers(cells, base + v, w)
  {
  }

  lemma {:induction false} ArraysInside(cells: map<Place, Content>, fields: seq<Shape>, base: nat)
    requires Fits(cells, fields, base)
    ensures ArrayCells(fields, base) <= Pointers(cells, base, Width(fields))
    decreases fields, 0
  {
    if fields != [] {
      FieldArraysInside(cells, fields[0], base);
      ArraysInside(cells, fields[1..], base + FieldWidth(fields[0]));
      SplitArea(cells, base, FieldWidth(fields[0]), Width(fields[1..]));
    }
  }

  lemma {:induction false} FieldArraysInside(cells: map<Place, Content>, f: Shape, at: nat)
    requires FieldFits(cells, f, at)
    ensures FieldArrays(f, at) <= Pointers(cells, at, FieldWidth(f))
    decreases f, 1
  {
    PlainField(cells, f, at);
    if f.StructField? {
      ArraysInside(cells, f.fields, at);
    }
  }

  /** Cells of the same kinds fit the same fields. */
  lemma {:induction false} FitsKept(cells: map<Place, Content>, now: map<Place, Content>, fields: seq<Shape>, base: nat)
    requires Fits(cells, fields, base)
    requires forall p :: p in Area(base, Width(fields)) && p in cells ==> p in now && SameKind(cells[p], now[p])
    ensures Fits(now, fields, base)
    decreases fields, 0
  {
    if fields != [] {
      var w := FieldWidth(fields[0]);
      SplitArea(cells, base, w, Width(fields[1..]));
      FieldFitsKept(cells, now, fields[0], base);
      FitsKept(cells, now, fields[1..], base + w);
    }
  }

  lemma {:induction false} FieldFitsKept(cells: map<Place, Content>, now: map<Place, Content>, f: Shape, at: nat)
    requires FieldFits(cells, f, at)
    requires forall p :: p in Area(at, FieldWidth(f)) && p in cells ==> p in now && SameKind(cells[p], now[p])
    ensures FieldFits(now, f, at)
    decreases f, 1
  {
    match f {
      case StructField(inner) => FitsKept(cells, now, inner, at);
      case ArrayField(n) =>
        forall k | at <= k < at + n ensures Local(k) in now && now[Local(k)].Strong? {
          assert Local(k) in Area(at, n);
        }
      case _ => assert Local(at) in Area(at, 1);
    }
  }

  // ---------------------------------------------------------------- one pointer cell

  ghost predicate OnlyLocalsIdle(rt: Runtime)
    reads rt
  {
    rt.doomed == {} && forall p :: p in rt.idle ==> p.Local?
  }

  /** The copy constructor on one pointer cell that was copied bit by bit: take the reference. */
  method TakeUp(rt: Runtime, p: Place)
    requires rt.Valid() && OnlyLocalsIdle(rt) && p in rt.idle && p.Local? && !rt.cells[p].Plain?
    requires Points(rt.objs, rt.cells[p].ptr)
    modifies rt`objs, rt`owed, rt`idle
    ensures rt.Valid() && rt.owed == old(rt.owed) && rt.idle == old(rt.idle) - {p} && rt.objs.Keys == old(rt.objs).Keys
  {
    if rt.cells[p].Strong? {
      TakeUpStrong(rt, p, rt.cells[p].ptr);
    } else {
      TakeUpWeak(rt, p, rt.cells[p].ptr);
    }
  }

  method TakeUpStrong(rt: Runtime, p: Place, ptr: Ptr)
    requires rt.Valid() && OnlyLocalsIdle(rt) && p in rt.idle && p.Local? && rt.cells[p] == Strong(ptr)
    requires Points(rt.objs, ptr)
    modifies rt`objs, rt`owed, rt`idle
    ensures rt.Valid() && rt.owed == old(rt.owed) && rt.idle == old(rt.idle) - {p} && rt.objs.Keys == old(rt.objs).Keys
  {
    NowSpare(rt.View(), rt.owed, ptr);
    IncrPtr(rt, ptr);
    TakeOwed(rt, p, ptr);
    PaidBack(old(rt.owed), RefsIn(ptr));
  }

  ghost method TakeOwed(rt: Runtime, p: Place, ptr: Ptr)
    requires rt.Valid() && OnlyLocalsIdle(rt) && p in rt.idle && p.Local? && rt.cells[p] == Strong(ptr)
    requires ptr.At? ==> rt.owed[ptr.obj] > rt.pinned[ptr.obj]
    modifies rt`owed, rt`idle
    ensures rt.Valid() && rt.owed == old(rt.owed) - RefsIn(ptr) && rt.idle == old(rt.idle) - {p}
  {
    TakenStrong(rt.View(), rt.owed, p, ptr);
    rt.idle := rt.idle - {p};
    rt.owed := rt.owed - RefsIn(ptr);
  }

  method TakeUpWeak(rt: Runtime, p: Place, ptr: Ptr)
    requires rt.Valid() && OnlyLocalsIdle(rt) && p in rt.idle && p.Local? && rt.cells[p] == Weak(ptr)
    requires Points(rt.objs, ptr)
    modifies rt`objs, rt`idle
    ensures rt.Valid() && rt.idle == old(rt.idle) - {p} && rt.objs.Keys == old(rt.objs).Keys
  {
    ghost var m := rt.View();
    TargetListed(m, rt.owed, ptr);
    rt.AddWeak(ptr, p);
    rt.idle := rt.idle - {p};
    TakenWeak(m, rt.owed, p, ptr, rt.View());
  }

  lemma TakenStrong(m: Mem, owed: multiset<nat>, p: Place, ptr: Ptr)
    requires Inv(m, owed) && p in m.idle && p.Local? && m.cells[p] == Strong(ptr)
    requires m.doomed == {} && (forall q :: q in m.idle ==> q.Local?)
    requires ptr.At? ==> owed[ptr.obj] > m.pinned[ptr.obj]
    ensures var n := m.(idle := m.idle - {p}); Inv(n, owed - RefsIn(ptr)) && Anchored(n)
  {
    var n := m.(idle := m.idle - {p});
    assert m.cells[p := Strong(ptr)] == m.cells;
    if ptr.At? {
      FillStrong(m, owed, p, ptr.obj);
    } else {
      FillEmpty(m, owed, p, Strong(ptr));
      assert owed - RefsIn(ptr) == owed;
    }
  }

  lemma TakenWeak(m: Mem, owed: multiset<nat>, p: Place, ptr: Ptr, n: Mem)
    requires Inv(m, owed) && p in m.idle && p.Local? && m.cells[p] == Weak(ptr)
    requires m.doomed == {} && (forall q :: q in m.idle ==> q.Local?) && Points(m.objs, ptr)
    requires ptr.At? ==> Roomy(m.objs[ptr.obj])
    requires n == m.(idle := m.idle - {p}, objs := Linked(m.objs, p, ptr))
    ensures Inv(n, owed) && Anchored(n)
  {
    assert m.cells[p := Weak(ptr)] == m.cells;
    if ptr.At? {
      Enlisted(m, owed, p, ptr.obj, n.objs[ptr.obj]);
    } else {
      FillEmpty(m, owed, p, Weak(ptr));
    }
  }

  // ---------------------------------------------------------------- what a destructor does to the memory

  /** An object whose only reference was in `p` is gone. */
  ghost predicate LastHeld(m: Mem, n: Mem, p: Place) {
    p in m.cells && m.cells[p].Strong? && m.cells[p].ptr.At? && m.cells[p].ptr.obj in m.objs &&
    m.objs[m.cells[p].ptr.obj].memcount <= 1 ==>
      m.cells[p].ptr.obj !in n.objs
  }

  /** The cells `gone` gave their references up, with all that hung on them and nothing else. */
  ghost predicate Released(m: Mem, n: Mem, gone: set<Place>) {
    Settled(m.(idle := m.idle + gone), n) && forall p {:trigger LastHeld(m, n, p)} :: p in gone ==> LastHeld(m, n, p)
  }

  lemma ReleasedNone(m: Mem)
    requires Layout(m) && Sound(m)
    ensures Released(m, m, {})
  {
    assert m.idle + {} == m.idle;
    SettledSelf(m);
  }

  lemma ReleasedOne(m: Mem, n: Mem, p: Place)
    requires Settled(Idled(m, p), n) && LastHeld(m, n, p)
    ensures Released(m, n, {p})
  {
    assert m.(idle := m.idle + {p}) == Idled(m, p);
  }

  /** Idling the same cells before and after. */
  lemma SettledIdleAll(a: Mem, b: Mem, s: set<Place>)
    requires Settled(a, b) && s <= b.cells.Keys
    ensures Settled(a.(idle := a.idle + s), b.(idle := b.idle + s))
  {
  }

  /** An object with no more than one reference, which is in `q`, goes with it at the latest. */
  lemma LastHeldLater(a: Mem, b: Mem, c: Mem, p: set<Place>, q: Place)
    requires Released(a, b, p) && b.doomed == {} && LastHeld(b, c, q) && c.objs.Keys <= b.objs.Keys
    requires q in a.cells && q.Local? && q !in a.idle && q !in p
    ensures LastHeld(a, c, q)
  {
    assert q in b.cells && b.cells[q] == Fade(b, a.cells[q]);
  }

  lemma ReleasedBoth(a: Mem, b: Mem, c: Mem, p: set<Place>, q: set<Place>)
    requires Released(a, b, p) && Released(b, c, q) && b.doomed == {}
    requires forall x :: x in q ==> x in a.cells && x.Local? && x !in a.idle && x !in p
    ensures Released(a, c, p + q)
  {
    SettledIdleAll(a.(idle := a.idle + p), b, q);
    assert a.idle + p + q == a.idle + (p + q);
    SettledTrans(a.(idle := a.idle + (p + q)), b.(idle := b.idle + q), c);
    forall x | x in p + q ensures LastHeld(a, c, x) {
      if x in q {
        assert LastHeld(b, c, x);
        LastHeldLater(a, b, c, p, x);
      } else {
        assert LastHeld(a, b, x);
      }
    }
  }

  // ---------------------------------------------------------------- objects that are held elsewhere

  /** References to `t` that do not come from the area. */
  function Elsewhere(cells: map<Place, Content>, idle: set<Place>, owed: multiset<nat>, area: set<Place>, t: nat): nat {
    |Holders(cells, idle, t) - area| + owed[t]
  }

  /** Every object the area points to is also referenced from elsewhere. */
  ghost predicate Backed(m: Mem, owed: multiset<nat>, area: set<Place>) {
    forall p :: p in area && p in m.cells && m.cells[p].Strong? && m.cells[p].ptr.At? ==>
      m.cells[p].ptr.obj in m.objs && Elsewhere(m.cells, m.idle, owed, area, m.cells[p].ptr.obj) > 0
  }

  /** Where everything is backed, giving up some cells of the area frees nothing and changes no cell. */
  ghost predicate Kept(m: Mem, n: Mem, owed: multiset<nat>, area: set<Place>, gone: set<Place>) {
    Backed(m, owed, area) && gone <= area ==>
      n.cells == m.cells && n.objs.Keys == m.objs.Keys && n.idle == m.idle + gone && Backed(n, owed, area)
  }

  lemma KeptBoth(a: Mem, b: Mem, c: Mem, owed: multiset<nat>, area: set<Place>, p: set<Place>, q: set<Place>)
    requires Kept(a, b, owed, area, p) && Kept(b, c, owed, area, q)
    ensures Kept(a, c, owed, area, p + q)
  {
  }

  /** The cell in the area and the reference elsewhere make at least two. */
  lemma SharedTarget(m: Mem, owed: multiset<nat>, p: Place, area: set<Place>)
    requires Inv(m, owed) && m.doomed == {} && InUse(m, p) && p in area && Backed(m, owed, area)
    ensures m.cells[p].Strong? && m.cells[p].ptr.At? ==>
      m.cells[p].ptr.obj in m.objs && m.objs[m.cells[p].ptr.obj].memcount > 1
  {
    if m.cells[p].Strong? && m.cells[p].ptr.At? {
      var o := m.cells[p].ptr.obj;
      var h := Holders(m.cells, m.idle, o);
      Accounted(m, owed, o);
      assert p in h && h - area <= h - {p};
      CardinalityLess(h - area, h - {p});
    }
  }

  lemma {:induction false} CardinalityLess<T>(a: set<T>, b: set<T>)
    requires a <= b
    ensures |a| <= |b|
  {
    assert b == a + (b - a);
  }

  /** Which cells of the area are in use makes no difference. */
  lemma StillBacked(m: Mem, n: Mem, owed: multiset<nat>, area: set<Place>)
    requires Backed(m, owed, area) && n.cells == m.cells && n.objs.Keys == m.objs.Keys
    requires m.idle - area == n.idle - area
    ensures Backed(n, owed, area)
  {
    forall p | p in area && p in n.cells && n.cells[p].Strong? && n.cells[p].ptr.At?
      ensures n.cells[p].ptr.obj in n.objs && Elsewhere(n.cells, n.idle, owed, area, n.cells[p].ptr.obj) > 0
    {
      SameElsewhere(m, n, area, n.cells[p].ptr.obj);
    }
  }

  lemma SameElsewhere(m: Mem, n: Mem, area: set<Place>, t: nat)
    requires n.cells == m.cells && m.idle - area == n.idle - area
    ensures Holders(n.cells, n.idle, t) - area == Holders(m.cells, m.idle, t) - area
  {
    var a, b := Holders(m.cells, m.idle, t) - area, Holders(n.cells, n.idle, t) - area;
    forall p ensures p in a <==> p in b {
      assert p in m.idle - area <==> p in n.idle - area;
    }
  }

  // ---------------------------------------------------------------- destroying one pointer cell

  /** The destructor on one pointer cell: the cascade frees what hangs on it alone. */
  method DestroyPointer(rt: Runtime, p: Place, ghost area: set<Place>)
    requires rt.Valid() && OnlyLocalsIdle(rt) && InUse(rt.View(), p) && p.Local? && !rt.cells[p].Plain?
    modifies rt
    ensures rt.Valid() && OnlyLocalsIdle(rt) && rt.owed == old(rt.owed)
    ensures GivenBack(old(rt.View()), rt.View(), rt.owed, area, {p})
  {
    if rt.cells[p].Strong? {
      DestroyStrong(rt, p, rt.cells[p].ptr, area);
    } else {
      ghost var m := rt.View();
      rt.RemoveWeak(p);
      ReleasedOne(m, rt.View(), p);
      WeakKept(m, rt.View(), rt.owed, p, area);
      UnlistedUpholds(Idled(m, p), rt.View(), rt.owed);
    }
  }

  lemma WeakKept(m: Mem, n: Mem, owed: multiset<nat>, p: Place, area: set<Place>)
    requires n.cells == m.cells && n.idle == m.idle + {p} && n.objs.Keys == m.objs.Keys
    ensures Kept(m, n, owed, area, {p})
  {
    if Backed(m, owed, area) && p in area {
      StillBacked(m, n, owed, area);
    }
  }

  method DestroyStrong(rt: Runtime, p: Place, ptr: Ptr, ghost area: set<Place>)
    requires rt.Valid() && OnlyLocalsIdle(rt) && InUse(rt.View(), p) && p.Local? && rt.cells[p] == Strong(ptr)
    modifies rt
    ensures rt.Valid() && OnlyLocalsIdle(rt) && rt.owed == old(rt.owed)
    ensures GivenBack(old(rt.View()), rt.View(), rt.owed, area, {p})
  {
    ghost var m := rt.View();
    NowSpare(m, rt.owed, ptr);
    rt.Relinquish(p);
    AnchoredLocals(rt);
    rt.DecrPtr(ptr);
    PaidBack(old(rt.owed), RefsIn(ptr));
    StrongReleased(m, old(rt.owed), rt.View(), p, ptr, area);
  }

  lemma StrongReleased(m: Mem, owed: multiset<nat>, n: Mem, p: Place, ptr: Ptr, area: set<Place>)
    requires Inv(m, owed) && m.doomed == {} && InUse(m, p) && m.cells[p] == Strong(ptr)
    requires Settled(Idled(m, p), n) && if ptr.At? then Spared(Idled(m, p), ptr.obj, n) else n == Idled(m, p)
    ensures Released(m, n, {p}) && Kept(m, n, owed, area, {p})
  {
    ReleasedOne(m, n, p);
    if Backed(m, owed, area) && p in area {
      SharedTarget(m, owed, p, area);
      StillBacked(m, n, owed, area);
    }
  }

  lemma AnchoredLocals(rt: Runtime)
    requires OnlyLocalsIdle(rt)
    ensures Anchored(rt.View())
  {
  }

  // ---------------------------------------------------------------- whole structs

  /** Releasing other cells leaves an area that is in use alone, but for weak pointers that become nil. */
  lemma AreaAhead(a: Mem, b: Mem, p: set<Place>, base: nat, n: nat)
    requires Released(a, b, p) && Area(base, n) !! a.idle && Area(base, n) !! p
    ensures Area(base, n) !! b.idle && Pointers(b.cells, base, n) == Pointers(a.cells, base, n)
    ensures forall q :: q in Area(base, n) && q in a.cells ==> q in b.cells && SameKind(a.cells[q], b.cells[q])
  {
    assert forall q :: q in Area(base, n) ==> q.Local?;
    forall q | q in Area(base, n) && q in a.cells
      ensures q in b.cells && SameKind(a.cells[q], b.cells[q])
    {
      assert b.cells[q] == Fade(b, a.cells[q]);
    }
  }

  /** The pointer cells of an area have been dealt with by a destructor. */
  ghost predicate Dealt(a: Mem, b: Mem, owed: multiset<nat>, area: set<Place>, base: nat, n: nat) {
    exists gone :: gone == Pointers(a.cells, base, n) && GivenBack(a, b, owed, area, gone)
  }

  ghost predicate GivenBack(a: Mem, b: Mem, owed: multiset<nat>, area: set<Place>, gone: set<Place>) {
    Released(a, b, gone) && Kept(a, b, owed, area, gone) && UpheldSince(a, b, owed, gone)
  }

  lemma NoneGiven(a: Mem, owed: multiset<nat>, area: set<Place>)
    requires Layout(a) && Sound(a)
    ensures GivenBack(a, a, owed, area, {})
  {
    assert a.idle + {} == a.idle;
    ReleasedNone(a);
  }

  lemma DealtNone(a: Mem, owed: multiset<nat>, area: set<Place>, base: nat)
    requires Layout(a) && Sound(a)
    ensures Dealt(a, a, owed, area, base, 0)
  {
    assert Pointers(a.cells, base, 0) == {};
    NoneGiven(a, owed, area);
  }

  lemma DealtSets(a: Mem, b: Mem, c: Mem, owed: multiset<nat>, area: set<Place>, p: set<Place>, q: set<Place>,
                  r: set<Place>)
    requires GivenBack(a, b, owed, area, p) && GivenBack(b, c, owed, area, q)
    requires b.doomed == {} && r == p + q
    requires forall x :: x in q ==> x in a.cells && x.Local? && x !in a.idle && x !in p
    ensures GivenBack(a, c, owed, area, r)
  {
    ReleasedBoth(a, b, c, p, q);
    KeptBoth(a, b, c, owed, area, p, q);
    UpheldBoth(a, b, c, owed, p, q);
  }

  lemma InUseApart(cells: map<Place, Content>, idle: set<Place>, base: nat, v: nat, w: nat)
    requires Area(base, v + w) !! idle
    ensures Area(base, v) !! idle && Area(base + v, w) !! idle && Area(base + v, w) !! Pointers(cells, base, v)
    ensures forall x :: x in Pointers(cells, base + v, w) ==>
      x in cells && x.Local? && x !in idle && x !in Pointers(cells, base, v)
  {
    SplitArea(cells, base, v, w);
  }

  /** The first part and then the rest. */
  lemma DealtBoth(a: Mem, b: Mem, c: Mem, owed: multiset<nat>, area: set<Place>, base: nat, v: nat, w: nat,
                  n: nat)
    requires n == v + w && Dealt(a, b, owed, area, base, v) && Dealt(b, c, owed, area, base + v, w)
    requires b.doomed == {} && Area(base, n) !! a.idle
    ensures Dealt(a, c, owed, area, base, n)
  {
    var p, q := Pointers(a.cells, base, v), Pointers(b.cells, base + v, w);
    PointersJoined(a, b, base, v, w, n);
    DealtSets(a, b, c, owed, area, p, q, Pointers(a.cells, base, n));
  }

  lemma PointersJoined(a: Mem, b: Mem, base: nat, v: nat, w: nat, n: nat)
    requires n == v + w && Released(a, b, Pointers(a.cells, base, v)) && Area(base, n) !! a.idle
    ensures Pointers(a.cells, base, n) == Pointers(a.cells, base, v) + Pointers(b.cells, base + v, w)
    ensures forall x :: x in Pointers(b.cells, base + v, w) ==>
      x in a.cells && x.Local? && x !in a.idle && x !in Pointers(a.cells, base, v)
  {
    InUseApart(a.cells, a.idle, base, v, w);
    AreaAhead(a, b, Pointers(a.cells, base, v), base + v, w);
    SplitArea(a.cells, base, v, w);
  }

  /** The struct is laid out in cells that are in use. */
  ghost predicate Standing(m: Mem, fields: seq<Shape>, base: nat) {
    Fits(m.cells, fields, base) && Area(base, Width(fields)) !! m.idle
  }

  /** After the first field, the others still stand. */
  lemma RestStands(a: Mem, b: Mem, owed: multiset<nat>, area: set<Place>, fields: seq<Shape>, base: nat)
    requires fields != [] && Standing(a, fields, base) && Dealt(a, b, owed, area, base, FieldWidth(fields[0]))
    ensures Standing(b, fields[1..], base + FieldWidth(fields[0]))
  {
    var v, w := FieldWidth(fields[0]), Width(fields[1..]);
    InUseApart(a.cells, a.idle, base, v, w);
    AreaAhead(a, b, Pointers(a.cells, base, v), base + v, w);
    FitsKept(a.cells, b.cells, fields[1..], base + v);
  }

  /** The first field and then the others. */
  lemma DealtFields(a: Mem, b: Mem, c: Mem, owed: multiset<nat>, area: set<Place>, fields: seq<Shape>, base: nat)
    requires fields != [] && Area(base, Width(fields)) !! a.idle && b.doomed == {}
    requires Dealt(a, b, owed, area, base, FieldWidth(fields[0]))
    requires Dealt(b, c, owed, area, base + FieldWidth(fields[0]), Width(fields[1..]))
    ensures Dealt(a, c, owed, area, base, Width(fields))
  {
    DealtBoth(a, b, c, owed, area, base, FieldWidth(fields[0]), Width(fields[1..]), Width(fields));
  }

  lemma FirstStands(a: Mem, fields: seq<Shape>, base: nat)
    requires fields != [] && Standing(a, fields, base)
    ensures FieldFits(a.cells, fields[0], base) && Area(base, FieldWidth(fields[0])) !! a.idle
  {
    InUseApart(a.cells, a.idle, base, FieldWidth(fields[0]), Width(fields[1..]));
  }

  /** The generated destructor: each pointer cell gives up its reference or list entry, in order; what hangs on the
      struct alone is freed, and nothing else. */
  method DestroyStruct(rt: Runtime, fields: seq<Shape>, base: nat, ghost area: set<Place>)
    requires rt.Valid() && OnlyLocalsIdle(rt) && Standing(rt.View(), fields, base)
    modifies rt
    ensures rt.Valid() && OnlyLocalsIdle(rt) && rt.owed == old(rt.owed)
    ensures Dealt(old(rt.View()), rt.View(), old(rt.owed), area, base, Width(fields))
    decreases fields, 0
  {
    ghost var a, owed := rt.View(), rt.owed;
    if fields == [] {
      DealtNone(a, owed, area, base);
    } else {
      FirstStands(a, fields, base);
      DestroyField(rt, fields[0], base, area);
      ghost var b := rt.View();
      RestStands(a, b, owed, area, fields, base);
      DestroyStruct(rt, fields[1..], base + FieldWidth(fields[0]), area);
      DealtFields(a, b, rt.View(), owed, area, fields, base);
    }
  }

  method DestroyField(rt: Runtime, f: Shape, at: nat, ghost area: set<Place>)
    requires rt.Valid() && OnlyLocalsIdle(rt) && FieldFits(rt.cells, f, at) && Area(at, FieldWidth(f)) !! rt.idle
    modifies rt
    ensures rt.Valid() && OnlyLocalsIdle(rt) && rt.owed == old(rt.owed)
    ensures Dealt(old(rt.View()), rt.View(), old(rt.owed), area, at, FieldWidth(f))
    decreases f, 1
  {
    PlainField(rt.cells, f, at);
    match f
    case CountedField => DestroyPointer(rt, Local(at), area);
    case WeakField => DestroyPointer(rt, Local(at), area);
    case DataField => DealtData(rt.View(), rt.owed, area, at, 1);
    case StructField(inner) =>
      if NeedsDestructor(inner) {
        DestroyStruct(rt, inner, at, area);
      } else {
        DealtData(rt.View(), rt.owed, area, at, Width(inner));
      }
    case ArrayField(n) => DestroyArray(rt, at, n, area);
  }

  lemma DealtData(a: Mem, owed: multiset<nat>, area: set<Place>, at: nat, n: nat)
    requires Layout(a) && Sound(a) && Pointers(a.cells, at, n) == {}
    ensures Dealt(a, a, owed, area, at, n)
  {
    NoneGiven(a, owed, area);
  }

  /** __egl_array_decr_ptrs. */
  method DestroyArray(rt: Runtime, at: nat, n: nat, ghost area: set<Place>)
    requires rt.Valid() && OnlyLocalsIdle(rt) && FieldFits(rt.cells, ArrayField(n), at) && Area(at, n) !! rt.idle
    modifies rt
    ensures rt.Valid() && OnlyLocalsIdle(rt) && rt.owed == old(rt.owed)
    ensures Dealt(old(rt.View()), rt.View(), old(rt.owed), area, at, n)
  {
    ghost var a := rt.View();
    DealtNone(a, rt.owed, area, at);
    var i := 0;
    while i < n
      invariant i <= n && rt.Valid() && OnlyLocalsIdle(rt) && rt.owed == old(rt.owed)
      invariant Dealt(a, rt.View(), rt.owed, area, at, i)
    {
      ghost var b := rt.View();
      NextCell(a, b, rt.owed, area, at, i, n);
      DestroyPointer(rt, Local(at + i), area);
      DealtBoth(a, b, rt.View(), rt.owed, area, at, i, 1, i + 1);
      i := i + 1;
    }
  }

  lemma NextCell(a: Mem, b: Mem, owed: multiset<nat>, area: set<Place>, at: nat, i: nat, n: nat)
    requires FieldFits(a.cells, ArrayField(n), at) && Area(at, n) !! a.idle && i < n
    requires Dealt(a, b, owed, area, at, i)
    ensures InUse(b, Local(at + i)) && b.cells[Local(at + i)].Strong? && Area(at, i + 1) !! a.idle
    ensures Pointers(b.cells, at + i, 1) == {Local(at + i)}
  {
    assert Area(at, i + 1) <= Area(at, n);
    InUseApart(a.cells, a.idle, at, i, 1);
    AreaAhead(a, b, Pointers(a.cells, at, i), at + i, 1);
    var p := Local(at + i);
    assert p in Area(at + i, 1) && p in a.cells;
  }

  /** The pointer cells that the copy constructor looks at: it passes over arrays. */
  function Copied(cells: map<Place, Content>, fields: seq<Shape>, base: nat): set<Place> {
    Pointers(cells, base, Width(fields)) - ArrayCells(fields, base)
  }

  function CopiedField(cells: map<Place, Content>, f: Shape, at: nat): set<Place> {
    Pointers(cells, at, FieldWidth(f)) - FieldArrays(f, at)
  }

  lemma SplitCopied(cells: map<Place, Content>, fields: seq<Shape>, base: nat)
    requires fields != [] && Fits(cells, fields, base)
    ensures var rest := base + FieldWidth(fields[0]);
      Copied(cells, fields, base) == CopiedField(cells, fields[0], base) + Copied(cells, fields[1..], rest) &&
      CopiedField(cells, fields[0], base) !! Copied(cells, fields[1..], rest)
  {
    var rest := base + FieldWidth(fields[0]);
    SplitArea(cells, base, FieldWidth(fields[0]), Width(fields[1..]));
    FieldArraysInside(cells, fields[0], base);
    ArraysInside(cells, fields[1..], rest);
  }

  /** The generated copy constructor, run on an area that holds a bit-by-bit copy. */
  method CopyConstruct(rt: Runtime, fields: seq<Shape>, base: nat)
    requires rt.Valid() && OnlyLocalsIdle(rt) && Fits(rt.cells, fields, base)
    requires var area := Copied(rt.cells, fields, base);
      area <= rt.idle && forall p :: p in area ==> Points(rt.objs, rt.cells[p].ptr)
    modifies rt`objs, rt`owed, rt`idle
    ensures rt.Valid() && rt.owed == old(rt.owed) && rt.objs.Keys == old(rt.objs).Keys
    ensures rt.idle == old(rt.idle) - Copied(rt.cells, fields, base)
    decreases fields, 0
  {
    if fields != [] {
      SplitCopied(rt.cells, fields, base);
      CopyField(rt, fields[0], base);
      CopyConstruct(rt, fields[1..], base + FieldWidth(fields[0]));
    }
  }

  method CopyField(rt: Runtime, f: Shape, at: nat)
    requires rt.Valid() && OnlyLocalsIdle(rt) && FieldFits(rt.cells, f, at)
    requires var area := CopiedField(rt.cells, f, at);
      area <= rt.idle && forall p :: p in area ==> Points(rt.objs, rt.cells[p].ptr)
    modifies rt`objs, rt`owed, rt`idle
    ensures rt.Valid() && rt.owed == old(rt.owed) && rt.objs.Keys == old(rt.objs).Keys
    ensures rt.idle == old(rt.idle) - CopiedField(rt.cells, f, at)
    decreases f, 1
  {
    PlainField(rt.cells, f, at);
    match f
    case CountedField => TakeUp(rt, Local(at));
    case WeakField => TakeUp(rt, Local(at));
    case DataField =>
    case StructField(inner) =>
      if NeedsDestructor(inner) {
        CopyConstruct(rt, inner, at);
      }
    case ArrayField(_) =>
  }

  // ---------------------------------------------------------------- arrays in copies

  /** Taking idle cells into use without counting their references keeps the accounting exactly if they are nil: so
      a copied struct is right exactly if its arrays hold nothing. */
  lemma ArrayCopyExactly(m: Mem, owed: multiset<nat>, s: set<Place>)
    requires Inv(m, owed) && m.doomed == {} && s <= m.idle && forall p :: p in s ==> p.Local? && m.cells[p].Strong?
    ensures Inv(m.(idle := m.idle - s), owed) <==> forall p :: p in s ==> m.cells[p] == Strong(Nil)
  {
    var n := m.(idle := m.idle - s);
    if forall p :: p in s ==> m.cells[p] == Strong(Nil) {
      NilsUsable(m, owed, s);
    } else {
      var p :| p in s && m.cells[p] != Strong(Nil);
      var o := m.cells[p].ptr.obj;
      if Inv(n, owed) {
        assert InUse(n, p) && o in Live(n) && o in Live(m);
        Accounted(m, owed, o);
        Accounted(n, owed, o);
        var h, k := Holders(m.cells, m.idle, o), Holders(n.cells, n.idle, o);
        assert p in k && p !in h && h <= k - {p};
        CardinalityLess(h, k - {p});
      }
    }
  }

  lemma NilsUsable(m: Mem, owed: multiset<nat>, s: set<Place>)
    requires Inv(m, owed) && s <= m.idle && forall p :: p in s ==> m.cells[p] == Strong(Nil)
    ensures Inv(m.(idle := m.idle - s), owed)
  {
    var n := m.(idle := m.idle - s);
    assert Live(n) == Live(m);
    forall o | o in Live(n)
      ensures n.objs[o].memcount == |Holders(n.cells, n.idle, o)| + owed[o]
      ensures Registry(n.objs[o], n.cells, n.idle, o)
    {
      Accounted(m, owed, o);
      assert Holders(n.cells, n.idle, o) == Holders(m.cells, m.idle, o);
      assert WeakHolders(n.cells, n.idle, o) == WeakHolders(m.cells, m.idle, o);
    }
  }

  /** Nil cells that no reference was counted for can be used as they are. */
  ghost method UseNils(rt: Runtime, s: set<Place>)
    requires rt.Valid() && OnlyLocalsIdle(rt) && s <= rt.idle && forall p :: p in s ==> rt.cells[p] == Strong(Nil)
    modifies rt`idle
    ensures rt.Valid() && OnlyLocalsIdle(rt) && rt.idle == old(rt.idle) - s
  {
    NilsUsable(rt.View(), rt.owed, s);
    rt.idle := rt.idle - s;
    AnchoredLocals(rt);
  }

  // ---------------------------------------------------------------- balance

  /** The same objects with the same counts, the same weak lists up to order. */
  ghost predicate SameBooks(a: map<nat, Header>, b: map<nat, Header>) {
    a.Keys == b.Keys &&
    forall o :: o in a ==>
      a[o].memcount == b[o].memcount &&
      a[o].wrefct <= |a[o].wrefs| && b[o].wrefct <= |b[o].wrefs| && Tidy(Entries(a[o])) && Tidy(Entries(b[o])) &&
      Places(Entries(a[o])) == Places(Entries(b[o]))
  }

  lemma AllKept(b: Mem, c: Mem, owed: multiset<nat>, base: nat, n: nat)
    requires var area := Pointers(b.cells, base, n); Dealt(b, c, owed, area, base, n) && Backed(b, owed, area)
    ensures c.cells == b.cells && c.objs.Keys == b.objs.Keys && c.idle == b.idle + Pointers(b.cells, base, n)
  {
  }

  /** Copying a struct and destroying the copy leaves every count and every weak list as it was, and frees nothing. */
  method CopyThenDestroy(rt: Runtime, fields: seq<Shape>, base: nat)
    requires rt.Valid() && OnlyLocalsIdle(rt) && Fits(rt.cells, fields, base)
    requires var area := Pointers(rt.cells, base, Width(fields));
      rt.idle * Area(base, Width(fields)) == area && (forall p :: p in area ==> Points(rt.objs, rt.cells[p].ptr)) &&
      Backed(rt.View(), rt.owed, area)
    requires forall p :: p in ArrayCells(fields, base) && p in rt.cells ==> rt.cells[p] == Strong(Nil)
    modifies rt
    ensures rt.Valid() && SameBooks(old(rt.objs), rt.objs) && rt.cells == old(rt.cells)
    ensures rt.idle == old(rt.idle) && rt.owed == old(rt.owed)
  {
    ghost var area := Pointers(rt.cells, base, Width(fields));
    ghost var m := rt.View();
    CopyWhole(rt, fields, base);
    StillBacked(m, rt.View(), rt.owed, area);
    DestroyBacked(rt, fields, base);
    assert rt.idle == m.idle;
    BooksBalanced(m, rt.View(), rt.owed);
  }

  /** The copy constructor on a struct whose arrays are empty. */
  method CopyWhole(rt: Runtime, fields: seq<Shape>, base: nat)
    requires rt.Valid() && OnlyLocalsIdle(rt) && Fits(rt.cells, fields, base)
    requires var area := Pointers(rt.cells, base, Width(fields));
      area <= rt.idle && forall p :: p in area ==> Points(rt.objs, rt.cells[p].ptr)
    requires forall p :: p in ArrayCells(fields, base) && p in rt.cells ==> rt.cells[p] == Strong(Nil)
    modifies rt`objs, rt`owed, rt`idle
    ensures rt.Valid() && OnlyLocalsIdle(rt) && rt.owed == old(rt.owed) && rt.objs.Keys == old(rt.objs).Keys
    ensures rt.idle == old(rt.idle) - Pointers(rt.cells, base, Width(fields))
  {
    ArraysInside(rt.cells, fields, base);
    CopyConstruct(rt, fields, base);
    UseNils(rt, ArrayCells(fields, base));
  }

  /** A destructor on a struct whose objects are all held elsewhere too. */
  method DestroyBacked(rt: Runtime, fields: seq<Shape>, base: nat)
    requires rt.Valid() && OnlyLocalsIdle(rt) && Standing(rt.View(), fields, base)
    requires Backed(rt.View(), rt.owed, Pointers(rt.cells, base, Width(fields)))
    modifies rt
    ensures rt.Valid() && OnlyLocalsIdle(rt) && rt.owed == old(rt.owed)
    ensures rt.cells == old(rt.cells) && rt.objs.Keys == old(rt.objs).Keys
    ensures rt.idle == old(rt.idle) + Pointers(rt.cells, base, Width(fields))
  {
    ghost var b := rt.View();
    DestroyStruct(rt, fields, base, Pointers(rt.cells, base, Width(fields)));
    AllKept(b, rt.View(), old(rt.owed), base, Width(fields));
  }

  /** The bitwise copy of a struct in use is of that kind: the original holds what the copy points to. */
  lemma CopyBacked(m: Mem, owed: multiset<nat>, base: nat, from: nat, n: nat)
    requires Sound(m) && m.doomed == {} && Area(from, n) !! m.idle && Area(from, n) !! Pointers(m.cells, base, n)
    requires forall p, q :: p in Area(base, n) && p in m.cells && q in Area(from, n) && q.k - from == p.k - base ==>
      q in m.cells && m.cells[q] == m.cells[p]
    ensures Backed(m, owed, Pointers(m.cells, base, n))
    ensures forall p :: p in Pointers(m.cells, base, n) ==> Points(m.objs, m.cells[p].ptr)
  {
    var area := Pointers(m.cells, base, n);
    forall p | p in area
      ensures Points(m.objs, m.cells[p].ptr)
      ensures m.cells[p].Strong? && m.cells[p].ptr.At? ==>
        Elsewhere(m.cells, m.idle, owed, area, m.cells[p].ptr.obj) > 0
    {
      var q := Local(from + (p.k - base));
      assert q in Area(from, n) && m.cells[q] == m.cells[p];
      if m.cells[p].Strong? && m.cells[p].ptr.At? {
        assert q in Holders(m.cells, m.idle, m.cells[p].ptr.obj) - area;
      }
    }
  }

  /** The accounting determines the books: same cells in use and same debts, same counts and lists. */
  lemma BooksBalanced(m: Mem, n: Mem, owed: multiset<nat>)
    requires Inv(m, owed) && Inv(n, owed) && m.doomed == {} && n.doomed == {}
    requires n.cells == m.cells && n.idle == m.idle && n.objs.Keys == m.objs.Keys
    ensures SameBooks(m.objs, n.objs)
  {
    forall o | o in m.objs
      ensures m.objs[o].memcount == n.objs[o].memcount
      ensures Registry(m.objs[o], m.cells, m.idle, o) && Registry(n.objs[o], m.cells, m.idle, o)
    {
      Accounted(m, owed, o);
      Accounted(n, owed, o);
    }
  }
}
