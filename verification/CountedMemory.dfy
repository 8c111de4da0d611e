/** The memory that rc.egl and the generated code work on, and the accounting every step of them keeps. */
module CountedMemory {

  datatype Ptr = Nil | At(obj: nat)

  /** A local variable or owned struct area cell, or field number `k` of an object. */
  datatype Place = Local(k: nat) | Field(obj: nat, k: nat)

  /** A counted pointer, a weak pointer, or data the runtime does not look at. */
  datatype Content = Strong(ptr: Ptr) | Weak(ptr: Ptr) | Plain

  /** A cell of the array `wrefs`; cells past `wrefct` hold nil or garbage. */
  datatype Entry = Unset | Pos(place: Place)

  /** struct __egl_ptr, with the number of fields that follow it. */
  datatype Header = Header(
    memcount: int, wrefct: nat, wrefal: nat, wrefs: seq<Entry>, teardown: bool, size: nat)

  /** Allocated objects and cells. `doomed` are the objects being destroyed; the reference in an `idle` cell
      has been given up (or not yet taken), although the cell still holds a value. The references `pinned` belong to
      owned temporaries and stay where they are while the runtime works. */
  datatype Mem = Mem(objs: map<nat, Header>, cells: map<Place, Content>, doomed: set<nat>, idle: set<Place>,
                     pinned: multiset<nat>)

  function Live(m: Mem): set<nat> { m.objs.Keys - m.doomed }

  function Own(o: nat, n: nat): set<Place> {
    set k | 0 <= k < n :: Field(o, k)
  }

  /** The cells that own a counted reference to `o`. */
  function Holders(cells: map<Place, Content>, idle: set<Place>, o: nat): set<Place> {
    set p | p in cells && p !in idle && cells[p] == Strong(At(o))
  }

  /** The weak cells in use that hold `o`. */
  function WeakHolders(cells: map<Place, Content>, idle: set<Place>, o: nat): set<Place> {
    set p | p in cells && p !in idle && cells[p] == Weak(At(o))
  }

  /** The entries in use of the array `wrefs`. */
  function Entries(h: Header): seq<Entry>
    requires h.wrefct <= |h.wrefs|
  {
    h.wrefs[..h.wrefct]
  }

  function Places(entries: seq<Entry>): set<Place> {
    set e | e in entries && e.Pos? :: e.place
  }

  /** The registry of `o` lists, once each, exactly the weak cells that hold `o`. */
  ghost predicate Registry(h: Header, cells: map<Place, Content>, idle: set<Place>, o: nat) {
    h.wrefct <= h.wrefal == |h.wrefs| && Tidy(Entries(h)) &&
    Places(Entries(h)) == WeakHolders(cells, idle, o)
  }

  ghost predicate Tidy(entries: seq<Entry>) {
    (forall i, j :: 0 <= i < j < |entries| ==> entries[i] != entries[j]) &&
    (forall i :: 0 <= i < |entries| ==> entries[i].Pos?)
  }

  /** Exactly the fields of allocated objects exist, besides locals. */
  ghost predicate Layout(m: Mem) {
    m.doomed <= m.objs.Keys && m.idle <= m.cells.Keys &&
    (forall o: nat, k: nat :: Field(o, k) in m.cells <==> o in m.objs && k < m.objs[o].size) &&
    (forall o: nat, k: nat :: o in m.objs && !m.objs[o].teardown && k < m.objs[o].size ==>
      m.cells[Field(o, k)] == Plain)
  }

  /** No cell in use and no temporary points to an object that is freed or being destroyed. */
  ghost predicate Sound(m: Mem) {
    (forall o :: o in m.pinned ==> o in Live(m)) &&
    forall p :: p in m.cells && p !in m.idle && !m.cells[p].Plain? && m.cells[p].ptr.At? ==>
      m.cells[p].ptr.obj in Live(m)
  }

  /** Every live object's count is the number of cells that own a reference to it, plus the references `owed`:
      owned temporaries, and references about to be released or stored. */
  ghost predicate Counted(m: Mem, owed: multiset<nat>) {
    (forall o {:trigger Holders(m.cells, m.idle, o)} :: o in Live(m) ==>
      m.objs[o].memcount == |Holders(m.cells, m.idle, o)| + owed[o]) &&
    (forall o :: o in owed ==> o in Live(m)) && m.pinned <= owed
  }

  ghost predicate Listing(m: Mem) {
    forall o {:trigger WeakHolders(m.cells, m.idle, o)} ::
      o in Live(m) ==> Registry(m.objs[o], m.cells, m.idle, o)
  }

  ghost predicate Inv(m: Mem, owed: multiset<nat>) {
    Layout(m) && Sound(m) && Counted(m, owed) && Listing(m)
  }

  /** The accounting of one object. */
  lemma Accounted(m: Mem, owed: multiset<nat>, o: nat)
    requires Inv(m, owed) && o in Live(m)
    ensures m.objs[o].memcount == |Holders(m.cells, m.idle, o)| + owed[o]
    ensures Registry(m.objs[o], m.cells, m.idle, o)
  {
    assert WeakHolders(m.cells, m.idle, o) == WeakHolders(m.cells, m.idle, o);
  }

  // ---------------------------------------------------------------- what a release may change

  /** A weak pointer to an object that is gone reads nil. */
  function Fade(m: Mem, c: Content): Content {
    if c.Weak? && c.ptr.At? && c.ptr.obj !in Live(m) then Weak(Nil) else c
  }

  predicate SameKind(c: Content, d: Content) {
    c.Strong? == d.Strong? && c.Weak? == d.Weak?
  }

  /** From `m` to `n` some live objects were destroyed; apart from that only counts and registries of live
      objects changed, and weak pointers to the destroyed objects became nil. */
  ghost predicate Settled(m: Mem, n: Mem) {
    match n
    case Mem(objs, cells, doomed, idle, pinned) =>
      doomed == m.doomed && objs.Keys <= m.objs.Keys && cells.Keys <= m.cells.Keys &&
      m.doomed <= objs.Keys && idle == m.idle * cells.Keys && pinned == m.pinned &&
      (forall o {:trigger objs[o]} :: o in m.doomed ==> o in m.objs && objs[o] == m.objs[o]) &&
      (forall o {:trigger objs[o]} :: o in Live(n) ==>
        objs[o].size == m.objs[o].size && objs[o].teardown == m.objs[o].teardown &&
        objs[o].memcount <= m.objs[o].memcount && (objs[o].memcount == 0 ==> m.objs[o].memcount == 0)) &&
      (forall p {:trigger p in cells} :: p in m.cells && p.Local? ==> p in cells) &&
      (forall p {:trigger cells[p]} :: p in cells && p !in m.idle ==> cells[p] == Fade(n, m.cells[p])) &&
      (forall p {:trigger SameKind(m.cells[p], cells[p])} :: p in cells ==> SameKind(m.cells[p], cells[p]))
  }

  lemma SettledTrans(a: Mem, b: Mem, c: Mem)
    requires Settled(a, b) && Settled(b, c)
    ensures Settled(a, c)
  {
    forall p | p in c.cells ensures SameKind(a.cells[p], c.cells[p]) {
      assert SameKind(a.cells[p], b.cells[p]) && SameKind(b.cells[p], c.cells[p]);
    }
  }

  /** Idling the same cell before and after. */
  lemma SettledIdle(a: Mem, b: Mem, p: Place)
    requires Settled(a, b) && p in b.cells
    ensures Settled(a.(idle := a.idle + {p}), b.(idle := b.idle + {p}))
  {
  }

  /** Outside `area` the cells are those of before, as far as their objects are still there; weak pointers to what went
      away read nil. */
  ghost predicate Untouched(m: Mem, n: Mem, area: set<Place>) {
    (forall q {:trigger q in n.cells} :: q in n.cells && q !in area ==>
      q in m.cells && n.cells[q] == Fade(n, m.cells[q])) &&
    (forall q {:trigger q in n.cells} :: q in m.cells && q !in area && (q.Field? ==> q.obj in n.objs) ==> q in n.cells)
  }

  lemma SettledUntouched(m: Mem, n: Mem, area: set<Place>)
    requires Layout(m) && Layout(n) && m.idle == {} && n.doomed == {} && Settled(m.(idle := m.idle + area), n)
    ensures Untouched(m, n, area)
  {
    forall q | q in m.cells && q !in area && q.Field? && q.obj in n.objs
      ensures q in n.cells
    {
      assert q.obj in Live(n) && n.objs[q.obj].size == m.objs[q.obj].size;
    }
  }

  lemma SettledSelf(m: Mem)
    requires Layout(m) && Sound(m)
    ensures Settled(m, m)
  {
  }
}
