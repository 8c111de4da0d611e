/** Each elementary step of the runtime keeps the accounting of CountedMemory. */
module CountedSteps {
  import opened CountedMemory

  function One(o: nat): multiset<nat> { multiset{o} }

  // ---------------------------------------------------------------- counts

  function WithCount(m: Mem, o: nat, count: int): Mem
    requires o in m.objs
  {
    m.(objs := m.objs[o := m.objs[o].(memcount := count)])
  }

  /** The count of one object changes with what it is owed. */
  lemma Recounted(m: Mem, owed: multiset<nat>, now: multiset<nat>, o: nat, count: int)
    requires Inv(m, owed) && o in Live(m) && m.pinned <= now
    requires now[o] + m.objs[o].memcount == owed[o] + count && forall t :: t != o ==> now[t] == owed[t]
    ensures m.objs[o].memcount >= owed[o] && Inv(WithCount(m, o, count), now)
  {
    var n := WithCount(m, o, count);
    Accounted(m, owed, o);
    assert Live(n) == Live(m);
    forall t | t in Live(n)
      ensures n.objs[t].memcount == |Holders(n.cells, n.idle, t)| + now[t]
      ensures Registry(n.objs[t], n.cells, n.idle, t)
    {
      Accounted(m, owed, t);
    }
  }

  /** Counting a reference down pays one that was owed. */
  lemma Dropped(m: Mem, owed: multiset<nat>, o: nat)
    requires Inv(m, owed) && owed[o] > m.pinned[o]
    ensures o in Live(m) && m.objs[o].memcount > 0
    ensures Inv(WithCount(m, o, m.objs[o].memcount - 1), owed - One(o))
  {
    Recounted(m, owed, owed - One(o), o, m.objs[o].memcount - 1);
  }

  lemma DropSettled(m: Mem, o: nat)
    requires Layout(m) && Sound(m) && o in Live(m) && m.objs[o].memcount > 1
    ensures Settled(m, WithCount(m, o, m.objs[o].memcount - 1))
  {
  }

  /** Counting a reference up makes one owed. */
  lemma Raised(m: Mem, owed: multiset<nat>, o: nat)
    requires Inv(m, owed) && o in Live(m)
    ensures Inv(WithCount(m, o, m.objs[o].memcount + 1), owed + One(o))
  {
    Recounted(m, owed, owed + One(o), o, m.objs[o].memcount + 1);
  }

  // ---------------------------------------------------------------- giving up and taking a reference

  function Idled(m: Mem, p: Place): Mem { m.(idle := m.idle + {p}) }

  predicate InUse(m: Mem, p: Place) { p in m.cells && p !in m.idle }

  /** The reference in a counted cell becomes owed. */
  lemma IdleStrong(m: Mem, owed: multiset<nat>, p: Place, t: nat)
    requires Inv(m, owed) && InUse(m, p) && m.cells[p] == Strong(At(t))
    ensures Inv(Idled(m, p), owed + One(t))
  {
    var n := Idled(m, p);
    forall o | o in Live(n)
      ensures n.objs[o].memcount == |Holders(n.cells, n.idle, o)| + (owed + One(t))[o]
      ensures Registry(n.objs[o], n.cells, n.idle, o)
    {
      assert Holders(n.cells, n.idle, o) == Holders(m.cells, m.idle, o) - {p};
      assert p in Holders(m.cells, m.idle, o) <==> o == t;
      assert WeakHolders(n.cells, n.idle, o) == WeakHolders(m.cells, m.idle, o);
      RegistryKept(m.objs[o], m.cells, m.idle, n.cells, n.idle, o);
    }
  }

  lemma RegistryKept(h: Header, c: map<Place, Content>, idle: set<Place>, d: map<Place, Content>, jdle: set<Place>,
                     o: nat)
    requires Registry(h, c, idle, o)
    requires WeakHolders(c, idle, o) == WeakHolders(d, jdle, o)
    ensures Registry(h, d, jdle, o)
  {
  }

  /** A cell with no reference in it can be set aside at will. */
  lemma IdleEmpty(m: Mem, owed: multiset<nat>, p: Place)
    requires Inv(m, owed) && InUse(m, p) && (m.cells[p].Plain? || m.cells[p].ptr.Nil?)
    ensures Inv(Idled(m, p), owed)
  {
    var n := Idled(m, p);
    forall o | o in Live(n)
      ensures n.objs[o].memcount == |Holders(n.cells, n.idle, o)| + owed[o]
      ensures Registry(n.objs[o], n.cells, n.idle, o)
    {
      assert Holders(n.cells, n.idle, o) == Holders(m.cells, m.idle, o);
      assert WeakHolders(n.cells, n.idle, o) == WeakHolders(m.cells, m.idle, o);
      RegistryKept(m.objs[o], m.cells, m.idle, n.cells, n.idle, o);
    }
  }

  function Filled(m: Mem, p: Place, c: Content): Mem {
    m.(cells := m.cells[p := c], idle := m.idle - {p})
  }

  /** Storing an owed reference in an idle cell of a teardown-bearing object, or in a local. */
  lemma FillStrong(m: Mem, owed: multiset<nat>, p: Place, t: nat)
    requires Inv(m, owed) && p in m.idle && CanHold(m, p) && owed[t] > m.pinned[t]
    ensures Inv(Filled(m, p, Strong(At(t))), owed - One(t))
  {
    var n := Filled(m, p, Strong(At(t)));
    forall o | o in Live(n)
      ensures n.objs[o].memcount == |Holders(n.cells, n.idle, o)| + (owed - One(t))[o]
      ensures Registry(n.objs[o], n.cells, n.idle, o)
    {
      HoldersFilled(m, p, t, o);
      RegistryKept(m.objs[o], m.cells, m.idle, n.cells, n.idle, o);
    }
  }

  lemma HoldersFilled(m: Mem, p: Place, t: nat, o: nat)
    requires p in m.idle
    ensures var n := Filled(m, p, Strong(At(t)));
      |Holders(n.cells, n.idle, o)| == |Holders(m.cells, m.idle, o)| + (if o == t then 1 else 0) &&
      WeakHolders(n.cells, n.idle, o) == WeakHolders(m.cells, m.idle, o)
  {
    FilledHolders(m, p, t, o);
  }

  lemma FilledHolders(m: Mem, p: Place, t: nat, o: nat)
    requires p in m.idle
    ensures var n := Filled(m, p, Strong(At(t)));
      p !in Holders(m.cells, m.idle, o) && WeakHolders(n.cells, n.idle, o) == WeakHolders(m.cells, m.idle, o) &&
      Holders(n.cells, n.idle, o) == Holders(m.cells, m.idle, o) + if o == t then {p} else {}
  {
  }

  predicate CanHold(m: Mem, p: Place) {
    p.Field? ==> p.obj in m.objs && m.objs[p.obj].teardown
  }

  lemma FillEmpty(m: Mem, owed: multiset<nat>, p: Place, c: Content)
    requires Inv(m, owed) && p in m.idle && CanHold(m, p) && (c.Plain? || c.ptr.Nil?)
    ensures Inv(Filled(m, p, c), owed)
  {
    var n := Filled(m, p, c);
    forall o | o in Live(n)
      ensures n.objs[o].memcount == |Holders(n.cells, n.idle, o)| + owed[o]
      ensures Registry(n.objs[o], n.cells, n.idle, o)
    {
      assert Holders(n.cells, n.idle, o) == Holders(m.cells, m.idle, o);
      assert WeakHolders(n.cells, n.idle, o) == WeakHolders(m.cells, m.idle, o);
      RegistryKept(m.objs[o], m.cells, m.idle, n.cells, n.idle, o);
    }
  }

  // ---------------------------------------------------------------- weak registries

  /** Only the registry differs, and it is well allocated. */
  predicate Relisted(h: Header, k: Header, entries: seq<Entry>) {
    k.memcount == h.memcount && k.teardown == h.teardown && k.size == h.size &&
    k.wrefct <= k.wrefal == |k.wrefs| && Entries(k) == entries
  }

  function WithHeader(m: Mem, o: nat, h: Header): Mem { m.(objs := m.objs[o := h]) }

  /** Taking a weak cell off its target's list lets the cell go idle. */
  lemma Unlisted(m: Mem, owed: multiset<nat>, p: Place, t: nat, i: nat, k: Header)
    requires Inv(m, owed) && InUse(m, p) && m.cells[p] == Weak(At(t)) && t in Live(m)
    requires i < m.objs[t].wrefct <= |m.objs[t].wrefs| && m.objs[t].wrefs[i] == Pos(p)
    requires Relisted(m.objs[t], k, Entries(m.objs[t])[..i] + Entries(m.objs[t])[i + 1..])
    ensures var n := Idled(WithHeader(m, t, k), p); Inv(n, owed) && Settled(Idled(m, p), n)
  {
    var n := Idled(WithHeader(m, t, k), p);
    UnlistedSound(m, owed, p, t, k);
    Accounted(m, owed, t);
    ListWithout(m.objs[t], k, m.cells, m.idle, p, t, i);
    forall o | o in Live(n)
      ensures n.objs[o].memcount == |Holders(n.cells, n.idle, o)| + owed[o]
      ensures Registry(n.objs[o], n.cells, n.idle, o)
    {
      WeakIdled(m, p, t, o);
      if o != t {
        RegistryKept(m.objs[o], m.cells, m.idle, n.cells, n.idle, o);
      }
    }
  }

  lemma UnlistedSound(m: Mem, owed: multiset<nat>, p: Place, t: nat, k: Header)
    requires Inv(m, owed) && InUse(m, p) && m.cells[p] == Weak(At(t)) && t in Live(m)
    requires k.memcount == m.objs[t].memcount && k.teardown == m.objs[t].teardown && k.size == m.objs[t].size
    ensures var n := Idled(WithHeader(m, t, k), p);
      Layout(n) && Sound(n) && Live(n) == Live(m) && Settled(Idled(m, p), n)
  {
  }

  lemma WeakIdled(m: Mem, p: Place, t: nat, o: nat)
    requires InUse(m, p) && m.cells[p] == Weak(At(t))
    ensures Holders(m.cells, m.idle + {p}, o) == Holders(m.cells, m.idle, o)
    ensures o != t ==> WeakHolders(m.cells, m.idle + {p}, o) == WeakHolders(m.cells, m.idle, o)
  {
  }

  lemma ListWithout(h: Header, k: Header, cells: map<Place, Content>, idle: set<Place>, p: Place, t: nat, i: nat)
    requires Registry(h, cells, idle, t)
    requires i < h.wrefct && h.wrefs[i] == Pos(p)
    requires Relisted(h, k, Entries(h)[..i] + Entries(h)[i + 1..])
    ensures Registry(k, cells, idle + {p}, t)
  {
    var a, b := Entries(h), Entries(k);
    assert a[i] == Pos(p) && Pos(p) in a && p in Places(a);
    assert WeakHolders(cells, idle + {p}, t) == WeakHolders(cells, idle, t) - {p};
    TidyWithout(a, i);
  }

  lemma TidyWithout(a: seq<Entry>, i: nat)
    requires Tidy(a) && i < |a|
    ensures var b := a[..i] + a[i + 1..]; Tidy(b) && Places(b) == Places(a) - {a[i].place}
  {
  }

  /** Putting an idle weak cell on its target's list brings it into use. */
  lemma Enlisted(m: Mem, owed: multiset<nat>, p: Place, t: nat, k: Header)
    requires Inv(m, owed) && p in m.idle && CanHold(m, p) && t in Live(m)
    requires m.objs[t].wrefct <= |m.objs[t].wrefs|
    requires Relisted(m.objs[t], k, Entries(m.objs[t]) + [Pos(p)])
    ensures Inv(Filled(WithHeader(m, t, k), p, Weak(At(t))), owed)
  {
    var n := Filled(WithHeader(m, t, k), p, Weak(At(t)));
    Accounted(m, owed, t);
    ListWith(m.objs[t], k, m.cells, m.idle, p, t);
    forall o | o in Live(n)
      ensures n.objs[o].memcount == |Holders(n.cells, n.idle, o)| + owed[o]
      ensures Registry(n.objs[o], n.cells, n.idle, o)
    {
      assert Holders(n.cells, n.idle, o) == Holders(m.cells, m.idle, o);
      if o != t {
        assert WeakHolders(n.cells, n.idle, o) == WeakHolders(m.cells, m.idle, o);
        RegistryKept(m.objs[o], m.cells, m.idle, n.cells, n.idle, o);
      }
    }
  }

  lemma ListWith(h: Header, k: Header, cells: map<Place, Content>, idle: set<Place>, p: Place, t: nat)
    requires Registry(h, cells, idle, t) && p in idle
    requires Relisted(h, k, Entries(h) + [Pos(p)])
    ensures Registry(k, cells[p := Weak(At(t))], idle - {p}, t)
  {
    var a := Entries(h);
    assert WeakHolders(cells[p := Weak(At(t))], idle - {p}, t) == WeakHolders(cells, idle, t) + {p};
    forall i | 0 <= i < |a|
      ensures a[i] != Pos(p)
    {
      assert a[i].place in Places(a);
    }
    assert Places(a + [Pos(p)]) == Places(a) + {p};
  }

  // ---------------------------------------------------------------- destruction

  /** `o` starts to be destroyed: every weak pointer to it reads nil from now on. */
  function Dooming(m: Mem, o: nat, h: Header): Mem {
    Mem(m.objs[o := h],
        map p | p in m.cells :: if p in WeakHolders(m.cells, m.idle, o) then Weak(Nil) else m.cells[p],
        m.doomed + {o}, m.idle, m.pinned)
  }

  lemma Doomed(m: Mem, owed: multiset<nat>, o: nat, h: Header)
    requires Inv(m, owed) && o in Live(m) && m.objs[o].memcount == 0
    requires h.size == m.objs[o].size && h.teardown == m.objs[o].teardown
    ensures Inv(Dooming(m, o, h), owed)
  {
    var n := Dooming(m, o, h);
    DoomedSound(m, owed, o, h);
    forall t | t in Live(n)
      ensures n.objs[t].memcount == |Holders(n.cells, n.idle, t)| + owed[t]
      ensures Registry(n.objs[t], n.cells, n.idle, t)
    {
      DoomedOther(m, owed, o, h, t);
    }
  }

  lemma DoomedOther(m: Mem, owed: multiset<nat>, o: nat, h: Header, t: nat)
    requires Inv(m, owed) && o in Live(m) && t in Live(m) && t != o
    ensures var n := Dooming(m, o, h);
      n.objs[t].memcount == |Holders(n.cells, n.idle, t)| + owed[t] && Registry(n.objs[t], n.cells, n.idle, t)
  {
    var n := Dooming(m, o, h);
    assert Holders(n.cells, n.idle, t) == Holders(m.cells, m.idle, t);
    assert WeakHolders(n.cells, n.idle, t) == WeakHolders(m.cells, m.idle, t);
    RegistryKept(m.objs[t], m.cells, m.idle, n.cells, n.idle, t);
  }

  lemma DoomedSound(m: Mem, owed: multiset<nat>, o: nat, h: Header)
    requires Inv(m, owed) && o in Live(m) && m.objs[o].memcount == 0
    requires h.size == m.objs[o].size && h.teardown == m.objs[o].teardown
    ensures Layout(Dooming(m, o, h)) && Sound(Dooming(m, o, h))
    ensures forall t :: t in owed ==> t in Live(Dooming(m, o, h))
  {
    NoHolders(m, owed, o);
  }

  lemma NoHolders(m: Mem, owed: multiset<nat>, o: nat)
    requires Inv(m, owed) && o in Live(m) && m.objs[o].memcount == 0
    ensures owed[o] == 0
    ensures forall p :: p in m.cells && p !in m.idle ==> m.cells[p] != Strong(At(o))
  {
    assert Holders(m.cells, m.idle, o) == {};
    assert forall p :: p in m.cells && p !in m.idle && m.cells[p] == Strong(At(o)) ==> p in Holders(m.cells, m.idle, o);
  }

  function Freeing(m: Mem, o: nat): Mem {
    Mem(m.objs - {o}, map p | p in m.cells && !(p.Field? && p.obj == o) :: m.cells[p],
        m.doomed - {o}, m.idle - (set p | p in m.cells && p.Field? && p.obj == o), m.pinned)
  }

  /** Once all its references are given up, a doomed object can be freed. */
  lemma Freed(m: Mem, owed: multiset<nat>, o: nat)
    requires Inv(m, owed) && o in m.doomed
    requires forall p :: p in m.cells && p.Field? && p.obj == o ==> p in m.idle || m.cells[p].Plain?
    ensures Inv(Freeing(m, o), owed)
  {
    var n := Freeing(m, o);
    assert Live(n) == Live(m);
    forall t | t in Live(n)
      ensures n.objs[t].memcount == |Holders(n.cells, n.idle, t)| + owed[t]
      ensures Registry(n.objs[t], n.cells, n.idle, t)
    {
      assert Holders(n.cells, n.idle, t) == Holders(m.cells, m.idle, t);
      assert WeakHolders(n.cells, n.idle, t) == WeakHolders(m.cells, m.idle, t);
      RegistryKept(m.objs[t], m.cells, m.idle, n.cells, n.idle, t);
    }
  }

  /** Doom, teardown and free together settle. */
  lemma Destroyed(m: Mem, o: nat, h: Header, n: Mem)
    requires Layout(m) && Sound(m) && o in Live(m)
    requires h.size == m.objs[o].size && h.teardown == m.objs[o].teardown
    requires var d := Dooming(m, o, h); Settled(d.(idle := d.idle + Own(o, h.size)), n)
    requires Layout(n)
    ensures Settled(m, Freeing(n, o))
  {
    var d := Dooming(m, o, h);
    var e := d.(idle := d.idle + Own(o, h.size));
    var f := Freeing(n, o);
    assert Live(f) == Live(n);
    assert forall p :: p in Own(o, h.size) <==> p.Field? && p.obj == o && p.k < h.size;
    DestroyedCells(m, o, h, e, n);
    assert f.idle == m.idle * f.cells.Keys;
  }

  /** The cells of the objects that remain, across doom, teardown and free. */
  lemma DestroyedCells(m: Mem, o: nat, h: Header, e: Mem, n: Mem)
    requires Layout(m) && o in Live(m) && h.size == m.objs[o].size
    requires e == Dooming(m, o, h).(idle := m.idle + Own(o, h.size)) && Settled(e, n)
    ensures var f := Freeing(n, o); f.cells.Keys <= m.cells.Keys && forall p :: p in f.cells ==>
      SameKind(m.cells[p], f.cells[p]) && (p !in m.idle ==> f.cells[p] == Fade(f, m.cells[p]))
  {
    var f := Freeing(n, o);
    assert Live(f) == Live(n);
    forall p | p in f.cells
      ensures SameKind(m.cells[p], f.cells[p]) && (p !in m.idle ==> f.cells[p] == Fade(f, m.cells[p]))
    {
      assert SameKind(e.cells[p], n.cells[p]) && SameKind(m.cells[p], e.cells[p]);
      assert p !in Own(o, h.size);
      assert p !in m.idle ==> n.cells[p] == Fade(n, e.cells[p]);
    }
  }
}
