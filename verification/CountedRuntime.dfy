/** rc.egl: counting, weak lists and the release cascade. */
module CountedRuntime {
  import opened CountedMemory
  import opened CountedSteps
  import opened CountedReach

  function RefsIn(ptr: Ptr): multiset<nat> {
    if ptr.Nil? then multiset{} else One(ptr.obj)
  }

  /** The search loop of __egl_remove_weak. */
  method IndexOf(h: Header, pos: Place) returns (idx: nat)
    requires h.wrefct <= |h.wrefs| && pos in Places(Entries(h))
    ensures idx < h.wrefct && h.wrefs[idx] == Pos(pos)
  {
    assert Pos(pos) in Entries(h);
    idx := 0;
    while idx < h.wrefct
      invariant idx <= h.wrefct && Pos(pos) !in h.wrefs[..idx]
    {
      if h.wrefs[idx] == Pos(pos) {
        break;
      }
      idx := idx + 1;
    }
  }

  /** A list with one more entry, grown by ten cells when it was full. */
  function Appended(h: Header, pos: Place): (k: Header)
    requires h.wrefct <= h.wrefal == |h.wrefs|
    ensures Relisted(h, k, Entries(h) + [Pos(pos)])
  {
    var room := if h.wrefal == h.wrefct then seq(10, _ => Unset) else [];
    h.(wrefs := (h.wrefs + room)[h.wrefct := Pos(pos)], wrefct := h.wrefct + 1, wrefal := |h.wrefs + room|)
  }

  /** With another reference left, a release only counts down; the last one takes the object with it. */
  predicate Spared(m: Mem, o: nat, n: Mem) {
    o in m.objs && (m.objs[o].memcount > 1 ==> n == WithCount(m, o, m.objs[o].memcount - 1)) &&
    (m.objs[o].memcount <= 1 ==> o !in n.objs)
  }

  /** Only the registries differ. */
  predicate SameButLists(a: map<nat, Header>, b: map<nat, Header>) {
    a.Keys == b.Keys &&
    forall o :: o in a ==> a[o].memcount == b[o].memcount && a[o].size == b[o].size && a[o].teardown == b[o].teardown
  }

  class Runtime {
    /** Before anything is declared or allocated. */
    constructor ()
      ensures Valid() && objs == map[] && cells == map[] && doomed == {} && idle == {} && owed == multiset{}
      ensures pinned == multiset{}
    {
      objs, cells, doomed, idle, owed, pinned := map[], map[], {}, {}, multiset{}, multiset{};
      new;
      EmptyMemory();
    }

    var objs: map<nat, Header>
    var cells: map<Place, Content>
    ghost var doomed: set<nat>
    ghost var idle: set<Place>
    ghost var owed: multiset<nat>
    ghost var pinned: multiset<nat>

    ghost function View(): Mem
      reads this
    {
      Mem(objs, cells, doomed, idle, pinned)
    }

    ghost predicate Valid()
      reads this
    {
      Inv(View(), owed) && Anchored(View())
    }

    /** __egl_set_nil: clear the weak cells on a list. */
    method SetNil(vals: seq<Entry>, ct: nat)
      requires ct <= |vals| && forall i :: 0 <= i < ct ==> vals[i].Pos? && vals[i].place in cells
      modifies this`cells
      ensures cells == map p | p in old(cells) :: if Pos(p) in vals[..ct] then Weak(Nil) else old(cells)[p]
    {
      var i := 0;
      while i < ct
        invariant i <= ct && cells.Keys == old(cells).Keys
        invariant forall p :: p in cells ==> cells[p] == if Pos(p) in vals[..i] then Weak(Nil) else old(cells)[p]
      {
        cells := cells[vals[i].place := Weak(Nil)];
        assert vals[..i + 1] == vals[..i] + [vals[i]];
        i := i + 1;
      }
    }

    /** free: the object and its fields are gone. */
    method Free(o: nat)
      requires o in objs
      modifies this
      ensures View() == Freeing(old(View()), o) && owed == old(owed)
    {
      objs := objs - {o};
      cells := map p | p in cells && !(p.Field? && p.obj == o) :: cells[p];
      idle := old(idle) - set p | p in old(cells) && p.Field? && p.obj == o;
      doomed := doomed - {o};
    }

    /** __egl_remove_weak: take a weak cell off its target's list. The cell keeps its stale value, idle. */
    method RemoveWeak(pos: Place)
      requires Inv(View(), owed) && InUse(View(), pos) && cells[pos].Weak?
      modifies this`objs, this`idle
      ensures Inv(View(), owed) && Settled(Idled(old(View()), pos), View())
      ensures idle == old(idle) + {pos} && SameButLists(old(objs), objs)
    {
      ghost var m := View();
      if cells[pos].ptr.Nil? {
        idle := idle + {pos};
        NilUnlisted(m, owed, pos);
        return;
      }
      var t := cells[pos].ptr.obj;
      WeakTarget(m, owed, pos, t);
      var idx := IndexOf(objs[t], pos);
      ghost var k := ShiftedOut(objs[t], idx);
      objs := objs[t := ShiftedOut(objs[t], idx)];
      idle := idle + {pos};
      Unhooked(m, owed, pos, t, idx, k, View());
    }

    /** __egl_add_weak: put a cell on the list of its target, if that is not being destroyed. */
    method AddWeak(ptr: Ptr, pos: Place)
      requires ptr.At? ==> ptr.obj in objs && objs[ptr.obj].wrefct <= objs[ptr.obj].wrefal == |objs[ptr.obj].wrefs|
      modifies this`objs
      ensures objs == if ptr.Nil? || old(objs)[ptr.obj].memcount < 0 then old(objs)
                      else old(objs)[ptr.obj := Appended(old(objs)[ptr.obj], pos)]
    {
      if ptr.Nil? || objs[ptr.obj].memcount < 0 {
        return;
      }
      var h := objs[ptr.obj];
      if h.wrefal == h.wrefct {
        h := h.(wrefs := h.wrefs + seq(10, _ => Unset), wrefal := h.wrefal + 10);
      }
      h := h.(wrefs := h.wrefs[h.wrefct := Pos(pos)], wrefct := h.wrefct + 1);
      assert h == Appended(objs[ptr.obj], pos) by {
        assert objs[ptr.obj].wrefs + [] == objs[ptr.obj].wrefs;
      }
      objs := objs[ptr.obj := h];
    }

    /** __egl_decr_ptr: pay one owed reference back, destroying the object with its last one. */
    method DecrPtr(ptr: Ptr)
      requires Valid() && (ptr.At? ==> owed[ptr.obj] > pinned[ptr.obj])
      modifies this
      ensures Valid() && owed == old(owed) - RefsIn(ptr)
      ensures Settled(old(View()), View()) && Upholds(old(View()), View(), owed)
      ensures if ptr.At? then Spared(old(View()), ptr.obj, View()) else View() == old(View())
      ensures doomed == {} ==> Survivors(old(View()), View(), owed)
      decreases Live(View()), 2
    {
      ghost var m := View();
      OwedLive(m, owed, ptr);
      if ptr.Nil? || objs[ptr.obj].memcount < 0 {
        SettledSelf(m);
        SurvivorsExactly(m, m, owed);
        return;
      }
      Drop(ptr.obj);
      SurvivorsExactly(m, View(), owed);
    }

    method Drop(o: nat)
      requires Valid() && o in Live(View()) && owed[o] > pinned[o]
      modifies this
      ensures Valid() && owed == old(owed) - One(o)
      ensures Settled(old(View()), View()) && Upholds(old(View()), View(), owed)
      ensures Spared(old(View()), o, View())
      decreases Live(View()), 1
    {
      ghost var m := View();
      CountDown(o);
      ghost var d := View();
      if objs[o].memcount == 0 {
        Destroy(o, true);
        LastDropped(m, owed, o, d);
        UpholdsTrans(m, d.(doomed := d.doomed + {o}), View(), owed);
      } else {
        UpholdsElsewhere(m, d, owed);
      }
      CountedDown(m, o, d, View());
    }

    method CountDown(o: nat)
      requires Valid() && owed[o] > pinned[o]
      modifies this`objs, this`owed
      ensures Valid() && owed == old(owed) - One(o)
      ensures old(o in Live(View()) && objs[o].memcount > 0)
      ensures View() == WithCount(old(View()), o, old(objs)[o].memcount - 1)
      ensures Live(View()) == old(Live(View())) && o in objs
    {
      ghost var m := View();
      Dropped(m, owed, o);
      objs := objs[o := objs[o].(memcount := objs[o].memcount - 1)];
      owed := owed - One(o);
      AnchoredSame(m, View());
    }

    /** The common tail of __egl_decr_ptr and __egl_check_ptr for an object whose count is zero; only the former
        marks the object with -20 before its teardown. */
    method Destroy(o: nat, mark: bool)
      requires Valid() && o in Live(View()) && objs[o].memcount == 0
      modifies this
      ensures Valid() && owed == old(owed) && o !in objs
      ensures Settled(old(View()), View())
      ensures var m := old(View()); Upholds(m.(doomed := m.doomed + {o}), View(), owed)
      decreases Live(View()), 0
    {
      ghost var m := View();
      ghost var h := Doom(o, mark);
      ghost var d := View();
      if objs[o].teardown {
        Teardown(o);
      } else {
        Strip(o);
      }
      ghost var n := View();
      Free(o);
      Freed(n, owed, o);
      Destroyed(m, o, h, n);
      DestroyedUpholds(m, owed, o, h, d, n);
      AnchoredFreed(n, owed, o);
    }

    /** Clear the weak pointers to an object about to be destroyed, and mark it. */
    method Doom(o: nat, mark: bool) returns (ghost h: Header)
      requires Valid() && o in Live(View()) && objs[o].memcount == 0
      modifies this`objs, this`cells, this`doomed
      ensures Valid() && View() == Dooming(old(View()), o, h)
      ensures h.size == old(objs)[o].size && h.teardown == old(objs)[o].teardown
      ensures h.memcount == if h.teardown && mark then -20 else 0
      ensures Own(o, h.size) !! idle
    {
      ghost var m := View();
      UnreferencedIntact(m, owed, o, objs[o].size);
      Accounted(m, owed, o);
      ClearWeak(o);
      if objs[o].teardown && mark {
        objs := objs[o := objs[o].(memcount := -20)];
      }
      doomed := doomed + {o};
      h := objs[o];
      AsDoomed(m, o, View());
      Doomed(m, owed, o, h);
      AnchoredDooming(m, owed, o, h);
    }

    method ClearWeak(o: nat)
      requires o in objs && Registry(objs[o], cells, idle, o)
      modifies this`cells
      ensures cells == map p | p in old(cells) ::
                         if p in WeakHolders(old(cells), idle, o) then Weak(Nil) else old(cells)[p]
    {
      ListedCells(objs[o], cells, idle, o);
      if objs[o].wrefal > 0 {
        SetNil(objs[o].wrefs, objs[o].wrefct);
      }
    }

    /** An object without counted or weak fields has nothing to tear down. */
    ghost method Strip(o: nat)
      requires Valid() && o in objs && o in doomed && !objs[o].teardown
      modifies this`idle
      ensures Valid() && idle == old(idle) + Own(o, objs[o].size)
      ensures Settled(old(View()).(idle := old(idle) + Own(o, objs[o].size)), View())
      ensures Upholds(old(View()), View(), owed)
    {
      PlainIdle(View(), owed, o);
      AnchoredStripped(View(), owed, o, objs[o].size);
      idle := idle + Own(o, objs[o].size);
      SettledSelf(View());
      UpholdsElsewhere(old(View()), View(), owed);
    }

    /** The generated destructor: give up every field, in order. */
    method Teardown(o: nat)
      requires Valid() && o in doomed && o in objs && Own(o, objs[o].size) !! idle
      modifies this
      ensures Valid() && owed == old(owed)
      ensures var m := old(View()); o in m.objs && Settled(m.(idle := m.idle + Own(o, m.objs[o].size)), View())
      ensures o in objs && Own(o, objs[o].size) <= idle && Upholds(old(View()), View(), owed)
      decreases Live(View()), 4
    {
      ghost var m := View();
      var size := objs[o].size;
      SettledSelf(m);
      assert m.idle + Own(o, 0) == m.idle;
      var k := 0;
      while k < size
        invariant k <= size && Valid() && owed == old(owed)
        invariant Settled(m.(idle := m.idle + Own(o, k)), View())
        invariant Live(View()) <= Live(m) && Upholds(m, View(), owed)
      {
        ghost var b := View();
        FieldInUse(m, b, o, k);
        GiveUp(Field(o, k));
        NextField(m, b, View(), o, k);
        UpholdsTrans(m, b, View(), owed);
        k := k + 1;
      }
    }

    /** What the generated destructor does to one field. */
    method GiveUp(p: Place)
      requires Valid() && InUse(View(), p) && p.Field? && p.obj in doomed
      modifies this
      ensures Valid() && owed == old(owed)
      ensures Settled(Idled(old(View()), p), View()) && Upholds(old(View()), View(), owed)
      decreases Live(View()), 3
    {
      ghost var m := Idled(View(), p);
      ghost var a := View();
      AnchoredIdled(View(), owed, p);
      match cells[p]
      case Strong(ptr) =>
        Relinquish(p);
        DecrPtr(ptr);
        GivenUp(a, m, View(), owed, p);
      case Weak(_) =>
        RemoveWeak(p);
 UnlistedUpholds(m, View(), owed);
        AnchoredSettled(m, View(), owed);
        GivenUp(a, m, View(), owed, p);
      case Plain =>
        IdleEmpty(View(), owed, p);
        idle := idle + {p};
        SettledSelf(View());
        GivenUp(a, m, View(), owed, p);
    }

    /** The reference in a counted cell becomes owed. */
    ghost method Relinquish(p: Place)
      requires Inv(View(), owed) && InUse(View(), p) && cells[p].Strong?
      modifies this`idle, this`owed
      ensures Inv(View(), owed) && View() == Idled(old(View()), p) && owed == old(owed) + RefsIn(cells[p].ptr)
    {
      if cells[p].ptr.At? {
        IdleStrong(View(), owed, p, cells[p].ptr.obj);
      } else {
        IdleEmpty(View(), owed, p);
      }
      idle := idle + {p};
      owed := owed + RefsIn(cells[p].ptr);
    }
  }

  lemma EmptyMemory()
    ensures var m := Mem(map[], map[], {}, {}, multiset{}); Inv(m, multiset{}) && Anchored(m)
  {
    var m := Mem(map[], map[], {}, {}, multiset{});
    assert Live(m) == {};
  }

  lemma WeakTarget(m: Mem, owed: multiset<nat>, p: Place, t: nat)
    requires Inv(m, owed) && InUse(m, p) && m.cells[p] == Weak(At(t))
    ensures t in Live(m) && m.objs[t].wrefct <= m.objs[t].wrefal == |m.objs[t].wrefs| && p in Places(Entries(m.objs[t]))
  {
    Accounted(m, owed, t);
    assert p in WeakHolders(m.cells, m.idle, t);
  }

  lemma Unhooked(m: Mem, owed: multiset<nat>, p: Place, t: nat, i: nat, k: Header, n: Mem)
    requires Inv(m, owed) && InUse(m, p) && m.cells[p] == Weak(At(t)) && t in Live(m)
    requires i < m.objs[t].wrefct <= |m.objs[t].wrefs| && m.objs[t].wrefs[i] == Pos(p)
    requires Relisted(m.objs[t], k, Entries(m.objs[t])[..i] + Entries(m.objs[t])[i + 1..])
    requires n == Idled(WithHeader(m, t, k), p)
    ensures Inv(n, owed) && Settled(Idled(m, p), n) && SameButLists(m.objs, n.objs)
  {
    Unlisted(m, owed, p, t, i, k);
  }

  lemma NilUnlisted(m: Mem, owed: multiset<nat>, p: Place)
    requires Inv(m, owed) && InUse(m, p) && m.cells[p] == Weak(Nil)
    ensures Inv(Idled(m, p), owed) && Settled(Idled(m, p), Idled(m, p))
  {
    IdleEmpty(m, owed, p);
    SettledSelf(Idled(m, p));
  }

  lemma OwedLive(m: Mem, owed: multiset<nat>, ptr: Ptr)
    requires Inv(m, owed) && (ptr.At? ==> owed[ptr.obj] > m.pinned[ptr.obj])
    ensures ptr.At? ==> ptr.obj in Live(m) && m.objs[ptr.obj].memcount > 0
  {
    if ptr.At? {
      Accounted(m, owed, ptr.obj);
    }
  }

  /** The fields of an object under teardown hold nothing up. */
  lemma GivenUp(m: Mem, d: Mem, n: Mem, owed: multiset<nat>, p: Place)
    requires d == Idled(m, p) && p.Field? && p.obj in m.doomed && (n == d || Upholds(d, n, owed))
    ensures Upholds(m, n, owed)
  {
    UpholdsElsewhere(m, d, owed);
  }

  /** Lists of weak cells hold nothing up. */
  lemma UnlistedUpholds(m: Mem, n: Mem, owed: multiset<nat>)
    requires n.cells == m.cells && n.idle == m.idle && n.doomed == m.doomed && SameButLists(m.objs, n.objs)
    ensures Upholds(m, n, owed)
  {
    UpholdsElsewhere(m, n, owed);
  }

  /** Destroying an object touches nothing that is held up without it. */
  lemma DestroyedUpholds(m: Mem, owed: multiset<nat>, o: nat, h: Header, d: Mem, n: Mem)
    requires d == Dooming(m, o, h) && Upholds(d, n, owed) && o in n.doomed
    ensures Upholds(m.(doomed := m.doomed + {o}), Freeing(n, o), owed)
  {
    UpholdsElsewhere(m.(doomed := m.doomed + {o}), d, owed);
    UpholdsElsewhere(n, Freeing(n, o), owed);
  }

  /** An object without counted or weak fields has nothing to give up. */
  lemma PlainIdle(m: Mem, owed: multiset<nat>, o: nat)
    requires Inv(m, owed) && o in m.objs && !m.objs[o].teardown
    ensures Inv(m.(idle := m.idle + Own(o, m.objs[o].size)), owed)
  {
    var n := m.(idle := m.idle + Own(o, m.objs[o].size));
    forall p | p in Own(o, m.objs[o].size)
      ensures p in m.cells && m.cells[p] == Plain
    {
      var k :| 0 <= k < m.objs[o].size && p == Field(o, k);
    }
    forall t | t in Live(n)
      ensures n.objs[t].memcount == |Holders(n.cells, n.idle, t)| + owed[t]
      ensures Registry(n.objs[t], n.cells, n.idle, t)
    {
      assert Holders(n.cells, n.idle, t) == Holders(m.cells, m.idle, t);
      assert WeakHolders(n.cells, n.idle, t) == WeakHolders(m.cells, m.idle, t);
      RegistryKept(m.objs[t], m.cells, m.idle, n.cells, n.idle, t);
    }
  }

  /** The next field of the object under teardown is still there and still holds its reference. */
  lemma FieldInUse(a: Mem, b: Mem, o: nat, k: nat)
    requires Layout(b) && o in a.doomed && o in a.objs && k < a.objs[o].size && Own(o, a.objs[o].size) !! a.idle
    requires Settled(a.(idle := a.idle + Own(o, k)), b)
    ensures o in b.objs && b.objs[o] == a.objs[o] && o in b.doomed && InUse(b, Field(o, k))
  {
  }

  /** One more field of the object under teardown has been dealt with. */
  lemma NextField(a: Mem, b: Mem, c: Mem, o: nat, k: nat)
    requires Settled(a.(idle := a.idle + Own(o, k)), b) && Field(o, k) in b.cells
    requires Settled(Idled(b, Field(o, k)), c)
    ensures Settled(a.(idle := a.idle + Own(o, k + 1)), c)
    ensures Live(c) <= Live(a)
  {
    var p := Field(o, k);
    assert Own(o, k + 1) == Own(o, k) + {p};
    assert a.idle + Own(o, k) + {p} == a.idle + Own(o, k + 1);
    SettledIdle(a.(idle := a.idle + Own(o, k)), b, p);
    SettledTrans(a.(idle := a.idle + Own(o, k + 1)), Idled(b, p), c);
  }

  lemma AsDoomed(m: Mem, o: nat, n: Mem)
    requires o in m.objs && o in n.objs && n.objs == m.objs[o := n.objs[o]]
    requires n.doomed == m.doomed + {o} && n.idle == m.idle && n.cells.Keys == m.cells.Keys && n.pinned == m.pinned
    requires forall p :: p in m.cells ==>
      n.cells[p] == if p in WeakHolders(m.cells, m.idle, o) then Weak(Nil) else m.cells[p]
    ensures n == Dooming(m, o, n.objs[o])
  {
  }

  lemma ListedCells(h: Header, cells: map<Place, Content>, idle: set<Place>, o: nat)
    requires Registry(h, cells, idle, o)
    ensures forall i :: 0 <= i < h.wrefct ==> h.wrefs[i].Pos? && h.wrefs[i].place in cells
    ensures forall p :: Pos(p) in h.wrefs[..h.wrefct] <==> p in WeakHolders(cells, idle, o)
  {
    forall i | 0 <= i < h.wrefct
      ensures h.wrefs[i].Pos? && h.wrefs[i].place in cells
    {
      assert Entries(h)[i] == h.wrefs[i];
      assert h.wrefs[i].place in Places(Entries(h));
    }
  }

  /** The list without entry `idx`: shifted down by one, or simply shortened at its end. */
  function ShiftedOut(h: Header, idx: nat): (k: Header)
    requires idx < h.wrefct <= h.wrefal == |h.wrefs|
    ensures Relisted(h, k, Entries(h)[..idx] + Entries(h)[idx + 1..])
  {
    var last := h.wrefct - 1;
    if idx == last then
      h.(wrefct := last, wrefs := h.wrefs[idx := Unset])
    else
      h.(wrefct := last, wrefs := (h.wrefs[..idx] + h.wrefs[idx + 1..h.wrefct] + h.wrefs[last..])[last := Unset])
  }

  /** A count that stays positive, or an object destroyed at zero. */
  lemma CountedDown(m: Mem, o: nat, d: Mem, n: Mem)
    requires Layout(m) && Sound(m) && o in Live(m) && m.objs[o].memcount > 0
    requires d == WithCount(m, o, m.objs[o].memcount - 1)
    requires if d.objs[o].memcount == 0 then o !in n.objs && Settled(d, n) else n == d
    ensures Settled(m, n) && Spared(m, o, n)
  {
    assert Live(d) == Live(m);
    if d.objs[o].memcount != 0 {
      DropSettled(m, o);
    }
  }
}
