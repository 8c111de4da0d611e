/** What the compiler emits around the runtime: stores, scope ends, transients and allocation. */
module CountedStores {
  import opened CountedMemory
  import opened CountedSteps
  import opened CountedReach
  import opened CountedRuntime

  /** Between statements nothing is being destroyed and every cell is in use. */
  ghost predicate Steady(rt: Runtime)
    reads rt
  {
    rt.Valid() && rt.doomed == {} && rt.idle == {}
  }

  predicate Points(objs: map<nat, Header>, ptr: Ptr) {
    ptr.At? ==> ptr.obj in objs
  }

  /** __egl_incr_ptr: the new reference is owed to whoever is going to hold it. An object being destroyed can owe
      nothing, and its count stays as it is if its destruction has marked it. */
  method IncrPtr(rt: Runtime, ptr: Ptr)
    requires rt.Valid() && Points(rt.objs, ptr)
    modifies rt`objs, rt`owed
    ensures rt.Valid() && rt.owed == old(rt.owed) + Owing(rt.doomed, ptr)
    ensures Points(old(rt.objs), ptr) && rt.objs == Incremented(old(rt.objs), ptr)
    ensures ptr.At? && ptr.obj !in rt.doomed ==> rt.objs[ptr.obj].memcount == old(rt.objs)[ptr.obj].memcount + 1
  {
    ghost var m, owed := rt.View(), rt.owed;
    if ptr.At? && rt.objs[ptr.obj].memcount > -5 {
      rt.objs := rt.objs[ptr.obj := rt.objs[ptr.obj].(memcount := rt.objs[ptr.obj].memcount + 1)];
    }
    rt.owed := rt.owed + Owing(rt.doomed, ptr);
    Increment(m, owed, ptr, rt.View());
  }

  /** The reference that counting up makes owed. */
  ghost function Owing(doomed: set<nat>, ptr: Ptr): multiset<nat> {
    if ptr.At? && ptr.obj in doomed then multiset{} else RefsIn(ptr)
  }

  function Incremented(objs: map<nat, Header>, ptr: Ptr): map<nat, Header>
    requires Points(objs, ptr)
  {
    if ptr.Nil? || objs[ptr.obj].memcount <= -5 then objs
    else objs[ptr.obj := objs[ptr.obj].(memcount := objs[ptr.obj].memcount + 1)]
  }

  lemma Increment(m: Mem, owed: multiset<nat>, ptr: Ptr, n: Mem)
    requires Inv(m, owed) && Anchored(m) && Points(m.objs, ptr) && n == m.(objs := Incremented(m.objs, ptr))
    ensures Inv(n, owed + Owing(m.doomed, ptr)) && Anchored(n)
    ensures ptr.At? && ptr.obj !in m.doomed ==> m.objs[ptr.obj].memcount >= 0
  {
    AnchoredSame(m, n);
    if ptr.Nil? {
      assert owed + RefsIn(ptr) == owed;
    } else if ptr.obj in m.doomed {
      assert owed + multiset{} == owed;
      CountIgnored(m, owed, ptr.obj, n.objs[ptr.obj].memcount);
      assert WithCount(m, ptr.obj, n.objs[ptr.obj].memcount) == n;
    } else {
      Raised(m, owed, ptr.obj);
      CountsNonnegative(m, owed, ptr.obj);
    }
  }

  /** The count of an object being destroyed means nothing to the accounting. */
  lemma CountIgnored(m: Mem, owed: multiset<nat>, o: nat, count: int)
    requires Inv(m, owed) && o in m.doomed && o in m.objs
    ensures Inv(WithCount(m, o, count), owed)
  {
    var n := WithCount(m, o, count);
    assert Live(n) == Live(m);
    forall t | t in Live(n)
      ensures n.objs[t].memcount == |Holders(n.cells, n.idle, t)| + owed[t]
      ensures Registry(n.objs[t], n.cells, n.idle, t)
    {
      Accounted(m, owed, t);
    }
  }

  lemma CountsNonnegative(m: Mem, owed: multiset<nat>, o: nat)
    requires Inv(m, owed) && o in Live(m)
    ensures m.objs[o].memcount >= 0
  {
    Accounted(m, owed, o);
  }

  /** A store replaced the reference in `p`: other cells are as before, except for weak pointers to objects that
      went away with the old reference; and exactly what is held up without `p` is still there. */
  ghost predicate StoredOver(m: Mem, n: Mem, owed: multiset<nat>, p: Place, c: Content) {
    n.objs.Keys <= m.objs.Keys && p in n.cells && n.cells[p] == c &&
    Untouched(m, n, {p}) && Survivors(Idled(m, p), n, owed)
  }

  /** The owner of a field is held up without that field, if only by the references `extra`. */
  ghost predicate OwnerStays(m: Mem, p: Place, extra: multiset<nat>) {
    p.Field? ==> Lasting(Idled(m, p), m.pinned + extra, p.obj)
  }

  /** ac_safe_store for a counted slot: count the new value up unless a temporary already owns it, release the
      old value, and store. The slot's owner must be held up by something else, if only by the new value. */
  method SafeStore(rt: Runtime, p: Place, val: Ptr, transient: bool)
    requires Steady(rt) && p in rt.cells && rt.cells[p].Strong? && Points(rt.objs, val)
    requires transient && val.At? ==> rt.owed[val.obj] > rt.pinned[val.obj]
    requires OwnerStays(rt.View(), p, RefsIn(val))
    modifies rt
    ensures Steady(rt) && rt.pinned == old(rt.pinned) && rt.owed == Holding(old(rt.owed), val, transient) - RefsIn(val)
    ensures StoredOver(old(rt.View()), rt.View(), Holding(old(rt.owed), val, transient), p, Strong(val))
    ensures ReachedStay(Idled(old(rt.View()), p), rt.View())
  {
    ghost var m := rt.View();
    CountNew(rt, val, transient);
    ghost var raised, held := rt.View(), rt.owed;
    OwnerSame(m, raised, p, RefsIn(val));
    StoreOwed(rt, p, val);
    StoredOverSame(m, raised, rt.View(), held, p, Strong(val));
  }

  /** What is owed while the old value is released: the new value's reference has been counted, here or before. */
  ghost function Holding(owed: multiset<nat>, val: Ptr, transient: bool): multiset<nat> {
    if transient then owed else owed + RefsIn(val)
  }

  lemma NowSpare(m: Mem, owed: multiset<nat>, val: Ptr)
    requires Inv(m, owed) && m.doomed == {}
    ensures Owing(m.doomed, val) == RefsIn(val)
    ensures val.At? ==> (owed + RefsIn(val))[val.obj] > m.pinned[val.obj]
  {
  }

  lemma PaidBack(owed: multiset<nat>, r: multiset<nat>)
    ensures owed + r - r == owed
  {
  }

  /** Nothing but the counts of objects that are owed something differs. */
  ghost predicate Recount(m: Mem, n: Mem, owed: multiset<nat>) {
    n.cells == m.cells && n.idle == m.idle && n.doomed == m.doomed && n.pinned == m.pinned &&
    n.objs.Keys == m.objs.Keys &&
    forall o :: o in m.objs ==> n.objs[o].memcount == m.objs[o].memcount || owed[o] > 0
  }

  /** The part of ac_safe_store that counts the new value, unless a temporary hands its reference over. */
  method CountNew(rt: Runtime, val: Ptr, transient: bool)
    requires Steady(rt) && Points(rt.objs, val)
    requires transient && val.At? ==> rt.owed[val.obj] > rt.pinned[val.obj]
    modifies rt`objs, rt`owed
    ensures Steady(rt) && Recount(old(rt.View()), rt.View(), rt.owed)
    ensures rt.owed == Holding(old(rt.owed), val, transient)
    ensures val.At? ==> rt.owed[val.obj] > rt.pinned[val.obj]
  {
    if !transient {
      NowSpare(rt.View(), rt.owed, val);
      IncrPtr(rt, val);
    }
  }

  /** The part of ac_safe_store after the new value has been counted: its reference, not yet stored, counts among
      those that hold the slot's owner up. */
  method StoreOwed(rt: Runtime, p: Place, val: Ptr)
    requires Steady(rt) && p in rt.cells && rt.cells[p].Strong?
    requires val.At? ==> rt.owed[val.obj] > rt.pinned[val.obj]
    requires OwnerStays(rt.View(), p, RefsIn(val))
    modifies rt
    ensures Steady(rt) && rt.owed == old(rt.owed) - RefsIn(val) && rt.pinned == old(rt.pinned)
    ensures StoredOver(old(rt.View()), rt.View(), old(rt.owed), p, Strong(val))
  {
    ghost var m, owed := rt.View(), rt.owed;
    ghost var more := rt.pinned + RefsIn(val);
    Pinned(m, rt.owed, more);
    OwnerSame(m, m.(pinned := more), p, multiset{});
    rt.pinned := more;
    ReleaseSlot(rt, p);
    ghost var after := rt.View();
    Pinned(after, owed, m.pinned);
    rt.pinned := m.pinned;
    FillSlot(rt, p, val);
    StoreSettles(m, m.(pinned := more), after, rt.View(), owed, p, Strong(val));
  }

  lemma StoredOverSame(m: Mem, raised: Mem, n: Mem, owed: multiset<nat>, p: Place, c: Content)
    requires Sound(m) && m.pinned <= owed && Recount(m, raised, owed) && StoredOver(raised, n, owed, p, c)
    ensures StoredOver(m, n, owed, p, c) && ReachedStay(Idled(m, p), n)
  {
    SustainedSame(Idled(m, p), Idled(raised, p), owed);
    ReachedSurvive(Idled(m, p), n, owed);
  }

  lemma OwnerSame(m: Mem, n: Mem, p: Place, extra: multiset<nat>)
    requires n.cells == m.cells && n.idle == m.idle && n.doomed == m.doomed && n.objs.Keys == m.objs.Keys
    requires m.pinned <= n.pinned && OwnerStays(m, p, n.pinned - m.pinned + extra)
    ensures OwnerStays(n, p, extra)
  {
    if p.Field? {
      assert m.pinned + (n.pinned - m.pinned + extra) == n.pinned + extra;
      LastingSame(Idled(m, p), Idled(n, p), n.pinned + extra, p.obj);
    }
  }

  /** Which owed references stay in place is a matter of choice while every cell is in use. */
  lemma Pinned(m: Mem, owed: multiset<nat>, pins: multiset<nat>)
    requires Inv(m, owed) && pins <= owed
    ensures Inv(m.(pinned := pins), owed) && (m.idle == {} ==> Anchored(m.(pinned := pins)))
  {
    var n := m.(pinned := pins);
    assert Live(n) == Live(m);
    forall o | o in Live(n)
      ensures n.objs[o].memcount == |Holders(n.cells, n.idle, o)| + owed[o]
      ensures Registry(n.objs[o], n.cells, n.idle, o)
    {
      Accounted(m, owed, o);
    }
    forall o | o in pins ensures o in Live(n) {
      assert o in owed;
    }
  }

  /** ac_decr_pointer on a slot: the old value is released while the slot still holds it. */
  method ReleaseSlot(rt: Runtime, p: Place)
    requires Steady(rt) && p in rt.cells && rt.cells[p].Strong?
    requires OwnerStays(rt.View(), p, multiset{})
    modifies rt
    ensures rt.Valid() && rt.doomed == {} && rt.idle == {p} && p in rt.cells && CanHold(rt.View(), p)
    ensures Settled(Idled(old(rt.View()), p), rt.View()) && rt.owed == old(rt.owed)
    ensures Survivors(Idled(old(rt.View()), p), rt.View(), rt.owed)
  {
    ghost var m, owed := rt.View(), rt.owed;
    AnchoredSlot(m, p);
    var ptr := rt.cells[p].ptr;
    rt.Relinquish(p);
    rt.DecrPtr(ptr);
    assert owed + RefsIn(ptr) - RefsIn(ptr) == owed;
    SlotSurvives(m, owed, rt.View(), p);
  }

  /** The store itself: the slot takes over a reference that is owed. */
  method FillSlot(rt: Runtime, p: Place, val: Ptr)
    requires Inv(rt.View(), rt.owed) && rt.doomed == {} && rt.idle == {p} && CanHold(rt.View(), p)
    requires val.At? ==> rt.owed[val.obj] > rt.pinned[val.obj]
    modifies rt`cells, rt`idle, rt`owed
    ensures Steady(rt) && rt.owed == old(rt.owed) - RefsIn(val)
    ensures rt.View() == Filled(old(rt.View()), p, Strong(val))
  {
    ghost var m, owed := rt.View(), rt.owed;
    rt.cells := rt.cells[p := Strong(val)];
    rt.idle := {};
    rt.owed := rt.owed - RefsIn(val);
    StrongStored(m, owed, p, val, rt.View());
  }

  lemma StrongStored(m: Mem, owed: multiset<nat>, p: Place, val: Ptr, n: Mem)
    requires Inv(m, owed) && m.doomed == {} && m.idle == {p} && CanHold(m, p)
    requires val.At? ==> owed[val.obj] > m.pinned[val.obj]
    requires n == m.(cells := m.cells[p := Strong(val)], idle := {})
    ensures Inv(n, owed - RefsIn(val)) && Anchored(n) && n == Filled(m, p, Strong(val))
  {
    assert m.idle - {p} == {};
    if val.At? {
      FillStrong(m, owed, p, val.obj);
    } else {
      FillEmpty(m, owed, p, Strong(val));
      assert owed - RefsIn(val) == owed;
    }
  }

  /** Setting aside a cell of an object that is held up otherwise. */
  lemma AnchoredSlot(m: Mem, p: Place)
    requires m.idle == {} && OwnerStays(m, p, multiset{})
    ensures Anchored(Idled(m, p))
  {
    assert m.pinned + multiset{} == m.pinned;
  }

  /** The slot outlives the release of its old value. */
  lemma SlotSurvives(m: Mem, owed: multiset<nat>, after: Mem, p: Place)
    requires Layout(m) && Layout(after) && Settled(Idled(m, p), after) && Survivors(Idled(m, p), after, owed)
    requires p in m.cells && m.cells[p].Strong? && m.idle == {} && after.doomed == {}
    requires m.pinned <= owed && OwnerStays(m, p, multiset{})
    ensures p in after.cells && after.idle == {p} && CanHold(after, p)
  {
    if p.Field? {
      assert m.pinned + multiset{} == m.pinned;
      LastingSustained(Idled(m, p), owed, p.obj);
      assert p.obj in Live(after);
    }
  }

  lemma StoreSettles(m: Mem, d: Mem, after: Mem, n: Mem, owed: multiset<nat>, p: Place, c: Content)
    requires Layout(m) && Layout(after) && m.idle == {} && after.doomed == {} && p in after.cells
    requires d == m.(pinned := d.pinned) && Settled(Idled(d, p), after) && Survivors(Idled(d, p), after, owed)
    requires n == Filled(after.(pinned := m.pinned), p, c)
    ensures StoredOver(m, n, owed, p, c)
  {
    assert Live(n) == Live(after) && Idled(m, p).idle == {p};
    SettledUntouched(d, after, {p});
    assert forall q :: q in n.cells <==> q in after.cells;
    SustainedSame(Idled(m, p), Idled(d, p), owed);
  }

  // ---------------------------------------------------------------- weak stores

  /** ac_safe_store for a weak slot: leave the old target's list, join the new one's, and store. */
  method SafeStoreWeak(rt: Runtime, p: Place, val: Ptr)
    requires Steady(rt) && p in rt.cells && rt.cells[p].Weak? && Points(rt.objs, val)
    modifies rt
    ensures Steady(rt) && rt.owed == old(rt.owed) && rt.pinned == old(rt.pinned)
    ensures rt.cells == old(rt.cells)[p := Weak(val)] && SameButLists(old(rt.objs), rt.objs)
  {
    rt.RemoveWeak(p);
    LinkWeak(rt, p, val);
  }

  /** The second half of a weak store. */
  method LinkWeak(rt: Runtime, p: Place, val: Ptr)
    requires Inv(rt.View(), rt.owed) && rt.doomed == {} && rt.idle == {p} && rt.cells[p].Weak? && Points(rt.objs, val)
    modifies rt`objs, rt`cells, rt`idle
    ensures Steady(rt) && rt.cells == old(rt.cells)[p := Weak(val)] && SameButLists(old(rt.objs), rt.objs)
  {
    ghost var n := rt.View();
    TargetListed(n, rt.owed, val);
    rt.AddWeak(val, p);
    rt.cells := rt.cells[p := Weak(val)];
    rt.idle := {};
    WeakStored(n, rt.owed, p, val, rt.View());
  }

  lemma WeakStored(n: Mem, owed: multiset<nat>, p: Place, val: Ptr, after: Mem)
    requires Inv(n, owed) && n.idle == {p} && n.doomed == {} && Points(n.objs, val)
    requires n.cells[p].Weak?
    requires after.cells == n.cells[p := Weak(val)] && after.idle == {} && after.doomed == {} &&
      after.pinned == n.pinned
    requires val.At? ==> Roomy(n.objs[val.obj])
    requires after.objs == Linked(n.objs, p, val)
    ensures Inv(after, owed) && Anchored(after)
    ensures SameButLists(n.objs, after.objs)
  {
    assert n.idle - {p} == {};
    if val.At? {
      Enlisted(n, owed, p, val.obj, after.objs[val.obj]);
    } else {
      FillEmpty(n, owed, p, Weak(Nil));
    }
  }

  predicate Roomy(h: Header) { h.wrefct <= h.wrefal == |h.wrefs| }

  function Linked(objs: map<nat, Header>, p: Place, val: Ptr): map<nat, Header>
    requires Points(objs, val) && (val.At? ==> Roomy(objs[val.obj]))
  {
    if val.Nil? then objs else objs[val.obj := Appended(objs[val.obj], p)]
  }

  lemma TargetListed(m: Mem, owed: multiset<nat>, ptr: Ptr)
    requires Inv(m, owed) && m.doomed == {} && Points(m.objs, ptr)
    ensures ptr.At? ==> Roomy(m.objs[ptr.obj]) && m.objs[ptr.obj].memcount >= 0
  {
    if ptr.At? {
      Accounted(m, owed, ptr.obj);
    }
  }

  // ---------------------------------------------------------------- transients, scopes, allocation

  /** __egl_check_ptr: a new object that no slot took is destroyed at the end of the statement. */
  method CheckPtr(rt: Runtime, ptr: Ptr)
    requires Steady(rt) && Points(rt.objs, ptr)
    modifies rt
    ensures Steady(rt) && rt.owed == old(rt.owed) && rt.pinned == old(rt.pinned)
    ensures Settled(old(rt.View()), rt.View())
    ensures ptr.At? ==> (ptr.obj in rt.objs <==> old(rt.objs)[ptr.obj].memcount != 0)
    ensures Survivors(old(rt.View()).(doomed := Unclaimed(old(rt.objs), ptr)), rt.View(), rt.owed)
  {
    ghost var m := rt.View();
    SettledSelf(m);
    if ptr.Nil? || rt.objs[ptr.obj].memcount < 0 {
      UnclaimedGone(m, m, rt.owed, ptr);
      return;
    }
    if rt.objs[ptr.obj].memcount == 0 {
      rt.Destroy(ptr.obj, false);
    }
    UnclaimedGone(m, rt.View(), rt.owed, ptr);
  }

  /** What __egl_check_ptr is going to destroy. */
  function Unclaimed(objs: map<nat, Header>, ptr: Ptr): set<nat>
    requires Points(objs, ptr)
  {
    if ptr.At? && objs[ptr.obj].memcount == 0 then {ptr.obj} else {}
  }

  lemma UnclaimedGone(m: Mem, n: Mem, owed: multiset<nat>, ptr: Ptr)
    requires Points(m.objs, ptr) && m.doomed == {} && Inv(n, owed) && Settled(m, n) && n.doomed == {}
    requires var gone := Unclaimed(m.objs, ptr);
      gone !! n.objs.Keys && if gone == {} then n == m else Upholds(m.(doomed := m.doomed + gone), n, owed)
    ensures Survivors(m.(doomed := Unclaimed(m.objs, ptr)), n, owed)
  {
    var d := m.(doomed := Unclaimed(m.objs, ptr));
    assert d.doomed == m.doomed + d.doomed;
    SurvivorsHeld(m, n, owed);
    forall o | o in Live(n)
      ensures Held(d, owed, Live(n), {}, o)
    {
      assert Held(m, owed, Live(n), {}, o);
      assert forall p :: Holds(m, Live(n), {}, p, o) ==> Holds(d, Live(n), {}, p, o);
    }
    HeldExactly(d, n, owed);
  }

  /** A local cell that gave its reference up can disappear. */
  lemma LocalDropped(m: Mem, owed: multiset<nat>, p: Place)
    requires Inv(m, owed) && p.Local? && m.idle == {p} && m.doomed == {}
    ensures var n := m.(cells := m.cells - {p}, idle := {}); Inv(n, owed) && Anchored(n)
  {
    var n := m.(cells := m.cells - {p}, idle := {});
    forall o | o in Live(n)
      ensures n.objs[o].memcount == |Holders(n.cells, n.idle, o)| + owed[o]
      ensures Registry(n.objs[o], n.cells, n.idle, o)
    {
      assert Holders(n.cells, n.idle, o) == Holders(m.cells, m.idle, o);
      assert WeakHolders(n.cells, n.idle, o) == WeakHolders(m.cells, m.idle, o);
    }
  }

  /** ac_scope_leave_callback and ac_scope_leave_weak_callback: a local goes out of scope. */
  method LeaveScope(rt: Runtime, k: nat)
    requires Steady(rt) && Local(k) in rt.cells && !rt.cells[Local(k)].Plain?
    modifies rt
    ensures Steady(rt) && rt.owed == old(rt.owed) && rt.pinned == old(rt.pinned)
    ensures Local(k) !in rt.cells && Survivors(Idled(old(rt.View()), Local(k)), rt.View(), rt.owed)
    ensures Untouched(old(rt.View()), rt.View(), {Local(k)})
    ensures ReachedStay(Idled(old(rt.View()), Local(k)), rt.View())
  {
    ghost var m := rt.View();
    ReleaseLocal(rt, Local(k));
    ghost var d := rt.View();
    rt.cells := rt.cells - {Local(k)};
    rt.idle := {};
    ScopeLeft(m, rt.owed, Local(k), d, rt.View());
  }

  lemma ScopeLeft(m: Mem, owed: multiset<nat>, p: Place, d: Mem, n: Mem)
    requires Inv(m, owed) && m.idle == {} && Inv(d, owed) && d.doomed == {} && d.idle == {p} && p.Local?
    requires Settled(Idled(m, p), d) && Survivors(Idled(m, p), d, owed)
    requires n == d.(cells := d.cells - {p}, idle := {})
    ensures Inv(n, owed) && Anchored(n) && Survivors(Idled(m, p), n, owed) && Untouched(m, n, {p})
    ensures ReachedStay(Idled(m, p), n)
  {
    ReachedSurvive(Idled(m, p), d, owed);
    SettledUntouched(m, d, {p});
    assert Live(n) == Live(d);
    LocalDropped(d, owed, p);
  }

  /** The scope-leave callback itself; the cell keeps its stale value, idle. */
  method ReleaseLocal(rt: Runtime, p: Place)
    requires Steady(rt) && p in rt.cells && p.Local? && !rt.cells[p].Plain?
    modifies rt
    ensures rt.Valid() && rt.doomed == {} && rt.idle == {p} && rt.owed == old(rt.owed) && rt.pinned == old(rt.pinned)
    ensures Survivors(Idled(old(rt.View()), p), rt.View(), rt.owed)
    ensures Settled(Idled(old(rt.View()), p), rt.View())
  {
    if rt.cells[p].Strong? {
      ReleaseSlot(rt, p);
    } else {
      ReleaseWeak(rt, p);
    }
  }

  method ReleaseWeak(rt: Runtime, p: Place)
    requires Steady(rt) && p in rt.cells && p.Local? && rt.cells[p].Weak?
    modifies rt`objs, rt`idle
    ensures rt.Valid() && rt.idle == {p} && Survivors(Idled(old(rt.View()), p), rt.View(), rt.owed)
    ensures Settled(Idled(old(rt.View()), p), rt.View())
  {
    ghost var d := Idled(rt.View(), p);
    rt.RemoveWeak(p);
    UnlistedUpholds(d, rt.View(), rt.owed);
    SurvivorsExactly(d, rt.View(), rt.owed);
  }

  /** A declaration brings a nil local into scope. */
  method Declare(rt: Runtime, k: nat, weak: bool)
    requires Steady(rt) && Local(k) !in rt.cells
    modifies rt`cells
    ensures Steady(rt) && rt.cells == old(rt.cells)[Local(k) := if weak then Weak(Nil) else Strong(Nil)]
  {
    ghost var m := rt.View();
    rt.cells := rt.cells[Local(k) := if weak then Weak(Nil) else Strong(Nil)];
    Declared(m, rt.owed, Local(k), rt.cells[Local(k)]);
  }

  lemma Declared(m: Mem, owed: multiset<nat>, p: Place, c: Content)
    requires Inv(m, owed) && p.Local? && p !in m.cells && !c.Plain? && c.ptr.Nil? && m.idle == {}
    ensures var n := m.(cells := m.cells[p := c]); Inv(n, owed) && Anchored(n)
  {
    var n := m.(cells := m.cells[p := c]);
    forall o | o in Live(n)
      ensures n.objs[o].memcount == |Holders(n.cells, n.idle, o)| + owed[o]
      ensures Registry(n.objs[o], n.cells, n.idle, o)
    {
      assert Holders(n.cells, n.idle, o) == Holders(m.cells, m.idle, o);
      assert WeakHolders(n.cells, n.idle, o) == WeakHolders(m.cells, m.idle, o);
    }
  }

  /** The initial contents of a field, as the generated constructor writes them. */
  predicate Initial(c: Content) { c.Plain? || c.ptr.Nil? }

  /** `new`: __egl_prepare and the generated constructor on memory the allocator picked. The object starts with no
      references, and it gets a destructor exactly when it has counted or weak fields. */
  method Allocate(rt: Runtime, o: nat, fields: seq<Content>)
    requires Steady(rt) && o !in rt.objs && forall k :: 0 <= k < |fields| ==> Initial(fields[k])
    modifies rt`objs, rt`cells
    ensures Steady(rt) && rt.objs.Keys == old(rt.objs).Keys + {o} && rt.objs[o].memcount == 0
    ensures forall k :: 0 <= k < |fields| ==> Field(o, k) in rt.cells && rt.cells[Field(o, k)] == fields[k]
    ensures forall q :: q in old(rt.cells) ==> q in rt.cells && rt.cells[q] == old(rt.cells)[q]
    ensures rt.cells.Keys == old(rt.cells).Keys + Own(o, |fields|)
    ensures forall x :: x in old(rt.objs) ==> rt.objs[x] == old(rt.objs)[x]
  {
    ghost var m := rt.View();
    var counted := exists k :: 0 <= k < |fields| && !fields[k].Plain?;
    var h := Header(0, 0, 0, [], counted, |fields|);
    rt.objs := rt.objs[o := h];
    var added := map k | 0 <= k < |fields| :: Field(o, k) := fields[k];
    rt.cells := rt.cells + added;
    Allocated(m, rt.owed, o, h, added, rt.View());
  }

  /** The cells of a new object: its fields, all initial. */
  ghost predicate NewFields(o: nat, h: Header, added: map<Place, Content>) {
    (forall p :: p in added <==> p.Field? && p.obj == o && p.k < h.size) &&
    (forall p :: p in added ==> Initial(added[p]) && (h.teardown || added[p].Plain?))
  }

  lemma Allocated(m: Mem, owed: multiset<nat>, o: nat, h: Header, added: map<Place, Content>, n: Mem)
    requires Inv(m, owed) && o !in m.objs && m.idle == {} && m.doomed == {}
    requires h.memcount == 0 && h.wrefct == 0 == h.wrefal && h.wrefs == [] && NewFields(o, h, added)
    requires n == Mem(m.objs[o := h], m.cells + added, {}, {}, m.pinned)
    ensures Inv(n, owed) && Anchored(n)
  {
    AllocatedSound(m, owed, o, h, added, n);
    forall t | t in Live(n)
      ensures n.objs[t].memcount == |Holders(n.cells, n.idle, t)| + owed[t]
      ensures Registry(n.objs[t], n.cells, n.idle, t)
    {
      NothingAdded(m.cells, added, t);
      if t == o {
        NothingHeld(m, owed, o);
      } else {
        Accounted(m, owed, t);
      }
    }
  }

  lemma AllocatedSound(m: Mem, owed: multiset<nat>, o: nat, h: Header, added: map<Place, Content>, n: Mem)
    requires Inv(m, owed) && o !in m.objs && m.idle == {} && m.doomed == {} && NewFields(o, h, added)
    requires n == Mem(m.objs[o := h], m.cells + added, {}, {}, m.pinned)
    ensures Layout(n) && Sound(n) && m.cells.Keys !! added.Keys && Live(n) == Live(m) + {o}
  {
  }

  lemma NothingAdded(cells: map<Place, Content>, added: map<Place, Content>, t: nat)
    requires cells.Keys !! added.Keys && forall p :: p in added ==> Initial(added[p])
    ensures Holders(cells + added, {}, t) == Holders(cells, {}, t)
    ensures WeakHolders(cells + added, {}, t) == WeakHolders(cells, {}, t)
  {
  }

  lemma NothingHeld(m: Mem, owed: multiset<nat>, o: nat)
    requires Inv(m, owed) && o !in m.objs && m.idle == {}
    ensures Holders(m.cells, {}, o) == {} && WeakHolders(m.cells, {}, o) == {} && owed[o] == 0
  {
  }
}
