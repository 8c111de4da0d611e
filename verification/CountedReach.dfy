/** Which objects the program can still get at, and why a release cascade leaves them alone. */
module CountedReach {
  import opened CountedMemory
  import opened CountedSteps

  /** A chain of counted pointers in use, from a local or from an object that a temporary owns, to `o`. */
  predicate Chain(cells: map<Place, Content>, idle: set<Place>, pins: multiset<nat>, path: seq<Place>, o: nat)
    decreases |path|
  {
    if path == [] then o in pins
    else
      var last := path[|path| - 1];
      last in cells && last !in idle && cells[last] == Strong(At(o)) &&
      if last.Local? then |path| == 1 else Chain(cells, idle, pins, path[..|path| - 1], last.obj)
  }

  ghost predicate Reachable(m: Mem, o: nat) {
    exists path :: Chain(m.cells, m.idle, m.pinned, path, o)
  }

  /** A release never frees an object that a local still reaches. */
  lemma {:induction false} ChainSurvives(m: Mem, n: Mem, path: seq<Place>, o: nat)
    requires Layout(m) && Layout(n) && Sound(n) && Settled(m, n) && Chain(m.cells, m.idle, m.pinned, path, o)
    ensures Chain(n.cells, n.idle, n.pinned, path, o) && o in Live(n)
    decreases |path|
  {
    if path == [] {
      return;
    }
    var last := path[|path| - 1];
    if last.Field? {
      ChainSurvives(m, n, path[..|path| - 1], last.obj);
    }
    assert last in n.cells;
    assert n.cells[last] == Fade(n, m.cells[last]);
  }

  lemma ReachableSurvives(m: Mem, n: Mem)
    requires Layout(m) && Layout(n) && Sound(n) && Settled(m, n)
    ensures forall o :: Reachable(m, o) ==> o in Live(n) && Reachable(n, o)
  {
    forall o | Reachable(m, o)
      ensures o in Live(n) && Reachable(n, o)
    {
      var path :| Chain(m.cells, m.idle, m.pinned, path, o);
      ChainSurvives(m, n, path, o);
    }
  }

  // ---------------------------------------------------------------- what keeps objects in place

  /** Cell `p` is in use, and it is a local or a field of an object in `s`; the cells `x` do not count. */
  predicate Holds(m: Mem, s: set<nat>, x: set<Place>, p: Place, o: nat) {
    p in m.cells && p !in m.idle && p !in x && m.cells[p] == Strong(At(o)) && (p.Field? ==> p.obj in s)
  }

  /** `o` is held by a local, by an object in `s`, or by one of the references `roots`, which no cell owns. */
  ghost predicate Supported(m: Mem, roots: multiset<nat>, s: set<nat>, x: set<Place>, o: nat) {
    o in Live(m) && (roots[o] > 0 || exists p :: Holds(m, s, x, p, o))
  }

  ghost predicate Held(m: Mem, owed: multiset<nat>, s: set<nat>, x: set<Place>, o: nat) {
    o in Live(m) && (m.objs[o].memcount == 0 || Supported(m, owed, s, x, o))
  }

  /** The objects `s` hold each other up, with locals and what is owed; a new one that was never counted stays too. */
  ghost predicate Upheld(m: Mem, owed: multiset<nat>, s: set<nat>, x: set<Place>) {
    forall o :: o in s ==> Held(m, owed, s, x, o)
  }

  ghost predicate Sustained(m: Mem, owed: multiset<nat>, o: nat) {
    exists s :: o in s && Upheld(m, owed, s, {})
  }

  /** Cell `p` holds `o`, and its owner, if it has one, is held up in turn. */
  ghost predicate HeldBy(m: Mem, owed: multiset<nat>, p: Place, o: nat) {
    InUse(m, p) && m.cells[p] == Strong(At(o)) && (p.Field? ==> Sustained(m, owed, p.obj))
  }

  lemma NotSustained(m: Mem, owed: multiset<nat>, o: nat)
    requires o in Live(m) ==> m.objs[o].memcount != 0
    requires owed[o] == 0 && forall p :: !HeldBy(m, owed, p, o)
    ensures !Sustained(m, owed, o)
  {
    forall s | o in s
      ensures !Upheld(m, owed, s, {})
    {
      if Upheld(m, owed, s, {}) {
        assert Held(m, owed, s, {}, o);
        assert forall p :: Holds(m, s, {}, p, o) ==> HeldBy(m, owed, p, o);
      }
    }
  }

  /** From `a` to `b` nothing that was held up is lost, whichever cells are left out of account. */
  ghost predicate Upholds(a: Mem, b: Mem, owed: multiset<nat>) {
    forall s, x {:trigger Upheld(b, owed, s, x)} {:trigger Upheld(a, owed, s, x)} ::
      Upheld(a, owed, s, x) ==> Upheld(b, owed, s, x)
  }

  lemma UpholdsTrans(a: Mem, b: Mem, c: Mem, owed: multiset<nat>)
    requires Upholds(a, b, owed) && Upholds(b, c, owed)
    ensures Upholds(a, c, owed)
  {
  }

  /** Leaving cells out of account is the same as setting them aside. */
  lemma UpheldWithout(m: Mem, q: set<Place>, owed: multiset<nat>, s: set<nat>, x: set<Place>)
    ensures Upheld(m.(idle := m.idle + q), owed, s, x) <==> Upheld(m, owed, s, x + q)
  {
    var n := m.(idle := m.idle + q);
    forall o
      ensures Held(n, owed, s, x, o) <==> Held(m, owed, s, x + q, o)
    {
      assert forall p :: Holds(n, s, x, p, o) <==> Holds(m, s, x + q, p, o);
    }
  }

  /** Whatever was held up without the cells `p` still is, once those have given their references up. */
  ghost predicate UpheldSince(a: Mem, b: Mem, owed: multiset<nat>, p: set<Place>) {
    Upholds(a.(idle := a.idle + p), b, owed)
  }

  lemma UpheldBoth(a: Mem, b: Mem, c: Mem, owed: multiset<nat>, p: set<Place>, q: set<Place>)
    requires UpheldSince(a, b, owed, p) && UpheldSince(b, c, owed, q)
    ensures UpheldSince(a, c, owed, p + q)
  {
    var d := a.(idle := a.idle + p);
    assert a.(idle := a.idle + (p + q)) == d.(idle := d.idle + q);
    forall s, x | Upheld(d.(idle := d.idle + q), owed, s, x)
      ensures Upheld(c, owed, s, x)
    {
      UpheldWithout(d, q, owed, s, x);
      UpheldWithout(b, q, owed, s, x);
    }
  }

  /** The counted cells of live objects, and locals, are as before. */
  ghost predicate SameHolds(m: Mem, n: Mem) {
    forall p :: p in m.cells && p !in m.idle && m.cells[p].Strong? && (p.Field? ==> p.obj in Live(m)) ==>
      p in n.cells && p !in n.idle && n.cells[p] == m.cells[p]
  }

  lemma StillSupported(m: Mem, n: Mem, roots: multiset<nat>, s: set<nat>, x: set<Place>, o: nat)
    requires SameHolds(m, n) && s <= Live(m) && Supported(m, roots, s, x, o) && o in Live(n)
    ensures Supported(n, roots, s, x, o)
  {
    assert forall p :: Holds(m, s, x, p, o) ==> Holds(n, s, x, p, o);
  }

  /** Steps that touch no such cell and destroy nothing. */
  lemma UpholdsElsewhere(m: Mem, n: Mem, owed: multiset<nat>)
    requires Live(m) <= Live(n) && forall o :: o in Live(m) && m.objs[o].memcount == 0 ==> n.objs[o].memcount == 0
    requires SameHolds(m, n)
    ensures Upholds(m, n, owed)
  {
    forall s, x | Upheld(m, owed, s, x)
      ensures Upheld(n, owed, s, x)
    {
      assert s <= Live(m) by {
        assert forall o :: o in s ==> Held(m, owed, s, x, o);
      }
      forall o | o in s
        ensures Held(n, owed, s, x, o)
      {
        assert Held(m, owed, s, x, o);
        if Supported(m, owed, s, x, o) {
          StillSupported(m, n, owed, s, x, o);
        }
      }
    }
  }

  /** An object whose last reference was counted down is held up by nothing. */
  lemma LastDropped(m: Mem, owed: multiset<nat>, o: nat, d: Mem)
    requires o in Live(m) && m.objs[o].memcount == 1 && d == WithCount(m, o, 0) && Inv(d, owed)
    ensures Upholds(m, d.(doomed := d.doomed + {o}), owed)
  {
    NoHolders(d, owed, o);
    var n := d.(doomed := d.doomed + {o});
    forall s, x | Upheld(m, owed, s, x)
      ensures Upheld(n, owed, s, x)
    {
      assert o in s ==> Held(m, owed, s, x, o);
      forall t | t in s
        ensures Held(n, owed, s, x, t)
      {
        assert Held(m, owed, s, x, t);
        assert forall p :: Holds(m, s, x, p, t) ==> Holds(n, s, x, p, t);
      }
    }
  }

  /** What is live after a release holds itself up, and did so before. */
  lemma SurvivorsHeld(m: Mem, n: Mem, owed: multiset<nat>)
    requires Inv(n, owed) && Settled(m, n) && n.doomed == {}
    ensures Upheld(m, owed, Live(n), {})
  {
    var s := Live(n);
    forall o | o in s
      ensures Held(m, owed, s, {}, o)
    {
      Accounted(n, owed, o);
      if m.objs[o].memcount != 0 && owed[o] == 0 {
        assert Holders(n.cells, n.idle, o) != {};
        var p :| p in Holders(n.cells, n.idle, o);
        assert n.cells[p] == Fade(n, m.cells[p]);
        assert Holds(m, s, {}, p, o);
      }
    }
  }

  /** Exactly what was held up is still allocated. */
  ghost predicate Survivors(m: Mem, n: Mem, owed: multiset<nat>) {
    forall o :: o in n.objs <==> Sustained(m, owed, o)
  }

  /** A release frees everything but what is held up without the references it gives up. */
  lemma SurvivorsExactly(m: Mem, n: Mem, owed: multiset<nat>)
    requires Inv(n, owed) && Settled(m, n) && Upholds(m, n, owed)
    ensures n.doomed == {} ==> Survivors(m, n, owed)
  {
    if n.doomed == {} {
      SurvivorsHeld(m, n, owed);
      HeldExactly(m, n, owed);
    }
  }

  lemma HeldExactly(m: Mem, n: Mem, owed: multiset<nat>)
    requires Upholds(m, n, owed) && n.doomed == {} && Upheld(m, owed, Live(n), {})
    ensures Survivors(m, n, owed)
  {
    forall o
      ensures o in n.objs <==> Sustained(m, owed, o)
    {
      if Sustained(m, owed, o) {
        var s :| o in s && Upheld(m, owed, s, {});
        assert Upheld(n, owed, s, {}) && Held(n, owed, s, {}, o);
      } else {
        assert o !in Live(n);
      }
    }
  }

  /** Neither pins nor the counts of objects that are owed something matter. */
  lemma SustainedSame(a: Mem, b: Mem, owed: multiset<nat>)
    requires a.cells == b.cells && a.idle == b.idle && Live(a) == Live(b)
    requires forall o :: o in Live(a) ==> a.objs[o].memcount == b.objs[o].memcount || owed[o] > 0
    ensures forall o :: Sustained(a, owed, o) <==> Sustained(b, owed, o)
  {
    forall s: set<nat>, x: set<Place>
      ensures Upheld(a, owed, s, x) <==> Upheld(b, owed, s, x)
    {
      forall o
        ensures Held(a, owed, s, x, o) <==> Held(b, owed, s, x, o)
      {
        assert forall p :: Holds(a, s, x, p, o) <==> Holds(b, s, x, p, o);
      }
    }
  }

  // ---------------------------------------------------------------- owners of idle cells

  /** Each of the objects `s` has a reference from a local, from another one, or from `roots`. */
  ghost predicate Firm(m: Mem, roots: multiset<nat>, s: set<nat>) {
    forall o :: o in s ==> Supported(m, roots, s, {}, o)
  }

  ghost predicate Lasting(m: Mem, roots: multiset<nat>, o: nat) {
    exists s :: o in s && Firm(m, roots, s)
  }

  /** Every idle cell belongs to an object being destroyed, or to one that stays. */
  ghost predicate Anchored(m: Mem) {
    forall p :: p in m.idle && p.Field? ==> p.obj in m.doomed || Lasting(m, m.pinned, p.obj)
  }

  lemma LastingSame(a: Mem, b: Mem, roots: multiset<nat>, o: nat)
    requires a.cells == b.cells && a.idle == b.idle && Live(a) == Live(b) && Lasting(a, roots, o)
    ensures Lasting(b, roots, o)
  {
    var s :| o in s && Firm(a, roots, s);
    forall t | t in s
      ensures Supported(b, roots, s, {}, t)
    {
      assert Supported(a, roots, s, {}, t);
      assert forall p :: Holds(a, s, {}, p, t) <==> Holds(b, s, {}, p, t);
    }
    assert Firm(b, roots, s);
  }

  lemma LastingSustained(m: Mem, owed: multiset<nat>, o: nat)
    requires m.pinned <= owed && Lasting(m, m.pinned, o)
    ensures Sustained(m, owed, o)
  {
    var s :| o in s && Firm(m, m.pinned, s);
    forall t | t in s
      ensures Held(m, owed, s, {}, t)
    {
      assert Supported(m, m.pinned, s, {}, t);
    }
    assert Upheld(m, owed, s, {});
  }

  lemma FirmCounted(m: Mem, owed: multiset<nat>, s: set<nat>, o: nat)
    requires Inv(m, owed) && Firm(m, m.pinned, s) && o in s
    ensures o in Live(m) && m.objs[o].memcount > 0
  {
    Accounted(m, owed, o);
    assert Supported(m, m.pinned, s, {}, o);
    if m.pinned[o] == 0 {
      var p :| Holds(m, s, {}, p, o);
      assert p in Holders(m.cells, m.idle, o);
    }
  }

  lemma FirmStays(m: Mem, n: Mem, owed: multiset<nat>, s: set<nat>)
    requires m.pinned <= owed && Layout(m) && Layout(n) && Settled(m, n) && Upholds(m, n, owed)
    requires Firm(m, m.pinned, s)
    ensures Firm(n, n.pinned, s)
  {
    forall o | o in s
      ensures Held(m, owed, s, {}, o)
    {
      assert Supported(m, m.pinned, s, {}, o);
    }
    assert Upheld(n, owed, s, {});
    forall o | o in s
      ensures Supported(n, n.pinned, s, {}, o)
    {
      assert Supported(m, m.pinned, s, {}, o) && Held(n, owed, s, {}, o);
      if m.pinned[o] == 0 {
        var p :| Holds(m, s, {}, p, o);
        assert p.Field? ==> Held(n, owed, s, {}, p.obj);
        assert n.cells[p] == Fade(n, m.cells[p]);
        assert Holds(n, s, {}, p, o);
      }
    }
  }

  lemma AnchoredSettled(m: Mem, n: Mem, owed: multiset<nat>)
    requires m.pinned <= owed && Layout(m) && Layout(n) && Settled(m, n) && Upholds(m, n, owed) && Anchored(m)
    ensures Anchored(n)
  {
    forall p | p in n.idle && p.Field?
      ensures p.obj in n.doomed || Lasting(n, n.pinned, p.obj)
    {
      if p.obj !in m.doomed {
        var s :| p.obj in s && Firm(m, m.pinned, s);
        FirmStays(m, n, owed, s);
      }
    }
  }

  lemma FirmElsewhere(m: Mem, n: Mem, s: set<nat>)
    requires SameHolds(m, n) && s <= Live(n) && n.pinned == m.pinned && Firm(m, m.pinned, s)
    ensures Firm(n, n.pinned, s)
  {
    assert s <= Live(m) by {
      assert forall o :: o in s ==> Supported(m, m.pinned, s, {}, o);
    }
    forall o | o in s
      ensures Supported(n, n.pinned, s, {}, o)
    {
      StillSupported(m, n, m.pinned, s, {}, o);
    }
  }

  /** Steps that destroy nothing but objects without references, and set their fields aside. */
  lemma AnchoredElsewhere(m: Mem, n: Mem, owed: multiset<nat>)
    requires Inv(m, owed) && Anchored(m) && m.doomed <= n.doomed && n.pinned == m.pinned && SameHolds(m, n)
    requires forall o :: o in Live(m) && m.objs[o].memcount > 0 ==> o in Live(n)
    requires forall p :: p in n.idle && p !in m.idle && p.Field? ==> p.obj in n.doomed
    ensures Anchored(n)
  {
    forall p | p in n.idle && p.Field?
      ensures p.obj in n.doomed || Lasting(n, n.pinned, p.obj)
    {
      if p in m.idle && p.obj !in m.doomed {
        var s :| p.obj in s && Firm(m, m.pinned, s);
        forall o | o in s ensures o in Live(n) {
          FirmCounted(m, owed, s, o);
        }
        FirmElsewhere(m, n, s);
      }
    }
  }

  lemma AnchoredSame(m: Mem, n: Mem)
    requires Anchored(m) && n.cells == m.cells && n.idle == m.idle && n.doomed == m.doomed && n.pinned == m.pinned
    requires n.objs.Keys == m.objs.Keys
    ensures Anchored(n)
  {
    forall p | p in n.idle && p.Field?
      ensures p.obj in n.doomed || Lasting(n, n.pinned, p.obj)
    {
      if p.obj !in m.doomed {
        var s :| p.obj in s && Firm(m, m.pinned, s);
        assert s <= Live(n) by {
          assert forall o :: o in s ==> Supported(m, m.pinned, s, {}, o);
        }
        FirmElsewhere(m, n, s);
      }
    }
  }

  /** Giving up a field of an object under teardown. */
  lemma AnchoredIdled(m: Mem, owed: multiset<nat>, p: Place)
    requires Inv(m, owed) && Anchored(m) && p.Field? && p.obj in m.doomed
    ensures Anchored(Idled(m, p))
  {
    AnchoredElsewhere(m, Idled(m, p), owed);
  }

  lemma AnchoredDooming(m: Mem, owed: multiset<nat>, o: nat, h: Header)
    requires Inv(m, owed) && Anchored(m) && o in Live(m) && m.objs[o].memcount == 0
    ensures Anchored(Dooming(m, o, h))
  {
    AnchoredElsewhere(m, Dooming(m, o, h), owed);
  }

  lemma AnchoredStripped(m: Mem, owed: multiset<nat>, o: nat, n: nat)
    requires Inv(m, owed) && Anchored(m) && o in m.doomed
    ensures Anchored(m.(idle := m.idle + Own(o, n)))
  {
    AnchoredElsewhere(m, m.(idle := m.idle + Own(o, n)), owed);
  }

  lemma AnchoredFreed(m: Mem, owed: multiset<nat>, o: nat)
    requires Inv(m, owed) && Anchored(m) && o in m.doomed
    ensures Anchored(Freeing(m, o))
  {
    var n := Freeing(m, o);
    assert Live(n) == Live(m);
    forall p | p in n.idle && p.Field?
      ensures p.obj in n.doomed || Lasting(n, n.pinned, p.obj)
    {
      if p.obj !in m.doomed {
        var s :| p.obj in s && Firm(m, m.pinned, s);
        assert forall t :: t in s ==> Supported(m, m.pinned, s, {}, t);
        FirmElsewhere(m, n, s);
      }
    }
  }

  /** An object without references has none of its cells idle: its teardown gives up each reference once. */
  lemma UnreferencedIntact(m: Mem, owed: multiset<nat>, o: nat, n: nat)
    requires Inv(m, owed) && Anchored(m) && o in Live(m) && m.objs[o].memcount == 0
    ensures Own(o, n) !! m.idle
  {
    if Lasting(m, m.pinned, o) {
      var s :| o in s && Firm(m, m.pinned, s);
      FirmCounted(m, owed, s, o);
      assert false;
    }
  }

  lemma Unreachable(m: Mem, owed: multiset<nat>, o: nat)
    requires Inv(m, owed) && o in Live(m) && m.objs[o].memcount == 0
    ensures !Reachable(m, o)
  {
    NoHolders(m, owed, o);
  }

  /** The owner of a field is reached without going through that field. */
  lemma {:induction false} ChainAround(m: Mem, path: seq<Place>, o: nat, p: Place)
    returns (around: seq<Place>)
    requires Chain(m.cells, m.idle, m.pinned, path, o) && p.Field? && (p.obj == o || p !in path)
    ensures Chain(m.cells, m.idle + {p}, m.pinned, around, o)
    decreases |path|
  {
    if path == [] {
      return [];
    }
    var last := path[|path| - 1];
    if p in path {
      var prefix := ChainTo(m, path, o, p);
      around := ChainAround(m, prefix, o, p);
    } else if last.Local? {
      around := path;
    } else {
      var before := ChainAround(m, path[..|path| - 1], last.obj, p);
      around := before + [last];
      assert around[..|around| - 1] == before;
    }
  }

  /** The part of a chain before one of its fields reaches that field's owner. */
  lemma {:induction false} ChainTo(m: Mem, path: seq<Place>, o: nat, p: Place)
    returns (prefix: seq<Place>)
    requires Chain(m.cells, m.idle, m.pinned, path, o) && p.Field? && p in path
    ensures Chain(m.cells, m.idle, m.pinned, prefix, p.obj) && |prefix| < |path|
    decreases |path|
  {
    var last := path[|path| - 1];
    var rest := path[..|path| - 1];
    if last == p {
      prefix := rest;
    } else {
      assert p in rest;
      prefix := ChainTo(m, rest, last.obj, p);
    }
  }

  /** The objects along a chain hold each other up. */
  lemma {:induction false} ChainFirm(m: Mem, path: seq<Place>, o: nat) returns (s: set<nat>)
    requires Sound(m) && Chain(m.cells, m.idle, m.pinned, path, o)
    ensures o in s && Firm(m, m.pinned, s)
    decreases |path|
  {
    s := {o};
    if path == [] {
      return;
    }
    var last := path[|path| - 1];
    if last.Field? {
      var rest := ChainFirm(m, path[..|path| - 1], last.obj);
      s := rest + {o};
      assert forall t :: t in rest ==> Supported(m, m.pinned, rest, {}, t);
      assert forall p, t :: Holds(m, rest, {}, p, t) ==> Holds(m, s, {}, p, t);
    }
    assert Holds(m, s, {}, last, o);
  }

  lemma ReachableSustained(m: Mem, owed: multiset<nat>)
    requires Sound(m) && m.pinned <= owed
    ensures forall o :: Reachable(m, o) ==> Sustained(m, owed, o)
  {
    forall o | Reachable(m, o)
      ensures Sustained(m, owed, o)
    {
      var path :| Chain(m.cells, m.idle, m.pinned, path, o);
      var s := ChainFirm(m, path, o);
      LastingSustained(m, owed, o);
    }
  }

  /** Whatever was reachable is still allocated. */
  ghost predicate ReachedStay(m: Mem, n: Mem) {
    forall o :: Reachable(m, o) ==> o in n.objs
  }

  lemma ReachedSurvive(m: Mem, n: Mem, owed: multiset<nat>)
    requires Sound(m) && m.pinned <= owed && Survivors(m, n, owed)
    ensures ReachedStay(m, n)
  {
    ReachableSustained(m, owed);
  }

  /** The owner of a field, reached over counted pointers, is held up without the field. */
  lemma OwnerLasts(m: Mem, p: Place, path: seq<Place>)
    requires Sound(m) && p.Field? && Chain(m.cells, m.idle, m.pinned, path, p.obj)
    ensures Lasting(Idled(m, p), m.pinned, p.obj)
  {
    var around := ChainAround(m, path, p.obj, p);
    var s := ChainFirm(Idled(m, p), around, p.obj);
  }
}
