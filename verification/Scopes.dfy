/** The stack of variable scopes, and how a lookup across a closure's barrier captures the variable. */
module Scopes {
  import opened Wrappers

  datatype Name = Name(text: string)

  /** What is known of a variable; `rawFunction` says that its type is a function but no closure. */
  datatype Bundle = Bundle(value: nat, rawFunction: bool, closed: bool, used: bool)

  /** A variable taken into a closure: the value outside, and the one it has inside. */
  datatype Capture = Capture(ident: Name, outer: nat, inner: nat)

  datatype Entry =
    | Scope(table: map<Name, Bundle>)
    | Barrier(captures: seq<Capture>)

  /** The innermost entry comes first; `values` counts the values made so far. */
  datatype Stack = Stack(entries: seq<Entry>, values: nat)

  predicate Binds(e: Entry, ident: Name) { e.Scope? && ident in e.table }

  /** The next entry from `from` on that is a barrier or binds the name. */
  function Scan(es: seq<Entry>, from: nat, ident: Name): (i: nat)
    ensures from <= i && (i < |es| ==> es[i].Barrier? || Binds(es[i], ident))
    ensures from <= |es| ==> i <= |es|
    decreases |es| - from
  {
    if from >= |es| || es[from].Barrier? || Binds(es[from], ident) then from else Scan(es, from + 1, ident)
  }

  /** Some entry from `from` on binds the name. */
  predicate Bound(es: seq<Entry>, from: nat, ident: Name)
    decreases |es| - from
  {
    from < |es| && (Binds(es[from], ident) || Bound(es, from + 1, ident))
  }

  lemma {:induction false} ScanBound(es: seq<Entry>, from: nat, ident: Name)
    requires from <= |es|
    ensures var i := Scan(es, from, ident);
            Bound(es, from, ident) <==> i < |es| && (es[i].Scope? || Bound(es, i + 1, ident))
    decreases |es| - from
  {
    if from < |es| && es[from].Scope? && !Binds(es[from], ident) {
      ScanBound(es, from + 1, ident);
    }
  }

  lemma {:induction false} BoundSame(es: seq<Entry>, fs: seq<Entry>, from: nat, ident: Name)
    requires Shape(es, ident) == Shape(fs, ident) && from > 0
    ensures Bound(es, from, ident) <==> Bound(fs, from, ident)
    decreases |es| - from
  {
    ShapeAt(es, fs, ident, from);
    if from < |es| {
      BoundSame(es, fs, from + 1, ident);
    }
  }

  lemma {:induction false} ScanSkips(es: seq<Entry>, from: nat, ident: Name)
    requires from <= |es|
    ensures forall k :: from <= k < Scan(es, from, ident) ==> es[k].Scope? && !Binds(es[k], ident)
    decreases |es| - from
  {
    if from < |es| && es[from].Scope? && !Binds(es[from], ident) {
      ScanSkips(es, from + 1, ident);
    }
  }

  function Put(s: Stack, ident: Name, b: Bundle): Stack
    requires s.entries != [] && s.entries[0].Scope?
  {
    s.(entries := s.entries[0 := Scope(s.entries[0].table[ident := b])])
  }

  /** The counted cell that replaces the variable outside, unless it has one already. */
  function Closing(s: Stack, j: nat, ident: Name): Stack
    requires j < |s.entries| && Binds(s.entries[j], ident)
  {
    var vb := s.entries[j].table[ident];
    var now := vb.(used := true, closed := true, value := if vb.closed then vb.value else s.values);
    Stack(s.entries[j := Scope(s.entries[j].table[ident := now])], if vb.closed then s.values else s.values + 1)
  }

  // ---------------------------------------------------------------- vs_get

  datatype Outcome = Running | Done(stack: Stack, found: Option<nat>)

  /** Which entries are scopes and which bind the name, the top one aside. */
  function Shape(es: seq<Entry>, ident: Name): (r: seq<(bool, bool)>)
    ensures |r| == |es|
  {
    seq(|es|, k requires 0 <= k < |es| => (es[k].Scope?, k > 0 && Binds(es[k], ident)))
  }

  lemma ShapeAt(es: seq<Entry>, fs: seq<Entry>, ident: Name, k: nat)
    requires Shape(es, ident) == Shape(fs, ident)
    ensures |es| == |fs|
    ensures k < |es| ==> es[k].Scope? == fs[k].Scope? && (k > 0 ==> (Binds(es[k], ident) <==> Binds(fs[k], ident)))
  {
    if k < |es| {
      assert Shape(es, ident)[k] == Shape(fs, ident)[k];
    }
  }

  /** The name is bound in entry `j`, beyond the barrier `b` of a closure. */
  predicate Outside(s: Stack, b: nat, j: nat, ident: Name) {
    0 < b < j < |s.entries| && s.entries[0].Scope? && s.entries[b].Barrier? && Binds(s.entries[j], ident)
  }

  /** A barrier's closedCallback: told the stack, the barrier, the entry that has the variable, and its name. */
  type ClosedCallback = (Stack, nat, nat, Name) -> Stack

  /** The callback binds the name at the top and leaves all other bindings of it, and the barriers, in place. */
  ghost predicate Captures(cb: ClosedCallback) {
    forall s, b, j, ident {:trigger cb(s, b, j, ident)} :: Outside(s, b, j, ident) ==>
      CapturedBy(s, cb(s, b, j, ident), ident)
  }

  ghost predicate CapturedBy(s: Stack, t: Stack, ident: Name) {
    Shape(t.entries, ident) == Shape(s.entries, ident) && t.entries != [] && Binds(t.entries[0], ident)
  }

  /** ac_closure_callback, for the variable bound in entry `j` and the closure of barrier `b`. */
  function Callback(s: Stack, b: nat, j: nat, ident: Name): Stack {
    if !Outside(s, b, j, ident) then s
    else
      var vb := s.entries[j].table[ident];
      if vb.rawFunction then Put(s, ident, vb.(used := false))
      else
        var c := Closing(s, j, ident);
        var outer := c.entries[j].table[ident];
        var barrier := Barrier(c.entries[b].captures + [Capture(ident, outer.value, c.values)]);
        Put(Stack(c.entries[b := barrier], c.values + 1), ident, outer.(value := c.values, used := false))
  }

  lemma ClosureCaptures()
    ensures Captures(Callback)
  {
  }

  /**
   * vs_get on the part of the stack from `from` on, for at most `fuel` nested calls: the stack it leaves, and the
   * entry whose binding it returns.
   */
  function Get(fuel: nat, cb: ClosedCallback, s: Stack, from: nat, ident: Name): Outcome
    decreases fuel
  {
    if fuel == 0 then Running
    else
      var i := Scan(s.entries, from, ident);
      if i >= |s.entries| then Done(s, None)
      else if s.entries[i].Scope? then Done(s, Some(i))
      else
        var outer := Get(fuel - 1, cb, s, i + 1, ident);
        if outer.Running? || outer.found.None? then outer
        else Get(fuel - 1, cb, cb(outer.stack, i, outer.found.value, ident), from, ident)
  }

  /** What a lookup that ends leaves alone, and what it finds. */
  lemma {:induction false} GetKeeps(fuel: nat, cb: ClosedCallback, s: Stack, from: nat, ident: Name)
    requires s.entries != [] && s.entries[0].Scope? && from <= |s.entries| && Captures(cb)
    requires Get(fuel, cb, s, from, ident).Done?
    ensures var (t, found) := (Get(fuel, cb, s, from, ident).stack, Get(fuel, cb, s, from, ident).found);
            CapturedOrNot(s, t, from, found, ident)
    decreases fuel
  {
    var i := Scan(s.entries, from, ident);
    ScanBound(s.entries, from, ident);
    if i < |s.entries| && s.entries[i].Barrier? {
      GetKeeps(fuel - 1, cb, s, i + 1, ident);
      var outer := Get(fuel - 1, cb, s, i + 1, ident);
      if outer.found.Some? {
        ShapeAt(s.entries, outer.stack.entries, ident, i);
        var t := cb(outer.stack, i, outer.found.value, ident);
        assert CapturedBy(outer.stack, t, ident);
        if from > 0 {
          BoundSame(s.entries, t.entries, from, ident);
        }
        GetKeeps(fuel - 1, cb, t, from, ident);
      }
    }
  }

  ghost predicate CapturedOrNot(s: Stack, t: Stack, from: nat, found: Option<nat>, ident: Name) {
    Shape(t.entries, ident) == Shape(s.entries, ident) && t.entries != [] && t.entries[0].Scope? &&
    match found
    case None => !Bound(s.entries, from, ident)
    case Some(j) => j < |t.entries| && Binds(t.entries[j], ident) && (from > 0 ==> from <= j)
  }

  // ---------------------------------------------------------------- when a lookup ends, and what it does

  /** Entry `i` has the innermost binding from `from` on. */
  ghost predicate Innermost(es: seq<Entry>, from: nat, i: nat, ident: Name) {
    from <= i < |es| && Binds(es[i], ident) && forall k :: from <= k < i ==> !Binds(es[k], ident)
  }

  ghost predicate Unbound(es: seq<Entry>, from: nat, ident: Name) {
    forall k :: from <= k < |es| ==> !Binds(es[k], ident)
  }

  function Barriers(es: seq<Entry>, from: nat, end: nat): nat
    requires from <= end <= |es|
    decreases end - from
  {
    if from == end then 0 else (if es[from].Barrier? then 1 else 0) + Barriers(es, from + 1, end)
  }

  lemma {:induction false} BarriersSkip(es: seq<Entry>, from: nat, mid: nat, end: nat)
    requires from <= mid <= end <= |es| && forall k :: from <= k < mid ==> es[k].Scope?
    ensures Barriers(es, from, end) == Barriers(es, mid, end)
    decreases mid - from
  {
    if from < mid {
      BarriersSkip(es, from + 1, mid, end);
    }
  }

  /** With no barrier before the binding, it is found and nothing changes. */
  lemma GetOpen(fuel: nat, cb: ClosedCallback, s: Stack, from: nat, i: nat, ident: Name)
    requires Captures(cb) && s.entries != [] && s.entries[0].Scope? && Innermost(s.entries, from, i, ident)
    requires Barriers(s.entries, from, i) == 0 && fuel > 0
    ensures Get(fuel, cb, s, from, ident) == Done(s, Some(i))
  {
    ScanSkips(s.entries, from, ident);
    var k := Scan(s.entries, from, ident);
    if k < i {
      BarriersSkip(s.entries, from, k, i);
    }
  }

  /** A name that is not bound is not found, whatever the barriers, and nothing changes. */
  lemma {:induction false} GetUnbound(fuel: nat, cb: ClosedCallback, s: Stack, from: nat, ident: Name)
    requires Captures(cb) && s.entries != [] && s.entries[0].Scope? && from <= |s.entries| &&
      Unbound(s.entries, from, ident)
    ensures fuel > Barriers(s.entries, from, |s.entries|) ==> Get(fuel, cb, s, from, ident) == Done(s, None)
    decreases fuel
  {
    if fuel > 0 {
      var k := Scan(s.entries, from, ident);
      ScanSkips(s.entries, from, ident);
      BarriersSkip(s.entries, from, k, |s.entries|);
      if k < |s.entries| {
        GetUnbound(fuel - 1, cb, s, k + 1, ident);
      }
    }
  }

  lemma InnermostSame(es: seq<Entry>, fs: seq<Entry>, from: nat, i: nat, ident: Name)
    requires Shape(es, ident) == Shape(fs, ident) && from > 0 && Innermost(es, from, i, ident)
    ensures Innermost(fs, from, i, ident)
  {
    ShapeAt(es, fs, ident, i);
    forall k | from <= k < i ensures !Binds(fs[k], ident) { ShapeAt(es, fs, ident, k); }
  }

  lemma ScanTo(es: seq<Entry>, from: nat, b: nat, i: nat, ident: Name) returns (k: nat)
    requires Innermost(es, from, i, ident) && from <= b <= i && (es[b].Barrier? || b == i)
    ensures k == Scan(es, from, ident) && from <= k <= b && (k < i ==> es[k].Barrier?)
  {
    ScanSkips(es, from, ident);
    k := Scan(es, from, ident);
  }

  lemma {:induction false} InnermostBound(es: seq<Entry>, from: nat, k: nat, ident: Name)
    requires from <= k < |es| && Binds(es[k], ident)
    ensures Bound(es, from, ident)
    decreases k - from
  {
    if from < k {
      InnermostBound(es, from + 1, k, ident);
    }
  }

  /** The stack after the callback at barrier `k`, which the lookup beyond `k` has found the name for. */
  lemma OuterFound(fuel: nat, cb: ClosedCallback, s: Stack, k: nat, ident: Name)
    requires Captures(cb) && s.entries != [] && s.entries[0].Scope? && 0 < k < |s.entries| && s.entries[k].Barrier?
    requires Get(fuel, cb, s, k + 1, ident).Done? && Bound(s.entries, k + 1, ident)
    ensures var outer := Get(fuel, cb, s, k + 1, ident);
            outer.found.Some? &&
            var t := cb(outer.stack, k, outer.found.value, ident);
            Shape(t.entries, ident) == Shape(s.entries, ident) && t.entries != [] && t.entries[0].Scope?
  {
    GetKeeps(fuel, cb, s, k + 1, ident);
    var outer := Get(fuel, cb, s, k + 1, ident);
    ShapeAt(s.entries, outer.stack.entries, ident, k);
    var t := cb(outer.stack, k, outer.found.value, ident);
    assert CapturedBy(outer.stack, t, ident);
  }

  /** Inside an outer lookup, a barrier before the binding is never got past: the callback changes only the top. */
  lemma {:induction false} GetStuck(fuel: nat, cb: ClosedCallback, s: Stack, from: nat, b: nat, i: nat, ident: Name)
    requires Captures(cb) && s.entries != [] && s.entries[0].Scope? && from > 0 && Innermost(s.entries, from, i, ident)
    requires from <= b < i && s.entries[b].Barrier?
    ensures Get(fuel, cb, s, from, ident) == Running
    decreases fuel
  {
    if fuel > 0 {
      var k := ScanTo(s.entries, from, b, i, ident);
      var outer := Get(fuel - 1, cb, s, k + 1, ident);
      if outer.Done? {
        var t := StillStuck(fuel - 1, cb, s, from, k, b, i, ident);
        GetStuck(fuel - 1, cb, t, from, b, i, ident);
      }
    }
  }

  /** After the callback at barrier `k` the next barrier `b` and the binding are where they were. */
  lemma StillStuck(fuel: nat, cb: ClosedCallback, s: Stack, from: nat, k: nat, b: nat, i: nat, ident: Name)
    returns (t: Stack)
    requires Captures(cb) && s.entries != [] && s.entries[0].Scope? && from > 0 && Innermost(s.entries, from, i, ident)
    requires from <= k <= b < i && s.entries[k].Barrier? && s.entries[b].Barrier?
    requires Get(fuel, cb, s, k + 1, ident).Done?
    ensures var outer := Get(fuel, cb, s, k + 1, ident);
            outer.found.Some? && t == cb(outer.stack, k, outer.found.value, ident)
    ensures t.entries != [] && t.entries[0].Scope? && Innermost(t.entries, from, i, ident) && t.entries[b].Barrier?
  {
    InnermostBound(s.entries, k + 1, i, ident);
    OuterFound(fuel, cb, s, k, ident);
    var outer := Get(fuel, cb, s, k + 1, ident);
    t := cb(outer.stack, k, outer.found.value, ident);
    InnermostSame(s.entries, t.entries, from, i, ident);
    ShapeAt(s.entries, t.entries, ident, b);
  }

  /** Binding `i` is the innermost one, and `b` is the only barrier before it. */
  ghost predicate OneBefore(es: seq<Entry>, b: nat, i: nat, ident: Name) {
    Innermost(es, 0, i, ident) && b < i && es[b].Barrier? && forall k :: 0 <= k < i && k != b ==> es[k].Scope?
  }

  /** Across one barrier: one callback, and the new binding at the top is the answer. */
  lemma GetCaptures(fuel: nat, cb: ClosedCallback, s: Stack, b: nat, i: nat, ident: Name)
    requires Captures(cb) && s.entries != [] && s.entries[0].Scope? && OneBefore(s.entries, b, i, ident) && fuel > 1
    ensures Get(fuel, cb, s, 0, ident) == Done(cb(s, b, i, ident), Some(0))
  {
    ScanSkips(s.entries, 0, ident);
    assert Scan(s.entries, 0, ident) == b;
    BarriersSkip(s.entries, b + 1, i, i);
    GetOpen(fuel - 1, cb, s, b + 1, i, ident);
    GetOpen(fuel - 1, cb, cb(s, b, i, ident), 0, 0, ident);
  }

  lemma {:induction false} OneBarrier(es: seq<Entry>, from: nat, end: nat) returns (b: nat)
    requires from <= end <= |es| && Barriers(es, from, end) > 0
    ensures from <= b < end && es[b].Barrier? && forall k :: from <= k < b ==> es[k].Scope?
    ensures Barriers(es, b + 1, end) == Barriers(es, from, end) - 1
    decreases end - from
  {
    if es[from].Barrier? {
      b := from;
    } else {
      b := OneBarrier(es, from + 1, end);
    }
  }

  lemma {:induction false} NoBarriers(es: seq<Entry>, from: nat, end: nat)
    requires from <= end <= |es| && Barriers(es, from, end) == 0
    ensures forall k :: from <= k < end ==> es[k].Scope?
    decreases end - from
  {
    if from < end {
      NoBarriers(es, from + 1, end);
    }
  }

  ghost predicate Ends(cb: ClosedCallback, s: Stack, ident: Name)
    requires Captures(cb) && s.entries != [] && s.entries[0].Scope?
  {
    exists fuel: nat :: Get(fuel, cb, s, 0, ident).Done?
  }

  /** A lookup ends exactly if at most one barrier separates the top from the innermost binding. */
  lemma EndsExactly(cb: ClosedCallback, s: Stack, ident: Name)
    requires Captures(cb) && s.entries != [] && s.entries[0].Scope?
    ensures Ends(cb, s, ident) <==>
              Unbound(s.entries, 0, ident) ||
              exists i :: Innermost(s.entries, 0, i, ident) && Barriers(s.entries, 0, i) <= 1
  {
    if Unbound(s.entries, 0, ident) {
      var fuel := Barriers(s.entries, 0, |s.entries|) + 1;
      GetUnbound(fuel, cb, s, 0, ident);
      assert Get(fuel, cb, s, 0, ident).Done?;
    } else {
      var i := FindInnermost(s.entries, 0, ident);
      forall j | Innermost(s.entries, 0, j, ident) ensures j == i {}
      if Barriers(s.entries, 0, i) == 0 {
        GetOpen(1, cb, s, 0, i, ident);
        assert Get(1, cb, s, 0, ident).Done?;
      } else {
        var b := OneBarrier(s.entries, 0, i);
        if Barriers(s.entries, 0, i) == 1 {
          NoBarriers(s.entries, b + 1, i);
          GetCaptures(2, cb, s, b, i, ident);
          assert Get(2, cb, s, 0, ident).Done?;
        } else {
          ScanSkips(s.entries, 0, ident);
          assert Scan(s.entries, 0, ident) == b;
          var c := OneBarrier(s.entries, b + 1, i);
          forall fuel: nat ensures Get(fuel, cb, s, 0, ident).Running? {
            if fuel > 0 {
              GetStuck(fuel - 1, cb, s, b + 1, c, i, ident);
            }
          }
        }
      }
    }
  }

  lemma {:induction false} FindInnermost(es: seq<Entry>, from: nat, ident: Name) returns (i: nat)
    requires from <= |es| && !Unbound(es, from, ident)
    ensures Innermost(es, from, i, ident)
    decreases |es| - from
  {
    if from < |es| && Binds(es[from], ident) {
      i := from;
    } else {
      i := FindInnermost(es, from + 1, ident);
    }
  }

  /** What a capture leaves: a binding at the top, one more capture, the variable outside closed, all else as before.
      A variable that has its counted cell keeps it, any other gets a new one; the value inside is new in both cases. */
  lemma CaptureEffect(s: Stack, b: nat, i: nat, ident: Name)
    requires 0 < b < i < |s.entries| && s.entries[0].Scope? && s.entries[b].Barrier? && Binds(s.entries[i], ident)
    ensures var t, vb := Callback(s, b, i, ident), s.entries[i].table[ident];
            |t.entries| == |s.entries| &&
            (forall k :: 0 <= k < |s.entries| && k != 0 && k != b && k != i ==> t.entries[k] == s.entries[k]) &&
            (forall x :: x != ident ==>
              (Binds(t.entries[0], x) <==> Binds(s.entries[0], x)) &&
              (Binds(t.entries[i], x) <==> Binds(s.entries[i], x)) &&
              (Binds(s.entries[0], x) ==> t.entries[0].table[x] == s.entries[0].table[x]) &&
              (Binds(s.entries[i], x) ==> t.entries[i].table[x] == s.entries[i].table[x])) &&
            t.entries[b].Barrier? && Binds(t.entries[0], ident) && Binds(t.entries[i], ident) &&
            !t.entries[0].table[ident].used && t.entries[0].table[ident].rawFunction == vb.rawFunction &&
            if vb.rawFunction then
              t.values == s.values && t.entries[0].table[ident].closed == vb.closed &&
              t.entries[b] == s.entries[b] && t.entries[i] == s.entries[i] &&
              t.entries[0].table[ident].value == vb.value
            else
              var outer, inner := t.entries[i].table[ident].value, t.entries[0].table[ident].value;
              (if vb.closed then outer == vb.value else s.values <= outer < t.values && outer != inner) &&
              s.values <= inner < t.values &&
              !t.entries[i].table[ident].rawFunction &&
              t.entries[i].table[ident].used && t.entries[i].table[ident].closed && t.entries[0].table[ident].closed &&
              t.entries[b].captures ==
                s.entries[b].captures +
                [Capture(ident, t.entries[i].table[ident].value, t.entries[0].table[ident].value)]
  {
  }

  /** A name once captured is found at the top, without another capture. */
  lemma CapturedOnce(fuel: nat, cb: ClosedCallback, s: Stack, b: nat, i: nat, ident: Name)
    requires Captures(cb) && s.entries != [] && s.entries[0].Scope? && OneBefore(s.entries, b, i, ident) && fuel > 1
    ensures var t := cb(s, b, i, ident);
            Get(fuel, cb, s, 0, ident) == Done(t, Some(0)) && Get(fuel, cb, t, 0, ident) == Done(t, Some(0))
  {
    GetCaptures(fuel, cb, s, b, i, ident);
    GetOpen(fuel, cb, cb(s, b, i, ident), 0, 0, ident);
  }

  // ---------------------------------------------------------------- blocks and closures

  function Pushed(s: Stack): Stack {
    s.(entries := [Scope(map[])] + s.entries)
  }

  function Popped(s: Stack): Stack {
    s.(entries := if s.entries == [] then [] else s.entries[1..])
  }

  function ClosurePushed(s: Stack): Stack {
    s.(entries := [Barrier([])] + s.entries)
  }

  lemma {:induction false} BarriersShift(es: seq<Entry>, fs: seq<Entry>, from: nat, end: nat, d: nat)
    requires from <= end <= |es| && end + d <= |fs|
    requires forall k {:trigger es[k]} :: from <= k < end ==> es[k].Scope? == fs[k + d].Scope?
    ensures Barriers(fs, from + d, end + d) == Barriers(es, from, end)
    decreases end - from
  {
    if from < end {
      assert es[from].Scope? == fs[from + d].Scope?;
      BarriersShift(es, fs, from + 1, end, d);
    }
  }

  /** The stacks agree on which entries are scopes and on what each binds, the first `d` entries of `t` aside. */
  ghost predicate SameNames(s: Stack, t: Stack, d: nat) {
    |t.entries| == |s.entries| + d &&
    forall k {:trigger s.entries[k]} :: 0 <= k < |s.entries| ==>
      s.entries[k].Scope? == t.entries[k + d].Scope? &&
      forall x {:trigger Binds(s.entries[k], x)} :: Binds(s.entries[k], x) <==> Binds(t.entries[k + d], x)
  }

  /** Where the entries in front do not bind a name, its binding moves with them, at the same number of barriers. */
  lemma InnermostShift(s: Stack, t: Stack, d: nat, ident: Name)
    requires SameNames(s, t, d) && forall k :: 0 <= k < d ==> !Binds(t.entries[k], ident)
    ensures Unbound(s.entries, 0, ident) <==> Unbound(t.entries, 0, ident)
    ensures forall i: nat :: Innermost(s.entries, 0, i, ident) ==>
      (Innermost(t.entries, 0, i + d, ident) &&
       Barriers(t.entries, 0, i + d) == Barriers(s.entries, 0, i) + Barriers(t.entries, 0, d))
  {
    forall k | 0 <= k < |s.entries| ensures Binds(s.entries[k], ident) <==> Binds(t.entries[k + d], ident) {
    }
    if !Unbound(t.entries, 0, ident) {
      var j := FindInnermost(t.entries, 0, ident);
      assert j == (j - d) + d && Binds(s.entries[j - d], ident);
    }
    forall i: nat | Innermost(s.entries, 0, i, ident)
      ensures Innermost(t.entries, 0, i + d, ident) &&
              Barriers(t.entries, 0, i + d) == Barriers(s.entries, 0, i) + Barriers(t.entries, 0, d)
    {
      forall k | 0 <= k < i + d ensures !Binds(t.entries[k], ident) {
        if k >= d {
          assert k == (k - d) + d && !Binds(s.entries[k - d], ident);
        }
      }
      BarriersShift(s.entries, t.entries, 0, i, d);
      BarriersSplit(t.entries, 0, d, i + d);
    }
  }

  lemma {:induction false} BarriersSplit(es: seq<Entry>, from: nat, mid: nat, end: nat)
    requires from <= mid <= end <= |es|
    ensures Barriers(es, from, end) == Barriers(es, from, mid) + Barriers(es, mid, end)
    decreases mid - from
  {
    if from < mid {
      BarriersSplit(es, from + 1, mid, end);
    }
  }

  /** Opening a block: every lookup ends as before, and what was found is found one entry deeper. */
  lemma PushKeeps(cb: ClosedCallback, s: Stack, ident: Name)
    requires Captures(cb) && s.entries != [] && s.entries[0].Scope?
    ensures Ends(cb, Pushed(s), ident) <==> Ends(cb, s, ident)
    ensures forall i: nat :: Innermost(s.entries, 0, i, ident) && Barriers(s.entries, 0, i) == 0 ==>
      forall fuel: nat :: fuel > 0 ==> Get(fuel, cb, Pushed(s), 0, ident) == Done(Pushed(s), Some(i + 1))
  {
    var t := Pushed(s);
    InnermostShift(s, t, 1, ident);
    assert Barriers(t.entries, 0, 1) == Barriers(t.entries, 1, 1) == 0;
    EndsMoved(cb, s, t, 1, 0, ident);
    forall i: nat, fuel: nat | Innermost(s.entries, 0, i, ident) && Barriers(s.entries, 0, i) == 0 && fuel > 0
      ensures Get(fuel, cb, t, 0, ident) == Done(t, Some(i + 1))
    {
      GetOpen(fuel, cb, t, 0, i + 1, ident);
    }
  }

  /** Behind `more` new barriers, a lookup ends if the name is unbound or had few enough barriers before it. */
  lemma EndsMoved(cb: ClosedCallback, s: Stack, t: Stack, d: nat, more: nat, ident: Name)
    requires Captures(cb) && t.entries != [] && t.entries[0].Scope? && SameNames(s, t, d)
    requires (forall k :: 0 <= k < d ==> !Binds(t.entries[k], ident)) && Barriers(t.entries, 0, d) == more
    ensures Ends(cb, t, ident) <==>
              Unbound(s.entries, 0, ident) ||
              exists i :: Innermost(s.entries, 0, i, ident) && Barriers(s.entries, 0, i) + more <= 1
    ensures s.entries != [] && s.entries[0].Scope? && more == 0 ==> (Ends(cb, t, ident) <==> Ends(cb, s, ident))
  {
    EndsExactly(cb, t, ident);
    InnermostShift(s, t, d, ident);
    if !Unbound(s.entries, 0, ident) {
      var i := FindInnermost(s.entries, 0, ident);
      assert Innermost(t.entries, 0, i + d, ident);
      forall j | Innermost(t.entries, 0, j, ident) ensures j == i + d {}
      forall j | Innermost(s.entries, 0, j, ident) ensures j == i {}
    }
    if s.entries != [] && s.entries[0].Scope? {
      EndsExactly(cb, s, ident);
    }
  }

  /** Compiling a closure: inside it a lookup ends exactly for names that are unbound or had no barrier before them. */
  lemma ClosureLimits(cb: ClosedCallback, s: Stack, ident: Name)
    requires Captures(cb)
    ensures Ends(cb, Pushed(ClosurePushed(s)), ident) <==>
              Unbound(s.entries, 0, ident) ||
              exists i :: Innermost(s.entries, 0, i, ident) && Barriers(s.entries, 0, i) == 0
  {
    var t := Pushed(ClosurePushed(s));
    assert t.entries == [Scope(map[]), Barrier([])] + s.entries;
    assert Barriers(t.entries, 0, 2) == Barriers(t.entries, 1, 2) == 1 + Barriers(t.entries, 2, 2);
    EndsMoved(cb, s, t, 2, 1, ident);
    assert forall i: nat :: Innermost(s.entries, 0, i, ident) ==>
      (Barriers(s.entries, 0, i) + 1 <= 1 <==> Barriers(s.entries, 0, i) == 0);
  }

  /** A name put is found at the top at once. */
  lemma PutFound(fuel: nat, cb: ClosedCallback, s: Stack, ident: Name, b: Bundle)
    requires Captures(cb) && s.entries != [] && s.entries[0].Scope? && fuel > 0
    ensures var t := Put(s, ident, b);
            Get(fuel, cb, t, 0, ident) == Done(t, Some(0)) && t.entries[0].table[ident] == b
  {
    GetOpen(fuel, cb, Put(s, ident, b), 0, 0, ident);
  }

  /** Any other name is bound where it was, to what it was, and a lookup of it ends exactly if it did. */
  lemma PutOther(cb: ClosedCallback, s: Stack, ident: Name, b: Bundle, other: Name)
    requires Captures(cb) && s.entries != [] && s.entries[0].Scope? && other != ident
    ensures var t := Put(s, ident, b);
            (Ends(cb, t, other) <==> Ends(cb, s, other)) &&
            forall i: nat :: Innermost(s.entries, 0, i, other) ==>
              Innermost(t.entries, 0, i, other) && t.entries[i].table[other] == s.entries[i].table[other]
  {
    var t := Put(s, ident, b);
    forall k | 0 <= k < |s.entries|
      ensures t.entries[k].Scope? == s.entries[k].Scope? && (Binds(t.entries[k], other) <==> Binds(s.entries[k], other))
      ensures Binds(s.entries[k], other) ==> t.entries[k].table[other] == s.entries[k].table[other]
    {
    }
    forall i: nat | i < |s.entries| ensures Barriers(t.entries, 0, i) == Barriers(s.entries, 0, i) {
      BarriersShift(s.entries, t.entries, 0, i, 0);
    }
    EndsSame(cb, s, t, other);
  }

  lemma EndsSame(cb: ClosedCallback, s: Stack, t: Stack, ident: Name)
    requires Captures(cb) && s.entries != [] && s.entries[0].Scope? && t.entries != [] && t.entries[0].Scope?
    requires |s.entries| == |t.entries|
    requires forall k :: 0 <= k < |s.entries| ==> (Binds(t.entries[k], ident) <==> Binds(s.entries[k], ident))
    requires forall k: nat :: k < |s.entries| ==> Barriers(t.entries, 0, k) == Barriers(s.entries, 0, k)
    ensures Ends(cb, t, ident) <==> Ends(cb, s, ident)
  {
    EndsExactly(cb, s, ident);
    EndsExactly(cb, t, ident);
    assert forall i: nat :: Innermost(s.entries, 0, i, ident) <==> Innermost(t.entries, 0, i, ident);
  }

  // ---------------------------------------------------------------- bodies

  /** What compiling a body does to the stack: declarations, lookups, blocks, and closures in it. */
  datatype Item = Decl(ident: Name, b: Bundle) | Look(ident: Name) | Block(items: seq<Item>) | Closure(items: seq<Item>)

  /** The stack after a body, with the compiler's callback; none if some lookup takes more than `fuel`. */
  function Run(fuel: nat, s: Stack, items: seq<Item>): Option<Stack>
    decreases items, 0
  {
    if items == [] then Some(s)
    else
      var first := RunItem(fuel, s, items[0]);
      if first.None? then None else Run(fuel, first.value, items[1..])
  }

  function RunItem(fuel: nat, s: Stack, item: Item): Option<Stack>
    decreases item, 1
  {
    match item
    case Decl(ident, b) => if s.entries != [] && s.entries[0].Scope? then Some(Put(s, ident, b)) else None
    case Look(ident) =>
      var r := Get(fuel, Callback, s, 0, ident);
      if r.Done? then Some(r.stack) else None
    case Block(items) =>
      var inner := Run(fuel, Pushed(s), items);
      if inner.None? then None else Some(Popped(inner.value))
    case Closure(items) =>
      var inner := Run(fuel, Pushed(ClosurePushed(s)), items);
      if inner.None? then None else Some(Popped(Popped(inner.value)))
  }

  /** A later state of a variable: it is still a plain function or none, and its counted cell, once it has one, is still
      the same. */
  predicate SameVariable(a: Bundle, b: Bundle) {
    a.rawFunction == b.rawFunction && (a.closed ==> b.closed && b.value == a.value)
  }

  /** Two scopes that bind the same names to the same variables, or two barriers. */
  ghost predicate Alike(e: Entry, f: Entry) {
    e.Scope? == f.Scope? &&
    forall x {:trigger Binds(e, x)} {:trigger Binds(f, x)} ::
      (Binds(e, x) <==> Binds(f, x)) && (Binds(e, x) ==> SameVariable(e.table[x], f.table[x]))
  }

  /** Both stacks have a scope on top, and alike entries below it. */
  ghost predicate SameBelow(s: Stack, t: Stack) {
    s.entries != [] && t.entries != [] && s.entries[0].Scope? && t.entries[0].Scope? &&
    |s.entries| == |t.entries| &&
    forall k {:trigger s.entries[k]} {:trigger t.entries[k]} ::
      0 < k < |s.entries| ==> Alike(s.entries[k], t.entries[k])
  }

  lemma CallbackBelow(s: Stack, b: nat, j: nat, ident: Name)
    requires s.entries != [] && s.entries[0].Scope?
    ensures SameBelow(s, Callback(s, b, j, ident))
  {
  }

  lemma BelowTrans(s: Stack, t: Stack, u: Stack)
    requires SameBelow(s, t) && SameBelow(t, u)
    ensures SameBelow(s, u)
  {
    forall k | 0 < k < |s.entries|
      ensures Alike(s.entries[k], u.entries[k])
    {
      assert Alike(s.entries[k], t.entries[k]) && Alike(t.entries[k], u.entries[k]);
    }
  }

  // ---------------------------------------------------------------- one lookup

  /** A lookup of an unbound name changes nothing. */
  lemma {:induction false} UnboundSame(fuel: nat, cb: ClosedCallback, s: Stack, from: nat, ident: Name)
    requires from <= |s.entries| && Unbound(s.entries, from, ident) && Get(fuel, cb, s, from, ident).Done?
    ensures Get(fuel, cb, s, from, ident) == Done(s, None)
    decreases fuel
  {
    var k := Scan(s.entries, from, ident);
    if k < |s.entries| {
      UnboundSame(fuel - 1, cb, s, k + 1, ident);
    }
  }

  /** A lookup that ends changes nothing, or captures across the one barrier before the innermost binding. */
  lemma LookOutcome(fuel: nat, s: Stack, ident: Name)
    requires s.entries != [] && s.entries[0].Scope? && Get(fuel, Callback, s, 0, ident).Done?
    ensures var t := Get(fuel, Callback, s, 0, ident).stack;
            (t == s && forall b, i :: !OneBefore(s.entries, b, i, ident)) ||
            exists b: nat, i: nat :: OneBefore(s.entries, b, i, ident) && t == Callback(s, b, i, ident)
  {
    ClosureCaptures();
    EndsExactly(Callback, s, ident);
    assert Ends(Callback, s, ident);
    if Unbound(s.entries, 0, ident) {
      UnboundSame(fuel, Callback, s, 0, ident);
    } else {
      var i := FindInnermost(s.entries, 0, ident);
      forall j | Innermost(s.entries, 0, j, ident) ensures j == i {}
      if Barriers(s.entries, 0, i) == 0 {
        GetOpen(fuel, Callback, s, 0, i, ident);
        NoBarriers(s.entries, 0, i);
      } else {
        var b := OneBarrier(s.entries, 0, i);
        NoBarriers(s.entries, b + 1, i);
        assert OneBefore(s.entries, b, i, ident);
        LookCaptures(fuel, s, b, i, ident);
      }
    }
  }

  lemma LookCaptures(fuel: nat, s: Stack, b: nat, i: nat, ident: Name)
    requires s.entries != [] && s.entries[0].Scope? && OneBefore(s.entries, b, i, ident)
    requires Get(fuel, Callback, s, 0, ident).Done?
    ensures Get(fuel, Callback, s, 0, ident).stack == Callback(s, b, i, ident)
  {
    ClosureCaptures();
    ScanSkips(s.entries, 0, ident);
    assert Scan(s.entries, 0, ident) == b;
    assert fuel > 1;
    GetCaptures(fuel, Callback, s, b, i, ident);
  }

  // ---------------------------------------------------------------- what a body leaves

  lemma {:induction false} RunBelow(fuel: nat, s: Stack, items: seq<Item>)
    requires s.entries != [] && s.entries[0].Scope? && Run(fuel, s, items).Some?
    ensures SameBelow(s, Run(fuel, s, items).value)
    decreases items, 0
  {
    if items != [] {
      RunItemBelow(fuel, s, items[0]);
      var t := RunItem(fuel, s, items[0]).value;
      RunBelow(fuel, t, items[1..]);
      BelowTrans(s, t, Run(fuel, t, items[1..]).value);
    }
  }

  lemma {:induction false} RunItemBelow(fuel: nat, s: Stack, item: Item)
    requires s.entries != [] && s.entries[0].Scope? && RunItem(fuel, s, item).Some?
    ensures SameBelow(s, RunItem(fuel, s, item).value)
    ensures item.Block? || item.Closure? ==> AllAlike(s, RunItem(fuel, s, item).value)
    decreases item, 1
  {
    match item
    case Decl(_, _) =>
    case Look(ident) =>
      LookOutcome(fuel, s, ident);
      var t := Get(fuel, Callback, s, 0, ident).stack;
      if t != s {
        var b: nat, i: nat :| OneBefore(s.entries, b, i, ident) && t == Callback(s, b, i, ident);
        CallbackBelow(s, b, i, ident);
      }
    case Block(items) =>
      RunBelow(fuel, Pushed(s), items);
      AlikeMoved(s, Pushed(s), Run(fuel, Pushed(s), items).value, RunItem(fuel, s, item).value, 1);
    case Closure(items) =>
      var p := Pushed(ClosurePushed(s));
      RunBelow(fuel, p, items);
      AlikeMoved(s, p, Run(fuel, p, items).value, RunItem(fuel, s, item).value, 2);
  }

  ghost predicate AllAlike(s: Stack, t: Stack) {
    |s.entries| == |t.entries| &&
    forall k {:trigger s.entries[k]} {:trigger t.entries[k]} ::
      0 <= k < |s.entries| ==> Alike(s.entries[k], t.entries[k])
  }

  /** What was run on top of a stack leaves its entries alike. */
  lemma AlikeMoved(s: Stack, p: Stack, u: Stack, t: Stack, d: nat)
    requires d > 0 && s.entries != [] && s.entries[0].Scope? && SameBelow(p, u) && |p.entries| == |s.entries| + d
    requires p.entries[d..] == s.entries && u.entries[d..] == t.entries
    ensures AllAlike(s, t) && SameBelow(s, t)
  {
    forall k | 0 <= k < |s.entries|
      ensures Alike(s.entries[k], t.entries[k])
    {
      assert s.entries[k] == p.entries[k + d] && t.entries[k] == u.entries[k + d];
    }
  }

  /** Whatever a block declares and captures, after it every name is bound where it was bound before, so every lookup
      ends exactly if it did. */
  lemma BlockLeaves(fuel: nat, s: Stack, items: seq<Item>, ident: Name)
    requires s.entries != [] && s.entries[0].Scope? && RunItem(fuel, s, Block(items)).Some?
    ensures var t := RunItem(fuel, s, Block(items)).value;
            SameNames(s, t, 0) && (Ends(Callback, t, ident) <==> Ends(Callback, s, ident)) &&
            forall i: nat :: Innermost(s.entries, 0, i, ident) ==>
              Innermost(t.entries, 0, i, ident) && Barriers(t.entries, 0, i) == Barriers(s.entries, 0, i)
  {
    RunItemBelow(fuel, s, Block(items));
    var t := RunItem(fuel, s, Block(items)).value;
    forall k | 0 <= k < |s.entries|
      ensures s.entries[k].Scope? == t.entries[k + 0].Scope?
      ensures forall x {:trigger Binds(s.entries[k], x)} :: Binds(s.entries[k], x) <==> Binds(t.entries[k + 0], x)
    {
      assert Alike(s.entries[k], t.entries[k]);
    }
    ClosureCaptures();
    InnermostShift(s, t, 0, ident);
    EndsMoved(Callback, s, t, 0, 0, ident);
  }

  // ---------------------------------------------------------------- what a closure's list holds

  /** How often a list of captures names a variable. */
  function Listed(captures: seq<Capture>, ident: Name): nat {
    if captures == [] then 0
    else
      var last := |captures| - 1;
      Listed(captures[..last], ident) + if captures[last].ident == ident then 1 else 0
  }

  lemma ListedMore(captures: seq<Capture>, c: Capture, ident: Name)
    ensures Listed(captures + [c], ident) == Listed(captures, ident) + if c.ident == ident then 1 else 0
  {
    assert (captures + [c])[..|captures|] == captures;
  }

  /**
   * How often a body has to capture a variable that is bound outside its closure, and whether the variable is bound
   * inside at its end: once for each lookup that no binding inside precedes, where the bindings of a block, captured
   * ones included, end with the block.
   */
  function Needed(items: seq<Item>, ident: Name, bound: bool): (nat, bool)
    decreases items, 0
  {
    if items == [] then (0, bound)
    else
      var first := NeededFirst(items[0], ident, bound);
      var rest := Needed(items[1..], ident, first.1);
      (first.0 + rest.0, rest.1)
  }

  function NeededFirst(item: Item, ident: Name, bound: bool): (nat, bool)
    decreases item, 1
  {
    match item
    case Decl(x, _) => (0, bound || x == ident)
    case Look(x) => if x == ident && !bound then (1, true) else (0, bound)
    case Block(items) => (Needed(items, ident, bound).0, bound)
    case Closure(_) => (0, bound)
  }

  /** Entry `b` is the barrier of the closure whose body is being compiled. */
  ghost predicate OwnBarrier(es: seq<Entry>, b: nat) {
    0 < b < |es| && es[b].Barrier? && forall k :: 0 <= k < b ==> es[k].Scope?
  }

  ghost predicate Within(es: seq<Entry>, b: nat, ident: Name)
    requires b <= |es|
  {
    exists k :: 0 <= k < b && Binds(es[k], ident)
  }

  /** The first entry from `from` on that matters to the name binds it to something that is no plain function. */
  ghost predicate FreeAt(es: seq<Entry>, from: nat, i: nat, ident: Name) {
    from <= i < |es| && Binds(es[i], ident) && !es[i].table[ident].rawFunction &&
    forall k :: from <= k < i ==> es[k].Scope? && !Binds(es[k], ident)
  }

  /** A variable that a closure can take in, if its surroundings start at entry `from`. */
  ghost predicate Free(es: seq<Entry>, from: nat, ident: Name) {
    exists i: nat :: FreeAt(es, from, i, ident)
  }

  lemma FreeAlike(es: seq<Entry>, fs: seq<Entry>, from: nat, d: nat, ident: Name)
    requires |fs| == |es| + d && from <= |es|
    requires forall k {:trigger es[k]} :: from <= k < |es| ==> Alike(es[k], fs[k + d])
    ensures Free(es, from, ident) <==> Free(fs, from + d, ident)
  {
    if Free(es, from, ident) {
      var i: nat :| FreeAt(es, from, i, ident);
      assert Alike(es[i], fs[i + d]);
      forall k | from + d <= k < i + d ensures fs[k].Scope? && !Binds(fs[k], ident) {
        assert Alike(es[k - d], fs[k - d + d]);
      }
      assert FreeAt(fs, from + d, i + d, ident);
    }
    if Free(fs, from + d, ident) {
      var j: nat :| FreeAt(fs, from + d, j, ident);
      assert Alike(es[j - d], fs[j - d + d]);
      forall k | from <= k < j - d ensures es[k].Scope? && !Binds(es[k], ident) {
        assert Alike(es[k], fs[k + d]);
      }
      assert FreeAt(es, from, j - d, ident);
    }
  }

  /** The first barrier before a binding is the one that a lookup captures at. */
  lemma OwnCapture(es: seq<Entry>, b: nat, c: nat, i: nat, ident: Name)
    requires OwnBarrier(es, b) && OneBefore(es, c, i, ident)
    ensures c == b < i && !Within(es, b, ident)
  {
  }

  lemma FreeCaptured(es: seq<Entry>, b: nat, ident: Name)
    requires OwnBarrier(es, b)
    ensures !Within(es, b, ident) && Free(es, b + 1, ident) ==>
      exists i: nat :: OneBefore(es, b, i, ident) && !es[i].table[ident].rawFunction
    ensures forall i: nat :: OneBefore(es, b, i, ident) && !es[i].table[ident].rawFunction ==> Free(es, b + 1, ident)
  {
    if !Within(es, b, ident) && Free(es, b + 1, ident) {
      var i: nat :| FreeAt(es, b + 1, i, ident);
      assert OneBefore(es, b, i, ident);
    }
    forall i: nat | OneBefore(es, b, i, ident) && !es[i].table[ident].rawFunction
      ensures Free(es, b + 1, ident)
    {
      assert FreeAt(es, b + 1, i, ident);
    }
  }

  /** A body inside another closure, whose barrier is entry `c`, leaves the list of barrier `b` behind it alone. */
  lemma {:induction false} RunBeyond(fuel: nat, s: Stack, items: seq<Item>, c: nat, b: nat)
    requires s.entries != [] && s.entries[0].Scope? && c < b < |s.entries| && s.entries[c].Barrier? &&
      s.entries[b].Barrier?
    requires Run(fuel, s, items).Some?
    ensures var t := Run(fuel, s, items).value; |t.entries| == |s.entries| && t.entries[b] == s.entries[b]
    decreases items, 0
  {
    if items != [] {
      RunItemBeyond(fuel, s, items[0], c, b);
      RunItemBelow(fuel, s, items[0]);
      var t := RunItem(fuel, s, items[0]).value;
      assert Alike(s.entries[c], t.entries[c]) && Alike(s.entries[b], t.entries[b]);
      RunBeyond(fuel, t, items[1..], c, b);
    }
  }

  lemma {:induction false} RunItemBeyond(fuel: nat, s: Stack, item: Item, c: nat, b: nat)
    requires s.entries != [] && s.entries[0].Scope? && c < b < |s.entries| && s.entries[c].Barrier? &&
      s.entries[b].Barrier?
    requires RunItem(fuel, s, item).Some?
    ensures var t := RunItem(fuel, s, item).value; |t.entries| == |s.entries| && t.entries[b] == s.entries[b]
    decreases item, 1
  {
    match item
    case Decl(_, _) =>
    case Look(ident) => LookBeyond(fuel, s, ident, c, b);
    case Block(items) => RunBeyond(fuel, Pushed(s), items, c + 1, b + 1);
    case Closure(items) => RunBeyond(fuel, Pushed(ClosurePushed(s)), items, c + 2, b + 2);
  }

  lemma LookBeyond(fuel: nat, s: Stack, ident: Name, c: nat, b: nat)
    requires s.entries != [] && s.entries[0].Scope? && c < b < |s.entries| && s.entries[c].Barrier? &&
      s.entries[b].Barrier?
    requires Get(fuel, Callback, s, 0, ident).Done?
    ensures var t := Get(fuel, Callback, s, 0, ident).stack;
            |t.entries| == |s.entries| && t.entries[b] == s.entries[b]
  {
    LookOutcome(fuel, s, ident);
    var t := Get(fuel, Callback, s, 0, ident).stack;
    if k: nat, i: nat :| OneBefore(s.entries, k, i, ident) && t == Callback(s, k, i, ident) {
      assert b != k && b != i && b != 0;
    }
  }

  /** What a body adds to the list of its closure's barrier `b`: for a variable that the closure can take in, one entry
      for each time it is needed; for other names none. */
  ghost predicate Lists(s: Stack, t: Stack, b: nat, ident: Name, needed: (nat, bool)) {
    b < |s.entries| == |t.entries| && s.entries[b].Barrier? && t.entries[b].Barrier? &&
    Listed(t.entries[b].captures, ident) ==
      Listed(s.entries[b].captures, ident) + (if Free(s.entries, b + 1, ident) then needed.0 else 0) &&
    (Free(s.entries, b + 1, ident) ==> (Within(t.entries, b, ident) <==> needed.1))
  }

  lemma {:induction false} RunLists(fuel: nat, s: Stack, items: seq<Item>, b: nat, ident: Name)
    requires OwnBarrier(s.entries, b) && Run(fuel, s, items).Some?
    ensures Lists(s, Run(fuel, s, items).value, b, ident, Needed(items, ident, Within(s.entries, b, ident)))
    decreases items, 0
  {
    if items != [] {
      RunItemLists(fuel, s, items[0], b, ident);
      RunItemBelow(fuel, s, items[0]);
      var t := RunItem(fuel, s, items[0]).value;
      OwnKept(s, t, b, ident);
      RunLists(fuel, t, items[1..], b, ident);
      if !Free(s.entries, b + 1, ident) {
        assert Listed(t.entries[b].captures, ident) == Listed(s.entries[b].captures, ident);
      }
    }
  }

  lemma OwnKept(s: Stack, t: Stack, b: nat, ident: Name)
    requires OwnBarrier(s.entries, b) && SameBelow(s, t)
    ensures OwnBarrier(t.entries, b) && (Free(t.entries, b + 1, ident) <==> Free(s.entries, b + 1, ident))
  {
    assert forall k :: 0 < k <= b ==> Alike(s.entries[k], t.entries[k]);
    FreeBelow(s, t, b + 1, ident);
  }

  lemma FreeBelow(s: Stack, t: Stack, from: nat, ident: Name)
    requires SameBelow(s, t) && 0 < from <= |s.entries|
    ensures Free(t.entries, from, ident) <==> Free(s.entries, from, ident)
  {
    forall k {:trigger s.entries[k]} | from <= k < |s.entries| ensures Alike(s.entries[k], t.entries[k + 0]) {
      assert Alike(s.entries[k], t.entries[k]);
    }
    FreeAlike(s.entries, t.entries, from, 0, ident);
  }

  lemma {:induction false} RunItemLists(fuel: nat, s: Stack, item: Item, b: nat, ident: Name)
    requires OwnBarrier(s.entries, b) && RunItem(fuel, s, item).Some?
    ensures Lists(s, RunItem(fuel, s, item).value, b, ident, NeededFirst(item, ident, Within(s.entries, b, ident)))
    decreases item, 1
  {
    match item
    case Decl(x, bundle) => DeclLists(s, x, bundle, b, ident);
    case Look(x) => LookLists(fuel, s, x, b, ident);
    case Block(items) =>
      var p := Pushed(s);
      OwnPushed(s, b, ident);
      RunLists(fuel, p, items, b + 1, ident);
      RunItemBelow(fuel, s, item);
      WithinKept(s, RunItem(fuel, s, item).value, b, ident);
    case Closure(items) =>
      RunBeyond(fuel, Pushed(ClosurePushed(s)), items, 1, b + 2);
      RunItemBelow(fuel, s, item);
      WithinKept(s, RunItem(fuel, s, item).value, b, ident);
  }

  lemma OwnPushed(s: Stack, b: nat, ident: Name)
    requires OwnBarrier(s.entries, b)
    ensures var es := Pushed(s).entries;
            OwnBarrier(es, b + 1) && (Within(es, b + 1, ident) <==> Within(s.entries, b, ident)) &&
            (Free(es, b + 2, ident) <==> Free(s.entries, b + 1, ident))
  {
    var es := Pushed(s).entries;
    if Within(s.entries, b, ident) {
      var k :| 0 <= k < b && Binds(s.entries[k], ident);
      assert es[k + 1] == s.entries[k] && Binds(es[k + 1], ident);
    }
    FreeFront([Scope(map[])], s.entries, b + 1, ident);
  }

  lemma FreeFront(front: seq<Entry>, es: seq<Entry>, from: nat, ident: Name)
    requires from <= |es|
    ensures Free(front + es, from + |front|, ident) <==> Free(es, from, ident)
  {
    var fs, d := front + es, |front|;
    forall k {:trigger es[k]} | from <= k < |es| ensures Alike(es[k], fs[k + d]) {
      assert fs[k + d] == es[k];
    }
    FreeAlike(es, fs, from, d, ident);
  }

  lemma WithinKept(s: Stack, t: Stack, b: nat, ident: Name)
    requires AllAlike(s, t) && b <= |s.entries|
    ensures Within(t.entries, b, ident) <==> Within(s.entries, b, ident)
  {
    forall k | 0 <= k < b ensures Binds(t.entries[k], ident) <==> Binds(s.entries[k], ident) {
      assert Alike(s.entries[k], t.entries[k]);
    }
  }

  lemma DeclLists(s: Stack, x: Name, bundle: Bundle, b: nat, ident: Name)
    requires OwnBarrier(s.entries, b)
    ensures Lists(s, Put(s, x, bundle), b, ident, NeededFirst(Decl(x, bundle), ident, Within(s.entries, b, ident)))
  {
    var t := Put(s, x, bundle);
    if x == ident {
      assert Binds(t.entries[0], ident);
    } else {
      forall k | 0 <= k < b ensures Binds(t.entries[k], ident) <==> Binds(s.entries[k], ident) {}
    }
  }

  lemma LookLists(fuel: nat, s: Stack, x: Name, b: nat, ident: Name)
    requires OwnBarrier(s.entries, b) && Get(fuel, Callback, s, 0, x).Done?
    ensures Lists(s, Get(fuel, Callback, s, 0, x).stack, b, ident,
                  NeededFirst(Look(x), ident, Within(s.entries, b, ident)))
  {
    LookOutcome(fuel, s, x);
    FreeCaptured(s.entries, b, x);
    var t := Get(fuel, Callback, s, 0, x).stack;
    if c: nat, i: nat :| OneBefore(s.entries, c, i, x) && t == Callback(s, c, i, x) {
      OwnCapture(s.entries, b, c, i, x);
      CaptureLists(s, b, i, x, ident);
    }
  }

  /** One capture. */
  lemma CaptureLists(s: Stack, b: nat, i: nat, x: Name, ident: Name)
    requires OwnBarrier(s.entries, b) && OneBefore(s.entries, b, i, x)
    ensures Lists(s, Callback(s, b, i, x), b, ident, NeededFirst(Look(x), ident, Within(s.entries, b, ident)))
  {
    OwnCapture(s.entries, b, b, i, x);
    FreeCaptured(s.entries, b, x);
    forall j: nat | OneBefore(s.entries, b, j, x) ensures j == i {}
    CaptureCounts(s, b, i, x, ident);
    CaptureWithin(s, b, i, x, ident);
  }

  lemma CaptureCounts(s: Stack, b: nat, i: nat, x: Name, ident: Name)
    requires OwnBarrier(s.entries, b) && OneBefore(s.entries, b, i, x)
    ensures var t := Callback(s, b, i, x);
            |t.entries| == |s.entries| && t.entries[b].Barrier? &&
            Listed(t.entries[b].captures, ident) == Listed(s.entries[b].captures, ident) +
              if x == ident && !s.entries[i].table[x].rawFunction then 1 else 0
  {
    var t := Callback(s, b, i, x);
    if !s.entries[i].table[x].rawFunction {
      var c := t.entries[b].captures[|s.entries[b].captures|];
      ListedMore(s.entries[b].captures, c, ident);
    }
  }

  lemma CaptureWithin(s: Stack, b: nat, i: nat, x: Name, ident: Name)
    requires OwnBarrier(s.entries, b) && OneBefore(s.entries, b, i, x)
    ensures var t := Callback(s, b, i, x);
            |t.entries| == |s.entries| && (Within(t.entries, b, ident) <==> Within(s.entries, b, ident) || x == ident)
  {
    var t := Callback(s, b, i, x);
    if x == ident {
      assert Binds(t.entries[0], ident);
    } else {
      forall k | 0 <= k < b ensures Binds(t.entries[k], ident) <==> Binds(s.entries[k], ident) {}
    }
  }

  /** How often a closure has to take a variable in. */
  ghost function Taken(s: Stack, items: seq<Item>, ident: Name): nat {
    if Free(s.entries, 0, ident) then Needed(items, ident, false).0 else 0
  }

  ghost predicate ListsTaken(fuel: nat, s: Stack, items: seq<Item>, ident: Name)
    requires Run(fuel, Pushed(ClosurePushed(s)), items).Some?
  {
    var es := Run(fuel, Pushed(ClosurePushed(s)), items).value.entries;
    |es| == |s.entries| + 2 && es[1].Barrier? && Listed(es[1].captures, ident) == Taken(s, items, ident)
  }

  /**
   * What a closure's list holds, for every body that compiles: a variable that its surroundings bind with no barrier
   * in between, and not to a plain function, exactly as often as the body needs it, and nothing else. So it is listed
   * at most once exactly if the body needs it at most once.
   */
  lemma ClosureLists(fuel: nat, s: Stack, items: seq<Item>, ident: Name)
    requires Run(fuel, Pushed(ClosurePushed(s)), items).Some?
    ensures ListsTaken(fuel, s, items, ident)
  {
    var p := Pushed(ClosurePushed(s));
    assert p.entries == [Scope(map[]), Barrier([])] + s.entries && p.entries[1].captures == [];
    assert OwnBarrier(p.entries, 1) && !Within(p.entries, 1, ident);
    RunLists(fuel, p, items, 1, ident);
    FreeFront([Scope(map[]), Barrier([])], s.entries, 0, ident);
  }

  // ---------------------------------------------------------------- which cells a closure shares

  /** Every entry of the barrier's list for a variable has the one counted cell of that variable. */
  ghost predicate Shares(s: Stack, b: nat, i: nat, x: Name) {
    b < i < |s.entries| && s.entries[b].Barrier? && Binds(s.entries[i], x) &&
    forall c :: c in s.entries[b].captures && c.ident == x ==>
      s.entries[i].table[x].closed && c.outer == s.entries[i].table[x].value
  }

  lemma FreeAtBelow(s: Stack, t: Stack, from: nat, i: nat, x: Name)
    requires SameBelow(s, t) && from > 0 && FreeAt(s.entries, from, i, x)
    ensures FreeAt(t.entries, from, i, x) && SameVariable(s.entries[i].table[x], t.entries[i].table[x])
  {
    forall k | from <= k <= i ensures Alike(s.entries[k], t.entries[k]) {}
  }

  lemma FreeAtFront(front: seq<Entry>, es: seq<Entry>, from: nat, i: nat, x: Name)
    requires FreeAt(es, from, i, x)
    ensures FreeAt(front + es, from + |front|, i + |front|, x)
  {
    var fs, d := front + es, |front|;
    forall k | from + d <= k < i + d ensures fs[k].Scope? && !Binds(fs[k], x) {
      assert fs[k] == es[k - d];
    }
  }

  lemma {:induction false} RunShares(fuel: nat, s: Stack, items: seq<Item>, b: nat, i: nat, x: Name)
    requires OwnBarrier(s.entries, b) && FreeAt(s.entries, b + 1, i, x) && Shares(s, b, i, x)
    requires Run(fuel, s, items).Some?
    ensures Shares(Run(fuel, s, items).value, b, i, x)
    decreases items, 0
  {
    if items != [] {
      RunItemShares(fuel, s, items[0], b, i, x);
      RunItemBelow(fuel, s, items[0]);
      var t := RunItem(fuel, s, items[0]).value;
      OwnKept(s, t, b, x);
      FreeAtBelow(s, t, b + 1, i, x);
      RunShares(fuel, t, items[1..], b, i, x);
    }
  }

  lemma {:induction false} RunItemShares(fuel: nat, s: Stack, item: Item, b: nat, i: nat, x: Name)
    requires OwnBarrier(s.entries, b) && FreeAt(s.entries, b + 1, i, x) && Shares(s, b, i, x)
    requires RunItem(fuel, s, item).Some?
    ensures Shares(RunItem(fuel, s, item).value, b, i, x)
    decreases item, 1
  {
    var t := RunItem(fuel, s, item).value;
    match item
    case Decl(_, _) =>
      assert t.entries[b] == s.entries[b] && t.entries[i] == s.entries[i];
    case Look(ident) => LookShares(fuel, s, ident, b, i, x);
    case Block(items) =>
      BlockOpens(s, b, i, x);
      RunShares(fuel, Pushed(s), items, b + 1, i + 1, x);
      BlockCloses(Run(fuel, Pushed(s), items).value, b, i, x);
    case Closure(items) =>
      ClosureBeyond(fuel, s, items, b);
      RunItemBelow(fuel, s, item);
      FreeAtBelow(s, t, b + 1, i, x);
      assert t.entries[b] == s.entries[b];
  }

  lemma ClosureBeyond(fuel: nat, s: Stack, items: seq<Item>, b: nat)
    requires s.entries != [] && s.entries[0].Scope? && b < |s.entries| && s.entries[b].Barrier?
    requires RunItem(fuel, s, Closure(items)).Some?
    ensures var t := RunItem(fuel, s, Closure(items)).value; |t.entries| == |s.entries| && t.entries[b] == s.entries[b]
  {
    var p := Pushed(ClosurePushed(s));
    assert p.entries == [Scope(map[]), Barrier([])] + s.entries;
    RunBeyond(fuel, p, items, 1, b + 2);
  }

  lemma BlockOpens(s: Stack, b: nat, i: nat, x: Name)
    requires OwnBarrier(s.entries, b) && FreeAt(s.entries, b + 1, i, x) && Shares(s, b, i, x)
    ensures var p := Pushed(s);
            OwnBarrier(p.entries, b + 1) && FreeAt(p.entries, b + 2, i + 1, x) && Shares(p, b + 1, i + 1, x)
  {
    OwnPushed(s, b, x);
    FreeAtFront([Scope(map[])], s.entries, b + 1, i, x);
  }

  lemma BlockCloses(u: Stack, b: nat, i: nat, x: Name)
    requires Shares(u, b + 1, i + 1, x)
    ensures Shares(Popped(u), b, i, x)
  {
    assert Popped(u).entries[b] == u.entries[b + 1] && Popped(u).entries[i] == u.entries[i + 1];
  }

  lemma LookShares(fuel: nat, s: Stack, ident: Name, b: nat, i: nat, x: Name)
    requires OwnBarrier(s.entries, b) && FreeAt(s.entries, b + 1, i, x) && Shares(s, b, i, x)
    requires Get(fuel, Callback, s, 0, ident).Done?
    ensures Shares(Get(fuel, Callback, s, 0, ident).stack, b, i, x)
  {
    LookOutcome(fuel, s, ident);
    var t := Get(fuel, Callback, s, 0, ident).stack;
    if c: nat, j: nat :| OneBefore(s.entries, c, j, ident) && t == Callback(s, c, j, ident) {
      OwnCapture(s.entries, b, c, j, ident);
      if ident == x {
        assert j == i;
      }
      CaptureShares(s, b, j, ident, i, x);
    }
  }

  lemma CaptureShares(s: Stack, b: nat, j: nat, ident: Name, i: nat, x: Name)
    requires OwnBarrier(s.entries, b) && OneBefore(s.entries, b, j, ident) && Shares(s, b, i, x)
    requires ident == x ==> j == i
    ensures Shares(Callback(s, b, j, ident), b, i, x)
  {
    CaptureEffect(s, b, j, ident);
  }

  /** All that a closure lists for a variable is the variable's cell. */
  lemma ClosureShares(fuel: nat, s: Stack, items: seq<Item>, i: nat, x: Name)
    requires FreeAt(s.entries, 0, i, x) && Run(fuel, Pushed(ClosurePushed(s)), items).Some?
    ensures Shares(Run(fuel, Pushed(ClosurePushed(s)), items).value, 1, i + 2, x)
  {
    var p := Pushed(ClosurePushed(s));
    FreeAtFront([Scope(map[]), Barrier([])], s.entries, 0, i, x);
    assert p.entries == [Scope(map[]), Barrier([])] + s.entries;
    RunShares(fuel, p, items, 1, i + 2, x);
  }

  /** A body that does not declare the name anew leaves it bound to the same variable. */
  lemma {:induction false} RunKeepsFree(fuel: nat, s: Stack, items: seq<Item>, i: nat, x: Name)
    requires s.entries != [] && s.entries[0].Scope? && FreeAt(s.entries, 0, i, x)
    requires Run(fuel, s, items).Some? && forall item :: item in items ==> !(item.Decl? && item.ident == x)
    ensures var t := Run(fuel, s, items).value;
            t.entries != [] && t.entries[0].Scope? && FreeAt(t.entries, 0, i, x) &&
            SameVariable(s.entries[i].table[x], t.entries[i].table[x])
    decreases |items|
  {
    if items != [] {
      RunItemKeepsFree(fuel, s, items[0], i, x);
      RunKeepsFree(fuel, RunItem(fuel, s, items[0]).value, items[1..], i, x);
    }
  }

  lemma RunItemKeepsFree(fuel: nat, s: Stack, item: Item, i: nat, x: Name)
    requires s.entries != [] && s.entries[0].Scope? && FreeAt(s.entries, 0, i, x)
    requires RunItem(fuel, s, item).Some? && !(item.Decl? && item.ident == x)
    ensures var t := RunItem(fuel, s, item).value;
            t.entries != [] && t.entries[0].Scope? && FreeAt(t.entries, 0, i, x) &&
            SameVariable(s.entries[i].table[x], t.entries[i].table[x])
  {
    RunItemBelow(fuel, s, item);
    var t := RunItem(fuel, s, item).value;
    if item.Look? {
      LookKeepsTop(fuel, s, item.ident, i, x);
    }
    assert Alike(s.entries[0], t.entries[0]) || item.Decl? || item.Look?;
    if i > 0 {
      FreeAtBelow(s, t, 1, i, x);
    }
  }

  lemma LookKeepsTop(fuel: nat, s: Stack, ident: Name, i: nat, x: Name)
    requires s.entries != [] && s.entries[0].Scope? && FreeAt(s.entries, 0, i, x)
    requires Get(fuel, Callback, s, 0, ident).Done?
    ensures var t := Get(fuel, Callback, s, 0, ident).stack;
            t.entries != [] && t.entries[0].Scope? && (Binds(t.entries[0], x) <==> Binds(s.entries[0], x)) &&
            (Binds(s.entries[0], x) ==> t.entries[0].table[x] == s.entries[0].table[x])
  {
    LookOutcome(fuel, s, ident);
    var t := Get(fuel, Callback, s, 0, ident).stack;
    if c: nat, j: nat :| OneBefore(s.entries, c, j, ident) && t == Callback(s, c, j, ident) {
      assert ident != x;
      CaptureEffect(s, c, j, ident);
    }
  }

  /**
   * Closures share what they both take in: two closures compiled in one scope, with anything in between that does not
   * declare the name anew, list the same counted cell for a variable.
   */
  lemma TwoClosuresShare(fuel: nat, s: Stack, first: seq<Item>, between: seq<Item>, second: seq<Item>, i: nat, x: Name)
    requires s.entries != [] && s.entries[0].Scope? && FreeAt(s.entries, 0, i, x)
    requires forall item :: item in between ==> !(item.Decl? && item.ident == x)
    requires RunItem(fuel, s, Closure(first)).Some?
    requires Run(fuel, RunItem(fuel, s, Closure(first)).value, between).Some?
    requires var m := Run(fuel, RunItem(fuel, s, Closure(first)).value, between).value;
      RunItem(fuel, m, Closure(second)).Some?
    ensures var m := Run(fuel, RunItem(fuel, s, Closure(first)).value, between).value;
      forall c, d :: c in ListOf(fuel, s, first) && d in ListOf(fuel, m, second) && c.ident == d.ident == x ==>
        c.outer == d.outer
  {
    var s1 := RunItem(fuel, s, Closure(first)).value;
    var m := Run(fuel, s1, between).value;
    ClosureShares(fuel, s, first, i, x);
    RunItemKeepsFree(fuel, s, Closure(first), i, x);
    RunKeepsFree(fuel, s1, between, i, x);
    ClosureShares(fuel, m, second, i, x);
    RunItemKeepsFree(fuel, m, Closure(second), i, x);
    ListShared(fuel, s, first, i, x);
    ListShared(fuel, m, second, i, x);
  }

  /** The variables that a closure takes in. */
  function ListOf(fuel: nat, s: Stack, items: seq<Item>): seq<Capture> {
    var r := Run(fuel, Pushed(ClosurePushed(s)), items);
    if r.Some? && |r.value.entries| > 1 && r.value.entries[1].Barrier? then r.value.entries[1].captures else []
  }

  lemma ListShared(fuel: nat, s: Stack, items: seq<Item>, i: nat, x: Name)
    requires FreeAt(s.entries, 0, i, x) && RunItem(fuel, s, Closure(items)).Some?
    ensures var t := RunItem(fuel, s, Closure(items)).value;
      i < |t.entries| && Binds(t.entries[i], x) &&
      forall c :: c in ListOf(fuel, s, items) && c.ident == x ==>
        t.entries[i].table[x].closed && c.outer == t.entries[i].table[x].value
  {
    ClosureShares(fuel, s, items, i, x);
    var u, t := Run(fuel, Pushed(ClosurePushed(s)), items).value, RunItem(fuel, s, Closure(items)).value;
    assert t.entries == u.entries[2..] && t.entries[i] == u.entries[i + 2];
  }

  /** For each variable that was there to be taken in, the list has its counted cell. */
  ghost predicate HoldsCells(s: Stack, t: Stack, captures: seq<Capture>) {
    forall i: nat, x, c {:trigger FreeAt(s.entries, 0, i, x), c in captures} ::
      FreeAt(s.entries, 0, i, x) && c in captures && c.ident == x ==>
      i < |t.entries| && Binds(t.entries[i], x) &&
      t.entries[i].table[x].closed && c.outer == t.entries[i].table[x].value
  }

  lemma ListHoldsCells(fuel: nat, s: Stack, items: seq<Item>)
    requires RunItem(fuel, s, Closure(items)).Some?
    ensures HoldsCells(s, RunItem(fuel, s, Closure(items)).value, ListOf(fuel, s, items))
  {
    forall i: nat, x | FreeAt(s.entries, 0, i, x)
      ensures var t := RunItem(fuel, s, Closure(items)).value;
        i < |t.entries| && Binds(t.entries[i], x) &&
        forall c :: c in ListOf(fuel, s, items) && c.ident == x ==>
          t.entries[i].table[x].closed && c.outer == t.entries[i].table[x].value
    {
      ListShared(fuel, s, items, i, x);
    }
  }

  /** A lookup inside a block and another one after it: the variable is listed twice, since the first binding went with
      the block. */
  lemma ListedTwice(s: Stack, ident: Name)
    requires Free(s.entries, 0, ident)
    ensures var r := Run(2, Pushed(ClosurePushed(s)), [Block([Look(ident)]), Look(ident)]);
            r.Some? && |r.value.entries| == |s.entries| + 2 && r.value.entries[1].Barrier? &&
            Listed(r.value.entries[1].captures, ident) == 2
  {
    var p := Pushed(ClosurePushed(s));
    var i: nat :| FreeAt(s.entries, 0, i, ident);
    assert p.entries == [Scope(map[]), Barrier([])] + s.entries;
    forall k | 0 <= k < i + 2 && k != 1 ensures p.entries[k].Scope? && !Binds(p.entries[k], ident) {
      assert k >= 2 ==> p.entries[k] == s.entries[k - 2];
    }
    assert OneBefore(p.entries, 1, i + 2, ident);
    CapturedAgain(p, 1, i + 2, ident);
    TwoLooks(p, ident);
    ClosureLists(2, s, [Block([Look(ident)]), Look(ident)], ident);
  }

  lemma TwoLooks(p: Stack, ident: Name)
    ensures var items := [Block([Look(ident)]), Look(ident)];
            Needed(items, ident, false).0 == 2 &&
            var first := Get(2, Callback, Pushed(p), 0, ident);
            Run(2, p, items) ==
              if first.Running? then None
              else
                var second := Get(2, Callback, Popped(first.stack), 0, ident);
                if second.Done? then Some(second.stack) else None
  {
    var items := [Block([Look(ident)]), Look(ident)];
    assert items[1..] == [Look(ident)];
    OneItem(Pushed(p), Look(ident), ident);
    var first := Get(2, Callback, Pushed(p), 0, ident);
    if first.Done? {
      OneItem(Popped(first.stack), Look(ident), ident);
    }
  }

  lemma OneItem(s: Stack, item: Item, ident: Name)
    ensures Run(2, s, [item]) == RunItem(2, s, item) && Needed([item], ident, false) == NeededFirst(item, ident, false)
  {
    assert [item][1..] == [];
  }

  /** Without blocks a body needs no variable twice. */
  lemma {:induction false} FlatNeeded(items: seq<Item>, ident: Name, bound: bool)
    requires forall item :: item in items ==> !item.Block?
    ensures Needed(items, ident, bound).0 <= if bound then 0 else 1
  {
    if items != [] {
      FlatNeeded(items[1..], ident, NeededFirst(items[0], ident, bound).1);
    }
  }

  lemma OneBeforePushed(s: Stack, b: nat, i: nat, ident: Name)
    requires OneBefore(s.entries, b, i, ident)
    ensures OneBefore(Pushed(s).entries, b + 1, i + 1, ident)
  {
    var es := Pushed(s).entries;
    forall k | 0 <= k < i + 1 && k != b + 1 ensures es[k].Scope? && !Binds(es[k], ident) {
      assert k == 0 || es[k] == s.entries[k - 1];
    }
  }

  lemma OneBeforePopped(s: Stack, t: Stack, b: nat, i: nat, ident: Name)
    requires OneBefore(s.entries, b, i, ident) && SameBelow(Pushed(s), t)
    ensures OneBefore(Popped(t).entries, b, i, ident)
  {
    var p, es := Pushed(s), Popped(t).entries;
    forall k | 0 <= k < |s.entries|
      ensures es[k].Scope? == s.entries[k].Scope? && (Binds(es[k], ident) <==> Binds(s.entries[k], ident))
    {
      assert p.entries[k + 1] == s.entries[k] && es[k] == t.entries[k + 1];
      assert Alike(p.entries[k + 1], t.entries[k + 1]);
    }
  }

  /** A variable captured inside a block is captured again after it: the block's scope had the binding. */
  lemma CapturedAgain(s: Stack, b: nat, i: nat, ident: Name)
    requires s.entries != [] && s.entries[0].Scope? && OneBefore(s.entries, b, i, ident)
    ensures var t := Callback(Pushed(s), b + 1, i + 1, ident);
            Get(2, Callback, Pushed(s), 0, ident) == Done(t, Some(0)) &&
            Get(2, Callback, Popped(t), 0, ident) == Done(Callback(Popped(t), b, i, ident), Some(0))
  {
    var p := Pushed(s);
    ClosureCaptures();
    OneBeforePushed(s, b, i, ident);
    GetCaptures(2, Callback, p, b + 1, i + 1, ident);
    var t := Callback(p, b + 1, i + 1, ident);
    CallbackBelow(p, b + 1, i + 1, ident);
    OneBeforePopped(s, t, b, i, ident);
    GetCaptures(2, Callback, Popped(t), b, i, ident);
  }

  // ---------------------------------------------------------------- the stack itself

  class VarScopeStack {
    const callback: ClosedCallback
    var stack: Stack

    /** vs_make, with the callback that the barriers are going to have. */
    constructor (callback: ClosedCallback)
      ensures stack == Stack([], 0) && this.callback == callback
    {
      this.callback := callback;
      stack := Stack([], 0);
    }

    /** vs_push */
    method Push()
      modifies this
      ensures stack == Pushed(old(stack))
    {
      stack := stack.(entries := [Scope(map[])] + stack.entries);
    }

    /** vs_pop */
    method Pop()
      modifies this
      ensures stack == Popped(old(stack))
    {
      if stack.entries != [] {
        stack := stack.(entries := stack.entries[1..]);
      }
    }

    /** vs_push_closure */
    method PushClosure()
      modifies this
      ensures stack == ClosurePushed(old(stack))
    {
      stack := stack.(entries := [Barrier([])] + stack.entries);
    }

    /** vs_put */
    method PutVariable(ident: Name, b: Bundle)
      requires stack.entries != [] && stack.entries[0].Scope?
      modifies this
      ensures stack == Put(old(stack), ident, b)
    {
      var top := Scope(stack.entries[0].table[ident := b]);
      stack := stack.(entries := stack.entries[0 := top]);
    }

    /** vs_get, where it ends: `fuel` bounds the nested calls. */
    method Lookup(ident: Name, from: nat, ghost fuel: nat) returns (found: Option<nat>)
      requires Get(fuel, callback, stack, from, ident).Done?
      modifies this
      ensures Get(fuel, callback, old(stack), from, ident) == Done(stack, found)
      decreases fuel
    {
      var i := Walk(ident, from);
      if i >= |stack.entries| {
        return None;
      }
      if stack.entries[i].Scope? {
        return Some(i);
      }
      found := Lookup(ident, i + 1, fuel - 1);
      if found.Some? {
        stack := callback(stack, i, found.value, ident);
        found := Lookup(ident, from, fuel - 1);
      }
    }

    /** vs_get from the top, wherever it ends. */
    method GetVariable(ident: Name) returns (found: Option<nat>)
      requires stack.entries != [] && stack.entries[0].Scope? && Captures(callback) && Ends(callback, stack, ident)
      modifies this
      ensures CapturedOrNot(old(stack), stack, 0, found, ident)
      ensures exists fuel: nat :: Get(fuel, callback, old(stack), 0, ident) == Done(stack, found)
    {
      ghost var fuel: nat :| Get(fuel, callback, stack, 0, ident).Done?;
      GetKeeps(fuel, callback, stack, 0, ident);
      found := Lookup(ident, 0, fuel);
    }

    /** A body as the compiler walks over it; no lookup in it may go on forever. */
    method CompileBody(items: seq<Item>, ghost fuel: nat)
      requires callback == Callback && Run(fuel, stack, items).Some?
      modifies this
      ensures Some(stack) == Run(fuel, old(stack), items)
      decreases items, 0
    {
      var i := 0;
      while i < |items|
        invariant i <= |items| && Run(fuel, stack, items[i..]) == Run(fuel, old(stack), items)
      {
        CompileItem(items[i], fuel);
        assert items[i..][1..] == items[i + 1..];
        i := i + 1;
      }
    }

    method CompileItem(item: Item, ghost fuel: nat)
      requires callback == Callback && RunItem(fuel, stack, item).Some?
      modifies this
      ensures Some(stack) == RunItem(fuel, old(stack), item)
      decreases item, 2
    {
      match item
      case Decl(ident, b) => PutVariable(ident, b);
      case Look(ident) => var _ := Lookup(ident, 0, fuel);
      case Block(items) =>
        Push();
        CompileBody(items, fuel);
        Pop();
      case Closure(items) => var _ := CompileClosure(items, fuel);
    }

    /** ac_compile_closure, as far as it concerns the stack: the variables that the closure takes in. */
    method CompileClosure(items: seq<Item>, ghost fuel: nat) returns (captures: seq<Capture>)
      requires callback == Callback && Run(fuel, Pushed(ClosurePushed(stack)), items).Some?
      modifies this
      ensures Some(stack) == RunItem(fuel, old(stack), Closure(items))
      ensures captures == ListOf(fuel, old(stack), items) && HoldsCells(old(stack), stack, captures)
      ensures forall ident :: Listed(captures, ident) == Taken(old(stack), items, ident)
      decreases items, 1
    {
      ghost var s, u := stack, Run(fuel, Pushed(ClosurePushed(stack)), items).value;
      ClosureLists(fuel, s, items, Name(""));
      forall ident ensures Listed(u.entries[1].captures, ident) == Taken(s, items, ident) {
        ClosureLists(fuel, s, items, ident);
      }
      ListHoldsCells(fuel, s, items);
      PushClosure();
      Push();
      CompileBody(items, fuel);
      Pop();
      captures := stack.entries[0].captures;
      Pop();
    }

    /** The loop of vs_get. */
    method Walk(ident: Name, from: nat) returns (i: nat)
      ensures i == Scan(stack.entries, from, ident)
    {
      i := from;
      while i < |stack.entries| && stack.entries[i].Scope? && ident !in stack.entries[i].table
        invariant from <= i && Scan(stack.entries, from, ident) == Scan(stack.entries, i, ident)
      {
        i := i + 1;
      }
    }

    /** ac_closure_callback, the callback that closures use. */
    method ClosureCallback(b: nat, j: nat, ident: Name)
      requires Outside(stack, b, j, ident)
      modifies this
      ensures stack == Callback(old(stack), b, j, ident)
    {
      var vb := stack.entries[j].table[ident];
      if vb.rawFunction {
        PutVariable(ident, vb.(used := false));
        return;
      }
      vb := vb.(used := true);
      if !vb.closed {
        vb := vb.(closed := true, value := stack.values);
        stack := stack.(values := stack.values + 1);
      }
      var outer := Scope(stack.entries[j].table[ident := vb]);
      var temp := stack.values;
      stack := Stack(stack.entries[j := outer], temp + 1);
      var barrier := Barrier(stack.entries[b].captures + [Capture(ident, vb.value, temp)]);
      stack := stack.(entries := stack.entries[b := barrier]);
      PutVariable(ident, vb.(value := temp, used := false));
    }
  }
}
