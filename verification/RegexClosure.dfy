/** Silent moves: what the set of marked states must satisfy to be an epsilon closure. */
module RegexClosure {
  import opened RegexSyntax
  import opened RegexNfa
  import opened RegexPaths

  /** Every field the simulation follows has been filled with a state, and every code is a known one. */
  ghost predicate Total(g: seq<State>) {
    forall i :: 0 <= i < |g| ==>
      (g[i].c != MATCH ==> LeadsInside(g, g[i].out)) &&
      (g[i].c == SPLIT ==> LeadsInside(g, g[i].outAlt)) &&
      (g[i].c in {SPLIT, MATCH} || -128 <= g[i].c < 128)
  }

  predicate LeadsInside(g: seq<State>, link: Link) { link.To? && link.state < |g| }

  /** `t` is one silent move away from `s`. */
  predicate SilentStep(g: seq<State>, s: nat, t: nat)
    requires s < |g|
  {
    IsEpsilon(g[s]) && (g[s].out == To(t) || (g[s].c == SPLIT && g[s].outAlt == To(t)))
  }

  /** The states of `v` outside `but` have all their silent successors in `v`. */
  ghost predicate ClosedBut(g: seq<State>, v: set<nat>, but: set<nat>) {
    forall s, t: nat :: s in v - but && s < |g| && SilentStep(g, s, t) ==> t in v
  }

  lemma {:induction false} ClosedReach(g: seq<State>, ic: bool, v: set<nat>, n: nat, s: nat, t: nat)
    requires ClosedBut(g, v, {}) && s in v
    requires Path(g, ic, n, s, [], t)
    ensures t in v
  {
    if n > 0 {
      if PathVia(g, ic, n, g[s].out, [], t) {
        assert SilentStep(g, s, g[s].out.state);
        ClosedReach(g, ic, v, n - 1, g[s].out.state, t);
      } else {
        assert SilentStep(g, s, g[s].outAlt.state);
        ClosedReach(g, ic, v, n - 1, g[s].outAlt.state, t);
      }
    }
  }

  ghost predicate ClosureOf(g: seq<State>, ic: bool, s: nat, batch: set<nat>) {
    forall t :: t in batch ==> CanReach(g, ic, s, [], t)
  }

  /** From `v` to `w`, a batch of states was marked on behalf of `s`: it is silently reachable from `s`,
      and the silent successors of everything in it are marked. */
  ghost predicate Spread(g: seq<State>, ic: bool, v: set<nat>, w: set<nat>, s: nat) {
    v <= w && s in w && ClosedBut(g, w, v) && ClosureOf(g, ic, s, w - v)
  }

  lemma ClosureStep(g: seq<State>, ic: bool, s: nat, t: nat, batch: set<nat>)
    requires s < |g| && SilentStep(g, s, t) && ClosureOf(g, ic, t, batch)
    ensures ClosureOf(g, ic, s, batch)
  {
    ReachEdge(g, ic, s, t);
    forall u | u in batch
      ensures CanReach(g, ic, s, [], u)
    {
      ReachTrans(g, ic, s, EMPTY, t, EMPTY, u);
      assert EMPTY + EMPTY == EMPTY;
    }
  }

  lemma SpreadLeaf(g: seq<State>, ic: bool, v: set<nat>, s: nat)
    requires s < |g| && (s in v || !IsEpsilon(g[s]))
    ensures Spread(g, ic, v, v + {s}, s)
  {
    ReachSelf(g, ic, s);
  }

  lemma SpreadNone(g: seq<State>, ic: bool, v: set<nat>, w: set<nat>, s: nat)
    requires s < |g| && s !in v && g[s].c == NONE && g[s].out.To?
    requires Spread(g, ic, v + {s}, w, g[s].out.state)
    ensures Spread(g, ic, v, w, s)
  {
    ReachSelf(g, ic, s);
    ClosureStep(g, ic, s, g[s].out.state, w - (v + {s}));
    forall a, b: nat | a in w - v && a < |g| && SilentStep(g, a, b)
      ensures b in w
    {
      assert a != s ==> a in w - (v + {s});
    }
  }

  lemma SpreadSplit(g: seq<State>, ic: bool, v: set<nat>, x: set<nat>, w: set<nat>, s: nat)
    requires s < |g| && s !in v && g[s].c == SPLIT && g[s].out.To? && g[s].outAlt.To?
    requires Spread(g, ic, v + {s}, x, g[s].out.state) && Spread(g, ic, x, w, g[s].outAlt.state)
    ensures Spread(g, ic, v, w, s)
  {
    ReachSelf(g, ic, s);
    ClosureStep(g, ic, s, g[s].out.state, x - (v + {s}));
    ClosureStep(g, ic, s, g[s].outAlt.state, w - x);
    forall a, b: nat | a in w - v && a < |g| && SilentStep(g, a, b)
      ensures b in w
    {
      if a == s {
      } else if a in x {
        assert a in x - (v + {s});
      } else {
        assert a in w - x;
      }
    }
    forall t | t in w - v
      ensures CanReach(g, ic, s, [], t)
    {
      assert t == s || t in x - (v + {s}) || t in w - x;
    }
  }

  /** A closed set, grown on behalf of `s`, gains exactly the epsilon closure of `s`. */
  lemma GrownByClosure(g: seq<State>, ic: bool, v: set<nat>, w: set<nat>, s: nat)
    requires ClosedBut(g, v, {}) && Spread(g, ic, v, w, s)
    ensures ClosedBut(g, w, {})
    ensures forall t: nat :: t in w <==> t in v || CanReach(g, ic, s, [], t)
  {
    forall a, b: nat | a in w && a < |g| && SilentStep(g, a, b)
      ensures b in w
    {
      if a in v {
        assert a in v - {};
      } else {
        assert a in w - v;
      }
    }
    forall t: nat
      ensures t in w <==> t in v || CanReach(g, ic, s, [], t)
    {
      if CanReach(g, ic, s, [], t) {
        var n: nat :| Path(g, ic, n, s, [], t);
        ClosedReach(g, ic, w, n, s, t);
      } else if t in w {
        assert t in w - v ==> CanReach(g, ic, s, [], t);
      }
    }
  }

  /** Reading one more character: stop before it, pass over it, then move silently. */
  ghost predicate ReachesOver(g: seq<State>, ic: bool, s: nat, w: CString, c: CChar, u: nat, t: nat) {
    u < |g| && !IsEpsilon(g[u]) && CanReach(g, ic, s, w, u) && Passes(g[u], c, ic) &&
    g[u].out.To? && CanReach(g, ic, g[u].out.state, [], t)
  }

  lemma {:induction false} StopBefore(g: seq<State>, ic: bool, n: nat, s: nat, w: CString, c: CChar, t: nat)
    returns (u: nat)
    requires Path(g, ic, n, s, w + [c], t)
    ensures ReachesOver(g, ic, s, w, c, u, t)
    decreases n
  {
    if IsEpsilon(g[s]) {
      var next := if PathVia(g, ic, n, g[s].out, w + [c], t) then g[s].out.state else g[s].outAlt.state;
      u := StopBefore(g, ic, n - 1, next, w, c, t);
      ReachEdge(g, ic, s, next);
      ReachTrans(g, ic, s, [], next, w, u);
      assert [] + w == w;
    } else if w == [] {
      u := s;
      ReachSelf(g, ic, s);
      assert (w + [c])[1..] == [];
      assert Path(g, ic, n - 1, g[s].out.state, [], t);
    } else {
      assert (w + [c])[1..] == w[1..] + [c];
      var next := g[s].out.state;
      u := StopBefore(g, ic, n - 1, next, w[1..], c, t);
      ReachChar(g, ic, s, w[0], next);
      ReachTrans(g, ic, s, [w[0]], next, w[1..], u);
      assert [w[0]] + w[1..] == w;
    }
  }

  lemma ReachOneMore(g: seq<State>, ic: bool, s: nat, w: CString, c: CChar, t: nat)
    ensures CanReach(g, ic, s, w + [c], t) <==> exists u: nat :: ReachesOver(g, ic, s, w, c, u, t)
  {
    if CanReach(g, ic, s, w + [c], t) {
      var n: nat :| Path(g, ic, n, s, w + [c], t);
      var u := StopBefore(g, ic, n, s, w, c, t);
    }
    if u: nat :| ReachesOver(g, ic, s, w, c, u, t) {
      ReachChar(g, ic, u, c, g[u].out.state);
      ReachTrans(g, ic, u, [c], g[u].out.state, [], t);
      assert [c] + [] == [c];
      ReachTrans(g, ic, s, w, u, [c], t);
    }
  }

  /** Some state of the list can be left on `c` towards `t`. */
  ghost predicate StepsTo(g: seq<State>, ic: bool, us: seq<nat>, c: CChar, t: nat) {
    exists u :: u in us && StepsFrom(g, ic, u, c, t)
  }

  ghost predicate StepsFrom(g: seq<State>, ic: bool, u: nat, c: CChar, t: nat) {
    u < |g| && Passes(g[u], c, ic) && g[u].out.To? && CanReach(g, ic, g[u].out.state, [], t)
  }

  lemma StepsSnoc(g: seq<State>, ic: bool, us: seq<nat>, i: nat, c: CChar)
    requires i < |us|
    ensures forall t :: StepsTo(g, ic, us[..i + 1], c, t) <==>
      StepsTo(g, ic, us[..i], c, t) || StepsFrom(g, ic, us[i], c, t)
  {
  }

  /** Following one more state of the list grows the marks by the closure of its successor. */
  lemma Followed(g: seq<State>, ic: bool, all: seq<nat>, i: nat, c: CChar, v: set<nat>, w: set<nat>)
    requires i < |all| && all[i] < |g| && Passes(g[all[i]], c, ic) && g[all[i]].out.To?
    requires Swept(g, ic, v, all[..i], c) && Spread(g, ic, v, w, g[all[i]].out.state)
    requires forall t: nat :: t in w ==> t < |g|
    ensures Swept(g, ic, w, all[..i + 1], c)
  {
    StepsSnoc(g, ic, all, i, c);
    GrownByClosure(g, ic, v, w, g[all[i]].out.state);
    forall t: nat
      ensures t in w <==> t < |g| && StepsTo(g, ic, all[..i + 1], c, t)
    {
      assert StepsTo(g, ic, all[..i + 1], c, t) <==> StepsTo(g, ic, all[..i], c, t) || StepsFrom(g, ic, all[i], c, t);
    }
  }

  lemma NotFollowed(g: seq<State>, ic: bool, all: seq<nat>, i: nat, c: CChar, v: set<nat>)
    requires i < |all| && all[i] < |g| && !Passes(g[all[i]], c, ic)
    requires Swept(g, ic, v, all[..i], c)
    ensures Swept(g, ic, v, all[..i + 1], c)
  {
  }

  // ---------------------------------------------------------------- listed states

  ghost predicate HasMatch(g: seq<State>, v: set<nat>) {
    exists t :: t in v && t < |g| && g[t].c == MATCH
  }

  /** The list holds, once each, exactly the non-silent states of `v` (apart from stale ones). */
  ghost predicate ListsExactly(g: seq<State>, list: seq<nat>, v: set<nat>, stale: set<nat>) {
    (forall i, j :: 0 <= i < j < |list| ==> list[i] != list[j]) &&
    (forall t: nat :: t in list <==> t in v && t < |g| && !IsEpsilon(g[t]) && t !in stale)
  }

  lemma ListsSilent(g: seq<State>, list: seq<nat>, v: set<nat>, stale: set<nat>, s: nat)
    requires ListsExactly(g, list, v, stale) && s < |g| && IsEpsilon(g[s])
    ensures ListsExactly(g, list, v + {s}, stale)
    ensures HasMatch(g, v + {s} - stale) == HasMatch(g, v - stale)
  {
  }

  /** A state not marked before joins the list, which still fits a buffer with one cell per state. */
  lemma ListsOneMore(g: seq<State>, list: seq<nat>, v: set<nat>, stale: set<nat>, s: nat)
    requires ListsExactly(g, list, v, stale) && stale <= v
    requires s < |g| && s !in v && !IsEpsilon(g[s])
    ensures ListsExactly(g, list + [s], v + {s}, stale)
    ensures |list| < |g|
    ensures HasMatch(g, v + {s} - stale) == (HasMatch(g, v - stale) || g[s].c == MATCH)
  {
    Pigeonhole(list + [s], |g|);
    assert g[s].c == MATCH ==> s in v + {s} - stale;
  }

  /** Distinct states are no more than there are states. */
  lemma {:induction false} Pigeonhole(s: seq<nat>, n: nat)
    requires forall i, j :: 0 <= i < j < |s| ==> s[i] != s[j]
    requires forall x :: x in s ==> x < n
    ensures |s| <= n
    decreases n
  {
    if s == [] {
    } else if i :| 0 <= i < |s| && s[i] == n - 1 {
      var rest := s[..i] + s[i + 1..];
      forall x | x in rest
        ensures x < n - 1
      {
        var j :| 0 <= j < |rest| && rest[j] == x;
        var k := if j < i then j else j + 1;
        assert x == s[k] && x in s;
        assert s[if k < i then k else i] != s[if k < i then i else k];
      }
      Pigeonhole(rest, n - 1);
    } else {
      assert s[0] in s;
      assert n - 1 !in s;
      Pigeonhole(s, n - 1);
    }
  }

  /** What the next list holds once the states `us` of the current list have been followed on `c`. */
  ghost predicate Swept(g: seq<State>, ic: bool, v: set<nat>, us: seq<nat>, c: CChar) {
    ClosedBut(g, v, {}) && forall t: nat :: t in v <==> t < |g| && StepsTo(g, ic, us, c, t)
  }

  // ---------------------------------------------------------------- compiled graphs are total

  /** The state is no end, and it leads only into lo..hi or to `k`. */
  predicate StateLeads(s: State, lo: nat, hi: nat, k: nat) {
    s.c != MATCH && (s.c == SPLIT || -128 <= s.c < 128) &&
    LeadsTo(s.out, lo, hi, k) && (s.c == SPLIT ==> LeadsTo(s.outAlt, lo, hi, k))
  }

  predicate LeadsTo(link: Link, lo: nat, hi: nat, k: nat) {
    link.To? && (lo <= link.state < hi || link.state == k)
  }

  lemma Widen(g: seq<State>, part: Ast, at: nat, k: nat, lo: nat, hi: nat, end: nat)
    requires lo <= at && at + Size(part) <= hi <= |g|
    requires k == end || lo <= k < hi
    requires Compiled(g, part, at, k) && NoSentinel(part)
    ensures forall i :: at <= i < at + Size(part) ==> StateLeads(g[i], lo, hi, end)
    decreases part, 1
  {
    CompiledLeads(g, part, at, k);
  }

  lemma LastLeads(g: seq<State>, ast: Ast, lo: nat, k: nat)
    requires lo + Size(ast) <= |g| && Compiled(g, ast, lo, k) && NoSentinel(ast)
    requires !ast.Sequence?
    ensures StateLeads(g[lo + Size(ast) - 1], lo, lo + Size(ast), k)
  {
    if ast.Or? {
    } else if ast.Repetition? || ast.AtLeastOne? {
      LoopParts(g, ast, lo, k);
    } else if ast.OneOrNone? {
      OptionParts(g, ast, lo, k);
    } else {
      LeafParts(g, ast, lo, k);
    }
  }

  /** Once a fragment's exits are patched, no state of it has an unfilled successor. */
  lemma {:induction false} CompiledLeads(g: seq<State>, ast: Ast, lo: nat, k: nat)
    requires lo + Size(ast) <= |g| && Compiled(g, ast, lo, k) && NoSentinel(ast)
    ensures forall i :: lo <= i < lo + Size(ast) ==> StateLeads(g[i], lo, lo + Size(ast), k)
    decreases ast, 0
  {
    var hi := lo + Size(ast);
    if !ast.Sequence? {
      LastLeads(g, ast, lo, k);
    }
    if ast.Or? {
      OrParts(g, ast, lo, k);
      Widen(g, ast.first, lo, k, lo, hi, k);
      Widen(g, ast.second, lo + Size(ast.first), k, lo, hi, k);
    } else if ast.Sequence? {
      Widen(g, ast.first, lo, Entry(ast.second, lo + Size(ast.first)), lo, hi, k);
      Widen(g, ast.second, lo + Size(ast.first), k, lo, hi, k);
    } else if ast.Repetition? || ast.AtLeastOne? {
      LoopParts(g, ast, lo, k);
      Widen(g, ast.loop, lo, lo + Size(ast.loop), lo, hi, k);
    } else if ast.OneOrNone? {
      OptionParts(g, ast, lo, k);
      Widen(g, ast.loop, lo, k, lo, hi, k);
    }
  }

  /** A compiled pattern has no dangling slot left, and its only end is its last state. */
  lemma CompiledTotal(g: seq<State>, ast: Ast)
    requires |g| == Size(ast) + 1 && g[|g| - 1].c == MATCH
    requires Compiled(g, ast, 0, |g| - 1) && NoSentinel(ast)
    ensures Total(g)
    ensures forall i :: 0 <= i < |g| - 1 ==> g[i].c != MATCH
  {
    CompiledLeads(g, ast, 0, |g| - 1);
  }
}
