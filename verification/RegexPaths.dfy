/** Paths through the state graph spell exactly the language of the pattern it was built from. */
module RegexPaths {
  import opened RegexSyntax
  import opened RegexNfa

  predicate IsEpsilon(s: State) { s.c == SPLIT || s.c == NONE }

  /** The characters on which a state can be left; MATCH and the silent states have none. */
  ghost predicate Passes(s: State, c: CChar, ignoreCase: bool) {
    !IsEpsilon(s) && if s.c == CHRCLS then s.chrcls.Has(c) else Accepts(s.c, c, ignoreCase)
  }

  /** Some path of exactly `n` edges leads from `s` to `t` and reads `w`. */
  ghost predicate Path(g: seq<State>, ic: bool, n: nat, s: nat, w: CString, t: nat)
    decreases n
  {
    if n == 0 then
      s == t && w == []
    else if s >= |g| then
      false
    else if g[s].c == SPLIT then
      PathVia(g, ic, n, g[s].out, w, t) || PathVia(g, ic, n, g[s].outAlt, w, t)
    else if g[s].c == NONE then
      PathVia(g, ic, n, g[s].out, w, t)
    else
      w != [] && Passes(g[s], w[0], ic) && PathVia(g, ic, n, g[s].out, w[1..], t)
  }

  ghost predicate PathVia(g: seq<State>, ic: bool, n: nat, link: Link, w: CString, t: nat)
    requires n > 0
    decreases n, 0
  {
    link.To? && Path(g, ic, n - 1, link.state, w, t)
  }

  ghost predicate CanReach(g: seq<State>, ic: bool, s: nat, w: CString, t: nat) {
    exists n: nat :: Path(g, ic, n, s, w, t)
  }

  lemma {:induction false} Append(g: seq<State>, ic: bool, n: nat, s: nat, u: CString, t: nat, m: nat, v: CString,
                                  r: nat)
    requires Path(g, ic, n, s, u, t) && Path(g, ic, m, t, v, r)
    ensures Path(g, ic, n + m, s, u + v, r)
    decreases n
  {
    if n == 0 {
      assert u + v == v;
    } else if IsEpsilon(g[s]) {
      if PathVia(g, ic, n, g[s].out, u, t) {
        Append(g, ic, n - 1, g[s].out.state, u, t, m, v, r);
        assert PathVia(g, ic, n + m, g[s].out, u + v, r);
      } else {
        Append(g, ic, n - 1, g[s].outAlt.state, u, t, m, v, r);
        assert PathVia(g, ic, n + m, g[s].outAlt, u + v, r);
      }
    } else {
      assert (u + v)[1..] == u[1..] + v;
      Append(g, ic, n - 1, g[s].out.state, u[1..], t, m, v, r);
      assert PathVia(g, ic, n + m, g[s].out, u[1..] + v, r);
    }
  }

  lemma ReachTrans(g: seq<State>, ic: bool, s: nat, u: CString, t: nat, v: CString, r: nat)
    requires CanReach(g, ic, s, u, t) && CanReach(g, ic, t, v, r)
    ensures CanReach(g, ic, s, u + v, r)
  {
    var n: nat :| Path(g, ic, n, s, u, t);
    var m: nat :| Path(g, ic, m, t, v, r);
    Append(g, ic, n, s, u, t, m, v, r);
  }

  lemma ReachSelf(g: seq<State>, ic: bool, s: nat)
    ensures CanReach(g, ic, s, [], s)
  {
    assert Path(g, ic, 0, s, [], s);
  }

  lemma ReachEdge(g: seq<State>, ic: bool, s: nat, t: nat)
    requires s < |g|
    requires IsEpsilon(g[s]) && (g[s].out == To(t) || (g[s].c == SPLIT && g[s].outAlt == To(t)))
    ensures CanReach(g, ic, s, [], t)
  {
    assert Path(g, ic, 0, t, [], t);
    assert g[s].out == To(t) ==> PathVia(g, ic, 1, g[s].out, [], t);
    assert g[s].outAlt == To(t) ==> PathVia(g, ic, 1, g[s].outAlt, [], t);
    assert Path(g, ic, 1, s, [], t);
  }

  lemma ReachChar(g: seq<State>, ic: bool, s: nat, c: CChar, t: nat)
    requires s < |g| && Passes(g[s], c, ic) && g[s].out == To(t)
    ensures CanReach(g, ic, s, [c], t)
  {
    assert Path(g, ic, 0, t, [], t);
    assert [c][1..] == [];
    assert PathVia(g, ic, 1, g[s].out, [c][1..], t);
    assert Path(g, ic, 1, s, [c], t);
  }

  // ---------------------------------------------------------------- every word has a path

  /** The wiring of a loop: its body returns to the split state, which may also leave to `k`. */
  ghost predicate IsLoop(g: seq<State>, a: Ast, lo: nat, k: nat)
    requires lo + Size(a) < |g|
  {
    var split := lo + Size(a);
    Compiled(g, a, lo, split) &&
    g[split].c == SPLIT && g[split].out == To(Entry(a, lo)) && g[split].outAlt == To(k)
  }

  lemma LeadSplit(g: seq<State>, d: seq<Slot>, e: seq<Slot>, k: nat)
    requires AllLead(g, d + e, k)
    ensures AllLead(g, d, k) && AllLead(g, e, k)
  {
    assert forall i :: 0 <= i < |d| ==> d[i] == (d + e)[i];
    assert forall i :: 0 <= i < |e| ==> e[i] == (d + e)[|d| + i];
  }

  lemma OrParts(g: seq<State>, ast: Ast, lo: nat, k: nat)
    requires ast.Or?
    requires lo + Size(ast) <= |g| && Compiled(g, ast, lo, k)
    ensures Compiled(g, ast.first, lo, k) && Compiled(g, ast.second, lo + Size(ast.first), k)
  {
    LeadSplit(g, Dangling(ast.first, lo), Dangling(ast.second, lo + Size(ast.first)), k);
  }

  lemma LoopParts(g: seq<State>, ast: Ast, lo: nat, k: nat)
    requires ast.Repetition? || ast.AtLeastOne?
    requires lo + Size(ast) <= |g| && Compiled(g, ast, lo, k)
    ensures IsLoop(g, ast.loop, lo, k)
  {
    assert Get(g, Dangling(ast, lo)[0]) == To(k);
  }

  lemma OptionParts(g: seq<State>, ast: Ast, lo: nat, k: nat)
    requires ast.OneOrNone?
    requires lo + Size(ast) <= |g| && Compiled(g, ast, lo, k)
    ensures Compiled(g, ast.loop, lo, k) && g[lo + Size(ast.loop)].outAlt == To(k)
  {
    var exit := [Slot(lo + Size(ast.loop), true)];
    LeadSplit(g, Dangling(ast.loop, lo), exit, k);
    assert Get(g, exit[0]) == To(k);
  }

  lemma LeafParts(g: seq<State>, ast: Ast, lo: nat, k: nat)
    requires ast.Base? || ast.Class? || ast.Blank?
    requires lo < |g| && Compiled(g, ast, lo, k)
    ensures g[lo].out == To(k)
  {
    assert Get(g, Dangling(ast, lo)[0]) == To(k);
  }

  lemma {:induction false} WordsHavePaths(g: seq<State>, ast: Ast, lo: nat, k: nat, w: CString, ic: bool)
    requires lo + Size(ast) <= |g| && Compiled(g, ast, lo, k) && NoSentinel(ast)
    requires InLanguage(ast, w, ic)
    ensures CanReach(g, ic, Entry(ast, lo), w, k)
    decreases |w|, Rank(ast), 1
  {
    match ast
    case Or(a, b) => OrPath(g, a, b, lo, k, w, ic);
    case Sequence(a, b) => SequencePath(g, a, b, lo, k, w, ic);
    case Repetition(a) =>
      LoopParts(g, ast, lo, k);
      LoopPath(g, a, lo, k, w, ic);
    case AtLeastOne(a) =>
      LoopParts(g, ast, lo, k);
      TurnsPath(g, a, lo, k, w, ic);
    case OneOrNone(a) => OptionPath(g, a, lo, k, w, ic);
    case Blank =>
      LeafParts(g, ast, lo, k);
      ReachEdge(g, ic, lo, k);
    case Base(c) => LetterPath(g, ast, lo, k, w, ic);
    case Class(c) => LetterPath(g, ast, lo, k, w, ic);
  }

  lemma LetterPath(g: seq<State>, ast: Ast, lo: nat, k: nat, w: CString, ic: bool)
    requires ast.Base? || ast.Class?
    requires lo + Size(ast) <= |g| && Compiled(g, ast, lo, k) && NoSentinel(ast)
    requires InLanguage(ast, w, ic)
    ensures CanReach(g, ic, lo, w, k)
  {
    LeafParts(g, ast, lo, k);
    ReachChar(g, ic, lo, w[0], k);
    assert w == [w[0]];
  }

  lemma {:induction false} OrPath(g: seq<State>, a: Ast, b: Ast, lo: nat, k: nat, w: CString, ic: bool)
    requires lo + Size(Or(a, b)) <= |g| && Compiled(g, Or(a, b), lo, k) && NoSentinel(Or(a, b))
    requires InLanguage(Or(a, b), w, ic)
    ensures CanReach(g, ic, Entry(Or(a, b), lo), w, k)
    decreases |w|, Rank(Or(a, b)), 0
  {
    var mid := lo + Size(a);
    OrParts(g, Or(a, b), lo, k);
    if InLanguage(a, w, ic) {
      WordsHavePaths(g, a, lo, k, w, ic);
      ReachAfter(g, ic, mid + Size(b), Entry(a, lo), w, k);
    } else {
      WordsHavePaths(g, b, mid, k, w, ic);
      ReachAfter(g, ic, mid + Size(b), Entry(b, mid), w, k);
    }
  }

  lemma {:induction false} SequencePath(g: seq<State>, a: Ast, b: Ast, lo: nat, k: nat, w: CString, ic: bool)
    requires lo + Size(Sequence(a, b)) <= |g| && Compiled(g, Sequence(a, b), lo, k) && NoSentinel(Sequence(a, b))
    requires InLanguage(Sequence(a, b), w, ic)
    ensures CanReach(g, ic, Entry(a, lo), w, k)
    decreases |w|, Rank(Sequence(a, b)), 0
  {
    var mid := lo + Size(a);
    var i :| 0 <= i <= |w| && InLanguage(a, w[..i], ic) && InLanguage(b, w[i..], ic);
    WordsHavePaths(g, a, lo, Entry(b, mid), w[..i], ic);
    WordsHavePaths(g, b, mid, k, w[i..], ic);
    ReachSplit(g, ic, Entry(a, lo), w, i, Entry(b, mid), k);
  }

  /** The split state behind a loop body reads any repetition of the body. */
  lemma {:induction false} LoopPath(g: seq<State>, a: Ast, lo: nat, k: nat, w: CString, ic: bool)
    requires lo + Size(a) < |g| && IsLoop(g, a, lo, k) && NoSentinel(a)
    requires InLanguage(Repetition(a), w, ic)
    ensures CanReach(g, ic, lo + Size(a), w, k)
    decreases |w|, 1 + Rank(a), 0
  {
    var split := lo + Size(a);
    if w == [] {
      ReachEdge(g, ic, split, k);
    } else {
      var i :| 1 <= i <= |w| && InLanguage(a, w[..i], ic) && InLanguage(Repetition(a), w[i..], ic);
      WordsHavePaths(g, a, lo, split, w[..i], ic);
      LoopPath(g, a, lo, k, w[i..], ic);
      ReachSplit(g, ic, Entry(a, lo), w, i, split, k);
      ReachAfter(g, ic, split, Entry(a, lo), w, k);
    }
  }

  lemma {:induction false} TurnsPath(g: seq<State>, a: Ast, lo: nat, k: nat, w: CString, ic: bool)
    requires lo + Size(a) < |g| && IsLoop(g, a, lo, k) && NoSentinel(a)
    requires InLanguage(AtLeastOne(a), w, ic)
    ensures CanReach(g, ic, Entry(a, lo), w, k)
    decreases |w|, 2 + Rank(a), 0
  {
    var split := lo + Size(a);
    var i :| 0 <= i <= |w| && InLanguage(a, w[..i], ic) && InLanguage(Repetition(a), w[i..], ic);
    WordsHavePaths(g, a, lo, split, w[..i], ic);
    LoopPath(g, a, lo, k, w[i..], ic);
    ReachSplit(g, ic, Entry(a, lo), w, i, split, k);
  }

  lemma {:induction false} OptionPath(g: seq<State>, a: Ast, lo: nat, k: nat, w: CString, ic: bool)
    requires lo + Size(a) < |g| && Compiled(g, OneOrNone(a), lo, k) && NoSentinel(a)
    requires InLanguage(OneOrNone(a), w, ic)
    ensures CanReach(g, ic, lo + Size(a), w, k)
    decreases |w|, 1 + Rank(a), 0
  {
    OptionParts(g, OneOrNone(a), lo, k);
    if w == [] {
      ReachEdge(g, ic, lo + Size(a), k);
    } else {
      WordsHavePaths(g, a, lo, k, w, ic);
      ReachAfter(g, ic, lo + Size(a), Entry(a, lo), w, k);
    }
  }

  lemma ReachSplit(g: seq<State>, ic: bool, s: nat, w: CString, i: nat, t: nat, r: nat)
    requires i <= |w|
    requires CanReach(g, ic, s, w[..i], t) && CanReach(g, ic, t, w[i..], r)
    ensures CanReach(g, ic, s, w, r)
  {
    ReachTrans(g, ic, s, w[..i], t, w[i..], r);
    assert w[..i] + w[i..] == w;
  }

  lemma ReachAfter(g: seq<State>, ic: bool, split: nat, entry: nat, w: CString, k: nat)
    requires split < |g| && g[split].c == SPLIT && (g[split].out == To(entry) || g[split].outAlt == To(entry))
    requires CanReach(g, ic, entry, w, k)
    ensures CanReach(g, ic, split, w, k)
  {
    ReachEdge(g, ic, split, entry);
    ReachTrans(g, ic, split, [], entry, w, k);
    assert [] + w == w;
  }

  // ---------------------------------------------------------------- every path spells a word

  /** Where a path leaves a fragment: after `i` characters, with `j` edges still to go from `k`. */
  ghost predicate Leaves(g: seq<State>, ast: Ast, n: nat, w: CString, k: nat, t: nat, ic: bool, i: nat, j: nat) {
    i <= |w| && j < n && InLanguage(ast, w[..i], ic) && Path(g, ic, j, k, w[i..], t)
  }

  /** A path that enters a fragment and ends outside it goes through the fragment's exit, having read
      a word of the fragment's pattern. */
  lemma {:induction false} PathsSpellWords(g: seq<State>, ast: Ast, lo: nat, k: nat, n: nat, w: CString, t: nat,
                                           ic: bool)
    returns (i: nat, j: nat)
    requires lo + Size(ast) <= |g| && Compiled(g, ast, lo, k) && NoSentinel(ast)
    requires t < lo || lo + Size(ast) <= t
    requires Path(g, ic, n, Entry(ast, lo), w, t)
    ensures Leaves(g, ast, n, w, k, t, ic, i, j)
    decreases n, Rank(ast), 1
  {
    match ast
    case Or(a, b) => i, j := OrWord(g, a, b, lo, k, n, w, t, ic);
    case Sequence(a, b) => i, j := SequenceWord(g, a, b, lo, k, n, w, t, ic);
    case Repetition(a) =>
      LoopParts(g, ast, lo, k);
      i, j := LoopWord(g, a, lo, k, n, w, t, ic);
    case AtLeastOne(a) =>
      LoopParts(g, ast, lo, k);
      i, j := TurnsWord(g, a, lo, k, n, w, t, ic);
    case OneOrNone(a) => i, j := OptionWord(g, a, lo, k, n, w, t, ic);
    case Blank => i, j := LeafWord(g, ast, lo, k, n, w, t, ic);
    case Base(c) => i, j := LeafWord(g, ast, lo, k, n, w, t, ic);
    case Class(c) => i, j := LeafWord(g, ast, lo, k, n, w, t, ic);
  }

  lemma LeafWord(g: seq<State>, ast: Ast, lo: nat, k: nat, n: nat, w: CString, t: nat, ic: bool)
    returns (i: nat, j: nat)
    requires ast.Base? || ast.Class? || ast.Blank?
    requires lo < |g| && Compiled(g, ast, lo, k) && NoSentinel(ast)
    requires t != lo && Path(g, ic, n, lo, w, t)
    ensures Leaves(g, ast, n, w, k, t, ic, i, j)
  {
    LeafParts(g, ast, lo, k);
    i, j := if ast.Blank? then 0 else 1, n - 1;
    assert w[0..] == w;
  }

  lemma {:induction false} OptionWord(g: seq<State>, a: Ast, lo: nat, k: nat, n: nat, w: CString, t: nat, ic: bool)
    returns (i: nat, j: nat)
    requires lo + Size(a) < |g| && Compiled(g, OneOrNone(a), lo, k) && NoSentinel(a)
    requires t < lo || lo + Size(a) < t
    requires Path(g, ic, n, lo + Size(a), w, t)
    ensures Leaves(g, OneOrNone(a), n, w, k, t, ic, i, j)
    decreases n, 1 + Rank(a), 0
  {
    OptionParts(g, OneOrNone(a), lo, k);
    if PathVia(g, ic, n, g[lo + Size(a)].outAlt, w, t) {
      i, j := 0, n - 1;
      assert w[..0] == [] && w[0..] == w;
    } else {
      i, j := PathsSpellWords(g, a, lo, k, n - 1, w, t, ic);
    }
  }

  lemma {:induction false} TurnsWord(g: seq<State>, a: Ast, lo: nat, k: nat, n: nat, w: CString, t: nat, ic: bool)
    returns (i: nat, j: nat)
    requires lo + Size(a) < |g| && IsLoop(g, a, lo, k) && NoSentinel(a)
    requires t < lo || lo + Size(a) < t
    requires Path(g, ic, n, Entry(a, lo), w, t)
    ensures Leaves(g, AtLeastOne(a), n, w, k, t, ic, i, j)
    decreases n, 2 + Rank(a), 0
  {
    var i1, j1 := PathsSpellWords(g, a, lo, lo + Size(a), n, w, t, ic);
    var i2, j2 := LoopWord(g, a, lo, k, j1, w[i1..], t, ic);
    i, j := i1 + i2, j2;
    Slices(w, i1, i2);
  }

  lemma {:induction false} OrWord(g: seq<State>, a: Ast, b: Ast, lo: nat, k: nat, n: nat, w: CString, t: nat, ic: bool)
    returns (i: nat, j: nat)
    requires lo + Size(Or(a, b)) <= |g| && Compiled(g, Or(a, b), lo, k) && NoSentinel(Or(a, b))
    requires t < lo || lo + Size(Or(a, b)) <= t
    requires Path(g, ic, n, Entry(Or(a, b), lo), w, t)
    ensures Leaves(g, Or(a, b), n, w, k, t, ic, i, j)
    decreases n, Rank(Or(a, b)), 0
  {
    var mid := lo + Size(a);
    OrParts(g, Or(a, b), lo, k);
    if PathVia(g, ic, n, g[mid + Size(b)].out, w, t) {
      i, j := PathsSpellWords(g, a, lo, k, n - 1, w, t, ic);
    } else {
      i, j := PathsSpellWords(g, b, mid, k, n - 1, w, t, ic);
    }
  }

  lemma {:induction false} SequenceWord(g: seq<State>, a: Ast, b: Ast, lo: nat, k: nat, n: nat, w: CString, t: nat,
                                        ic: bool)
    returns (i: nat, j: nat)
    requires lo + Size(Sequence(a, b)) <= |g| && Compiled(g, Sequence(a, b), lo, k) && NoSentinel(Sequence(a, b))
    requires t < lo || lo + Size(Sequence(a, b)) <= t
    requires Path(g, ic, n, Entry(a, lo), w, t)
    ensures Leaves(g, Sequence(a, b), n, w, k, t, ic, i, j)
    decreases n, Rank(Sequence(a, b)), 0
  {
    var mid := lo + Size(a);
    var i1, j1 := PathsSpellWords(g, a, lo, Entry(b, mid), n, w, t, ic);
    var i2, j2 := PathsSpellWords(g, b, mid, k, j1, w[i1..], t, ic);
    i, j := i1 + i2, j2;
    Slices(w, i1, i2);
  }

  lemma {:induction false} LoopWord(g: seq<State>, a: Ast, lo: nat, k: nat, n: nat, w: CString, t: nat, ic: bool)
    returns (i: nat, j: nat)
    requires lo + Size(a) < |g| && IsLoop(g, a, lo, k) && NoSentinel(a)
    requires t < lo || lo + Size(a) < t
    requires Path(g, ic, n, lo + Size(a), w, t)
    ensures Leaves(g, Repetition(a), n, w, k, t, ic, i, j)
    decreases n, 1 + Rank(a), 0
  {
    var split := lo + Size(a);
    if PathVia(g, ic, n, g[split].outAlt, w, t) {
      i, j := 0, n - 1;
      assert w[..0] == [] && w[0..] == w;
    } else {
      var i1, j1 := PathsSpellWords(g, a, lo, split, n - 1, w, t, ic);
      var i2, j2 := LoopWord(g, a, lo, k, j1, w[i1..], t, ic);
      i, j := i1 + i2, j2;
      Slices(w, i1, i2);
      if i1 > 0 {
        assert 1 <= i1 <= |w[..i]|;
      }
    }
  }

  /** Cutting twice is cutting once. */
  lemma Slices(w: CString, i1: nat, i2: nat)
    requires i1 + i2 <= |w|
    ensures w[i1..][..i2] == w[..i1 + i2][i1..]
    ensures w[..i1 + i2][..i1] == w[..i1]
    ensures w[i1..][i2..] == w[i1 + i2..]
    ensures i1 == 0 ==> w[i1..] == w
  {
  }

  /** The graph of a pattern reaches its end on exactly the words of the pattern. */
  lemma Spells(g: seq<State>, ast: Ast, k: nat, w: CString, ic: bool)
    requires Size(ast) <= k && k < |g| && g[k].c == MATCH
    requires Compiled(g, ast, 0, k) && NoSentinel(ast)
    ensures CanReach(g, ic, Entry(ast, 0), w, k) <==> InLanguage(ast, w, ic)
  {
    if InLanguage(ast, w, ic) {
      WordsHavePaths(g, ast, 0, k, w, ic);
    }
    if CanReach(g, ic, Entry(ast, 0), w, k) {
      var n: nat :| Path(g, ic, n, Entry(ast, 0), w, k);
      var i, j := PathsSpellWords(g, ast, 0, k, n, w, k, ic);
      assert forall c :: !Passes(g[k], c, ic);
      assert w[i..] == [];
      assert w[..i] == w;
    }
  }
}
