/** Why patching and joining fragments in place yields the fragment of the larger pattern. */
module RegexBuild {
  import opened RegexSyntax
  import opened RegexNfa

  ghost predicate Distinct(d: seq<Slot>) {
    forall i, j :: 0 <= i < j < |d| ==> d[i] != d[j]
  }

  /** The unfilled slots of a fragment are all different, so its list has no cycle. */
  lemma {:induction false} DanglingDistinct(ast: Ast, lo: nat)
    ensures Distinct(Dangling(ast, lo))
  {
    PartsInRange(ast, lo);
    match ast
    case Or(a, b) =>
      DanglingDistinct(a, lo);
      DanglingDistinct(b, lo + Size(a));
    case Sequence(a, b) => DanglingDistinct(b, lo + Size(a));
    case OneOrNone(a) => DanglingDistinct(a, lo);
    case _ =>
  }

  /** A fragment just built: wired inside, its dangling slots threaded into one NULL-terminated list. */
  ghost predicate Fragment(g: seq<State>, ast: Ast, lo: nat) {
    |g| == lo + Size(ast) && Wired(g, ast, lo) && Threaded(g, Dangling(ast, lo))
  }

  /** Same states, differing at most in the slots `d`. */
  ghost predicate OnlyChanges(g: seq<State>, h: seq<State>, d: seq<Slot>) {
    |h| == |g| && Agree(g, h, 0, |g|, d)
  }

  /** Hanging a second list on the last slot of a first one. */
  lemma Joined(g: seq<State>, da: seq<Slot>, db: seq<Slot>)
    requires da != [] && db != [] && Threaded(g, da) && Threaded(g, db) && Distinct(da + db)
    ensures Threaded(Put(g, da[|da| - 1], Next(db[0])), da + db)
  {
    var h := Put(g, da[|da| - 1], Next(db[0]));
    var d := da + db;
    assert d[|da| - 1] == da[|da| - 1];
    forall i, j | 0 <= i < j < |d| && j == i + 1
      ensures Get(h, d[i]) == Next(d[j])
    {
    }
  }

  lemma LastHoldsNull(g: seq<State>, d: seq<Slot>, i: nat)
    requires Threaded(g, d) && i < |d|
    ensures Get(g, d[i]).Next? <==> i + 1 < |d|
  {
    if i + 1 < |d| {
      assert Get(g, d[i]) == Next(d[i + 1]);
    }
  }

  /** States appended to a graph and changes to the slots `d` leave the rest of the graph as it was. */
  lemma AgreePrefix(f: seq<State>, g: seq<State>, h: seq<State>, d: seq<Slot>)
    requires |f| <= |g| && g[..|f|] == f && OnlyChanges(g, h, d)
    ensures Agree(f, h, 0, |f|, d)
  {
  }

  lemma ThreadedFrame(f: seq<State>, h: seq<State>, e: seq<Slot>, d: seq<Slot>)
    requires Threaded(f, e) && Agree(f, h, 0, |f|, d)
    requires forall s :: s in e ==> s !in d
    ensures Threaded(h, e)
  {
  }

  lemma PrefixKept(f: seq<State>, h: seq<State>, lo: nat, d: seq<Slot>)
    requires lo <= |f| && Agree(f, h, 0, |f|, d)
    requires forall s :: s in d ==> lo <= s.state
    ensures h[..lo] == f[..lo]
  {
    forall i | 0 <= i < lo
      ensures h[i] == f[i]
    {
      assert Get(f, Slot(i, false)) == Get(h, Slot(i, false));
      assert Get(f, Slot(i, true)) == Get(h, Slot(i, true));
    }
  }

  /** The slots `d` do not disturb the fragment: those inside it are dangling anyway. */
  ghost predicate Harmless(d: seq<Slot>, ast: Ast, lo: nat) {
    forall s :: s in d && lo <= s.state < lo + Size(ast) ==> s in Dangling(ast, lo)
  }

  lemma WiredKept(f: seq<State>, h: seq<State>, ast: Ast, lo: nat, d: seq<Slot>)
    requires lo + Size(ast) <= |f| && Wired(f, ast, lo) && Agree(f, h, 0, |f|, d)
    requires Harmless(d, ast, lo)
    ensures Wired(h, ast, lo)
  {
    WiredFrame(f, h, ast, lo);
  }

  /** A fragment `part` of an earlier graph `f` survives in `h`, as do all states before `lo`, when only
      slots of the fragment `other` change, and `other` is `part` itself or lies elsewhere. */
  lemma PartKept(f: seq<State>, g: seq<State>, h: seq<State>, part: Ast, at: nat, other: Ast, lo: nat)
    requires at + Size(part) == |f| <= |g| && g[..|f|] == f && OnlyChanges(g, h, Dangling(other, lo))
    requires Wired(f, part, at)
    requires (other, lo) == (part, at) || lo + Size(other) <= at
    ensures Wired(h, part, at)
    ensures lo <= |f| && h[..lo] == f[..lo]
  {
    var d := Dangling(other, lo);
    AgreePrefix(f, g, h, d);
    InRange(other, lo);
    InRange(part, at);
    PrefixKept(f, h, lo, d);
    WiredKept(f, h, part, at, d);
  }

  lemma ThreadPrefix(f: seq<State>, g: seq<State>, d: seq<Slot>)
    requires Threaded(f, d) && |f| <= |g| && g[..|f|] == f
    ensures Threaded(g, d)
  {
  }

  lemma ThreadKept(g: seq<State>, h: seq<State>, part: Ast, at: nat, other: Ast, lo: nat)
    requires OnlyChanges(g, h, Dangling(other, lo)) && Threaded(g, Dangling(part, at))
    requires lo + Size(other) <= at
    ensures Threaded(h, Dangling(part, at))
  {
    InRange(other, lo);
    InRange(part, at);
    ThreadedFrame(g, h, Dangling(part, at), Dangling(other, lo));
  }

  /** Two fragments built one after the other, each with its own list of open exits. */
  ghost predicate Both(g: seq<State>, ast: Ast, lo: nat)
    requires ast.Or? || ast.Sequence?
  {
    |g| == lo + Size(ast.first) + Size(ast.second) &&
    Wired(g, ast.first, lo) && Wired(g, ast.second, lo + Size(ast.first)) &&
    Threaded(g, Dangling(ast.first, lo)) && Threaded(g, Dangling(ast.second, lo + Size(ast.first)))
  }

  lemma BothBuilt(g1: seq<State>, g2: seq<State>, ast: Ast, lo: nat)
    requires ast.Or? || ast.Sequence?
    requires Fragment(g1, ast.first, lo)
    requires |g1| <= |g2| && g2[..|g1|] == g1 && Fragment(g2, ast.second, lo + Size(ast.first))
    ensures Both(g2, ast, lo) && g2[..lo] == g1[..lo]
  {
    PartKept(g1, g2, g2, ast.first, lo, ast.first, lo);
    ThreadPrefix(g1, g2, Dangling(ast.first, lo));
  }

  /** rgxb_sequence: the left exits patched to the right entry. */
  lemma SequenceBuilt(g: seq<State>, h: seq<State>, ast: Ast, lo: nat)
    requires ast.Sequence? && Both(g, ast, lo)
    requires OnlyChanges(g, h, Dangling(ast.first, lo))
    requires AllLead(h, Dangling(ast.first, lo), Entry(ast.second, lo + Size(ast.first)))
    ensures Fragment(h, ast, lo) && h[..lo] == g[..lo]
  {
    SidesKept(g, g, h, ast, lo);
    ThreadKept(g, h, ast.second, lo + Size(ast.first), ast.first, lo);
    WiredIntro(h, ast, lo);
  }

  /** Filling exits of the first side disturbs neither side. */
  lemma SidesKept(f: seq<State>, g: seq<State>, h: seq<State>, ast: Ast, lo: nat)
    requires ast.Or? || ast.Sequence?
    requires |f| == lo + Size(ast.first) + Size(ast.second) <= |g| && g[..|f|] == f
    requires Wired(f, ast.first, lo) && Wired(f, ast.second, lo + Size(ast.first))
    requires OnlyChanges(g, h, Dangling(ast.first, lo))
    ensures Wired(h, ast.first, lo) && Wired(h, ast.second, lo + Size(ast.first)) && h[..lo] == f[..lo]
  {
    var d := Dangling(ast.first, lo);
    AgreePrefix(f, g, h, d);
    InRange(ast.first, lo);
    PrefixKept(f, h, lo, d);
    WiredKept(f, h, ast.first, lo, d);
    WiredKept(f, h, ast.second, lo + Size(ast.first), d);
  }

  /** rgxb_or: a split state in front of both sides, the two lists joined. */
  lemma OrBuilt(f: seq<State>, g: seq<State>, h: seq<State>, ast: Ast, lo: nat)
    requires ast.Or? && |f| == lo + Size(ast.first) + Size(ast.second)
    requires Wired(f, ast.first, lo) && Wired(f, ast.second, lo + Size(ast.first))
    requires g == f + [State(SPLIT, NO_CLASS, To(Entry(ast.first, lo)), To(Entry(ast.second, lo + Size(ast.first))))]
    requires OnlyChanges(g, h, Dangling(ast.first, lo))
    ensures Wired(h, ast, lo) && h[..lo] == f[..lo]
  {
    assert g[..|f|] == f;
    assert LastState(h[lo + Size(ast) - 1], ast, lo) by {
      InRange(ast.first, lo);
      LastKept(g, h, Dangling(ast.first, lo));
    }
    SidesKept(f, g, h, ast, lo);
    WiredIntro(h, ast, lo);
  }

  /** Changes elsewhere leave the newest state alone. */
  lemma LastKept(g: seq<State>, h: seq<State>, d: seq<Slot>)
    requires |g| > 0 && OnlyChanges(g, h, d)
    requires forall s :: s in d ==> s.state < |g| - 1
    ensures h[|g| - 1] == g[|g| - 1]
  {
    var last := |g| - 1;
    assert Get(g, Slot(last, false)) == Get(h, Slot(last, false));
    assert Get(g, Slot(last, true)) == Get(h, Slot(last, true));
  }

  /** rgxb_repetition and rgxb_at_least_one: the body patched back to a split state with one open exit. */
  lemma LoopBuilt(g1: seq<State>, g2: seq<State>, g3: seq<State>, ast: Ast, lo: nat)
    requires (ast.Repetition? || ast.AtLeastOne?) && Fragment(g1, ast.loop, lo)
    requires g2 == g1 + [State(SPLIT, NO_CLASS, To(Entry(ast.loop, lo)), Null)]
    requires OnlyChanges(g2, g3, Dangling(ast.loop, lo))
    requires AllLead(g3, Dangling(ast.loop, lo), lo + Size(ast.loop))
    ensures Fragment(g3, ast, lo) && g3[..lo] == g1[..lo]
  {
    assert g2[..|g1|] == g1;
    PartKept(g1, g2, g3, ast.loop, lo, ast.loop, lo);
    LastKept(g2, g3, Dangling(ast.loop, lo));
    WiredIntro(g3, ast, lo);
  }

  /** rgxb_one_or_none: a split state around the body, its open exit joined to the body's. */
  lemma OptionBuilt(g1: seq<State>, g2: seq<State>, g3: seq<State>, ast: Ast, lo: nat)
    requires ast.OneOrNone? && Fragment(g1, ast.loop, lo)
    requires g2 == g1 + [State(SPLIT, NO_CLASS, To(Entry(ast.loop, lo)), Null)]
    requires OnlyChanges(g2, g3, Dangling(ast.loop, lo))
    requires Threaded(g3, Dangling(ast, lo))
    ensures Fragment(g3, ast, lo) && g3[..lo] == g1[..lo]
  {
    assert g2[..|g1|] == g1;
    PartKept(g1, g2, g3, ast.loop, lo, ast.loop, lo);
    LastKept(g2, g3, Dangling(ast.loop, lo));
    WiredIntro(g3, ast, lo);
  }

  /** rgx_compile: patching the last exits to a MATCH state completes the graph. */
  lemma PatternCompiled(g1: seq<State>, g2: seq<State>, g3: seq<State>, ast: Ast)
    requires Fragment(g1, ast, 0)
    requires g2 == g1 + [State(MATCH, NO_CLASS, Null, Null)]
    requires OnlyChanges(g2, g3, Dangling(ast, 0)) && AllLead(g3, Dangling(ast, 0), Size(ast))
    ensures |g3| == Size(ast) + 1 && g3[|g3| - 1].c == MATCH && Compiled(g3, ast, 0, |g3| - 1)
  {
    assert g2[..|g1|] == g1;
    PartKept(g1, g2, g3, ast, 0, ast, 0);
    LastKept(g2, g3, Dangling(ast, 0));
  }
}
