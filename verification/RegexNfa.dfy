/** The state graph that regex.c builds for a pattern, and why its paths spell the pattern's language. */
module RegexNfa {
  import opened RegexSyntax

  /** A field `out` or `out_alt` of a state; the address a dangling pointer holds. */
  datatype Slot = Slot(state: nat, alt: bool)

  /** The union in those fields: a successor, the next unfilled slot of a list, or NULL. */
  datatype Link = Null | To(state: nat) | Next(slot: Slot)

  datatype State = State(c: int, chrcls: CharClass, out: Link, outAlt: Link)

  const NO_CLASS := CharClass(false, [])

  predicate Holds(g: seq<State>, slot: Slot) { slot.state < |g| }

  function Get(g: seq<State>, slot: Slot): Link
    requires Holds(g, slot)
  {
    if slot.alt then g[slot.state].outAlt else g[slot.state].out
  }

  function Put(g: seq<State>, slot: Slot, link: Link): (r: seq<State>)
    requires Holds(g, slot)
    ensures |r| == |g|
    ensures forall i :: 0 <= i < |g| ==> r[i].c == g[i].c && r[i].chrcls == g[i].chrcls
    ensures Get(r, slot) == link
    ensures forall other: Slot :: Holds(g, other) && other != slot ==> Get(r, other) == Get(g, other)
  {
    var s := g[slot.state];
    g[slot.state := if slot.alt then s.(outAlt := link) else s.(out := link)]
  }

  // ---------------------------------------------------------------- shape of a fragment

  /** Number of states allocated for a pattern. */
  function Size(ast: Ast): (n: nat)
    ensures n > 0
  {
    match ast
    case Or(a, b) => Size(a) + Size(b) + 1
    case Sequence(a, b) => Size(a) + Size(b)
    case Repetition(a) => Size(a) + 1
    case AtLeastOne(a) => Size(a) + 1
    case OneOrNone(a) => Size(a) + 1
    case _ => 1
  }

  /** First state entered by a fragment whose states are numbered from `lo`. */
  function Entry(ast: Ast, lo: nat): (s: nat)
    ensures lo <= s < lo + Size(ast)
  {
    match ast
    case Sequence(a, b) => Entry(a, lo)
    case AtLeastOne(a) => Entry(a, lo)
    case _ => lo + Size(ast) - 1
  }

  /** The slots the fragment leaves unfilled, in list order. */
  function Dangling(ast: Ast, lo: nat): (d: seq<Slot>)
    ensures d != []
  {
    match ast
    case Or(a, b) => Dangling(a, lo) + Dangling(b, lo + Size(a))
    case Sequence(a, b) => Dangling(b, lo + Size(a))
    case Repetition(a) => [Slot(lo + Size(a), true)]
    case AtLeastOne(a) => [Slot(lo + Size(a), true)]
    case OneOrNone(a) => Dangling(a, lo) + [Slot(lo + Size(a), true)]
    case _ => [Slot(lo, false)]
  }

  lemma {:induction false} InRange(ast: Ast, lo: nat)
    ensures forall s :: s in Dangling(ast, lo) ==> lo <= s.state < lo + Size(ast)
  {
    match ast
    case Or(a, b) =>
      InRange(a, lo);
      InRange(b, lo + Size(a));
    case Sequence(a, b) => InRange(b, lo + Size(a));
    case OneOrNone(a) => InRange(a, lo);
    case _ =>
  }

  lemma PartsInRange(ast: Ast, lo: nat)
    ensures ast.Or? || ast.Sequence? ==>
      (forall s :: s in Dangling(ast.first, lo) ==> lo <= s.state < lo + Size(ast.first)) &&
      var mid := lo + Size(ast.first);
      forall s :: s in Dangling(ast.second, mid) ==> mid <= s.state < mid + Size(ast.second)
    ensures ast.Repetition? || ast.AtLeastOne? || ast.OneOrNone? ==>
      forall s :: s in Dangling(ast.loop, lo) ==> lo <= s.state < lo + Size(ast.loop)
  {
    if ast.Or? || ast.Sequence? {
      InRange(ast.first, lo);
      InRange(ast.second, lo + Size(ast.first));
    } else if ast.Repetition? || ast.AtLeastOne? || ast.OneOrNone? {
      InRange(ast.loop, lo);
    }
  }

  /** The list threaded through `slots`: each holds the next one, the last holds NULL. */
  ghost predicate Threaded(g: seq<State>, slots: seq<Slot>) {
    (forall i :: 0 <= i < |slots| ==> Holds(g, slots[i])) &&
    (forall i, j :: 0 <= i < j < |slots| && j == i + 1 ==> Get(g, slots[i]) == Next(slots[j])) &&
    (slots != [] ==> Get(g, slots[|slots| - 1]) == Null)
  }

  /** Every slot leads to state `k`. */
  ghost predicate AllLead(g: seq<State>, slots: seq<Slot>, k: nat) {
    forall i :: 0 <= i < |slots| ==> Holds(g, slots[i]) && Get(g, slots[i]) == To(k)
  }

  /** The kinds of pattern whose fragment ends in a split state with a filled `out`. */
  predicate EndsInSplit(ast: Ast) {
    ast.Or? || ast.Repetition? || ast.AtLeastOne? || ast.OneOrNone?
  }

  /** The state a fragment adds to those of its parts. */
  ghost predicate LastState(s: State, ast: Ast, lo: nat) {
    match ast
    case Or(a, b) => s.c == SPLIT && s.out == To(Entry(a, lo)) && s.outAlt == To(Entry(b, lo + Size(a)))
    case Base(c) => s.c == c
    case Class(cls) => s.c == CHRCLS && s.chrcls == cls
    case Blank => s.c == NONE
    case Sequence(_, _) => true
    case _ => s.c == SPLIT && s.out == To(Entry(ast.loop, lo))
  }

  /** The exits a fragment patches: those of its first part, or of its loop body. */
  ghost predicate Patched(g: seq<State>, ast: Ast, lo: nat) {
    match ast
    case Sequence(a, b) => AllLead(g, Dangling(a, lo), Entry(b, lo + Size(a)))
    case Repetition(a) => AllLead(g, Dangling(a, lo), lo + Size(a))
    case AtLeastOne(a) => AllLead(g, Dangling(a, lo), lo + Size(a))
    case _ => true
  }

  /** The states numbered from `lo` form the fragment of `ast`, whatever its dangling slots hold. */
  ghost predicate Wired(g: seq<State>, ast: Ast, lo: nat)
    requires lo + Size(ast) <= |g|
  {
    LastState(g[lo + Size(ast) - 1], ast, lo) && Patched(g, ast, lo) &&
    match ast
    case Or(a, b) => Wired(g, a, lo) && Wired(g, b, lo + Size(a))
    case Sequence(a, b) => Wired(g, a, lo) && Wired(g, b, lo + Size(a))
    case Repetition(a) => Wired(g, a, lo)
    case AtLeastOne(a) => Wired(g, a, lo)
    case OneOrNone(a) => Wired(g, a, lo)
    case _ => true
  }

  lemma WiredIntro(g: seq<State>, ast: Ast, lo: nat)
    requires lo + Size(ast) <= |g|
    requires LastState(g[lo + Size(ast) - 1], ast, lo) && Patched(g, ast, lo)
    requires ast.Or? || ast.Sequence? ==> Wired(g, ast.first, lo) && Wired(g, ast.second, lo + Size(ast.first))
    requires ast.Repetition? || ast.AtLeastOne? || ast.OneOrNone? ==> Wired(g, ast.loop, lo)
    ensures Wired(g, ast, lo)
  {
  }

  /** A fragment whose exits all lead to `k`. */
  ghost predicate Compiled(g: seq<State>, ast: Ast, lo: nat, k: nat)
    requires lo + Size(ast) <= |g|
  {
    Wired(g, ast, lo) && AllLead(g, Dangling(ast, lo), k)
  }

  /** `h` agrees with `g` on the states lo..hi, except perhaps in the slots `but`. */
  ghost predicate Agree(g: seq<State>, h: seq<State>, lo: nat, hi: nat, but: seq<Slot>) {
    hi <= |g| && hi <= |h| &&
    (forall i :: lo <= i < hi ==> g[i].c == h[i].c && g[i].chrcls == h[i].chrcls) &&
    (forall s: Slot {:trigger Get(h, s)} :: lo <= s.state < hi && s !in but ==> Get(g, s) == Get(h, s))
  }

  /** The part of an agreement that concerns one sub-fragment. */
  lemma AgreeInside(g: seq<State>, h: seq<State>, ast: Ast, lo: nat, part: Ast, at: nat)
    requires Agree(g, h, lo, lo + Size(ast), Dangling(ast, lo))
    requires lo <= at && at + Size(part) <= lo + Size(ast)
    requires ast.Or? || ast.Sequence? ==> (part, at) in [(ast.first, lo), (ast.second, lo + Size(ast.first))]
    requires ast.Repetition? || ast.AtLeastOne? || ast.OneOrNone? ==> (part, at) == (ast.loop, lo)
    ensures Agree(g, h, at, at + Size(part), Dangling(part, at))
  {
    PartsInRange(ast, lo);
  }

  lemma LastStateFrame(g: seq<State>, h: seq<State>, ast: Ast, lo: nat)
    requires Agree(g, h, lo, lo + Size(ast), Dangling(ast, lo))
    requires LastState(g[lo + Size(ast) - 1], ast, lo)
    ensures LastState(h[lo + Size(ast) - 1], ast, lo)
  {
    var last := lo + Size(ast) - 1;
    PartsInRange(ast, lo);
    if EndsInSplit(ast) {
      assert Get(g, Slot(last, false)) == Get(h, Slot(last, false));
      if ast.Or? {
        assert Get(g, Slot(last, true)) == Get(h, Slot(last, true));
      }
    }
  }

  lemma PatchedFrame(g: seq<State>, h: seq<State>, ast: Ast, lo: nat)
    requires Agree(g, h, lo, lo + Size(ast), Dangling(ast, lo))
    requires Patched(g, ast, lo)
    ensures Patched(h, ast, lo)
  {
    PartsInRange(ast, lo);
    if ast.Sequence? {
      LeadFrame(g, h, ast, lo, Dangling(ast.first, lo), Entry(ast.second, lo + Size(ast.first)));
    } else if ast.Repetition? || ast.AtLeastOne? {
      LeadFrame(g, h, ast, lo, Dangling(ast.loop, lo), lo + Size(ast.loop));
    }
  }

  /** A fragment survives any change outside it and any change to its own dangling slots. */
  lemma {:induction false} WiredFrame(g: seq<State>, h: seq<State>, ast: Ast, lo: nat)
    requires lo + Size(ast) <= |g|
    requires Wired(g, ast, lo)
    requires Agree(g, h, lo, lo + Size(ast), Dangling(ast, lo))
    ensures Wired(h, ast, lo)
  {
    LastStateFrame(g, h, ast, lo);
    PatchedFrame(g, h, ast, lo);
    if ast.Or? || ast.Sequence? {
      AgreeInside(g, h, ast, lo, ast.first, lo);
      WiredFrame(g, h, ast.first, lo);
      AgreeInside(g, h, ast, lo, ast.second, lo + Size(ast.first));
      WiredFrame(g, h, ast.second, lo + Size(ast.first));
    } else if ast.Repetition? || ast.AtLeastOne? || ast.OneOrNone? {
      AgreeInside(g, h, ast, lo, ast.loop, lo);
      WiredFrame(g, h, ast.loop, lo);
    }
  }

  lemma LeadFrame(g: seq<State>, h: seq<State>, ast: Ast, lo: nat, slots: seq<Slot>, k: nat)
    requires Agree(g, h, lo, lo + Size(ast), Dangling(ast, lo))
    requires forall i :: 0 <= i < |slots| ==> lo <= slots[i].state < lo + Size(ast) && slots[i] !in Dangling(ast, lo)
    requires AllLead(g, slots, k)
    ensures AllLead(h, slots, k)
  {
  }
}
