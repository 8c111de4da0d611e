/** The emitted blocks do what short-circuit evaluation does, and every phi lists exactly its predecessors. */
module ShortCircuitProof {
  import opened Wrappers
  import opened ShortCircuit

  // ---------------------------------------------------------------- how the code under construction grows

  /** Code is being added to a block that has no terminator yet. */
  ghost predicate Ready(c: Code) {
    c.cur < |c.blocks| && c.blocks[c.cur].term.Open?
  }

  /** Emission adds instructions to the current block and otherwise only adds blocks. */
  ghost predicate Grown(c: Code, d: Code) {
    c.cur < |c.blocks| <= |d.blocks| && c.regs <= d.regs &&
    (d.cur == c.cur || |c.blocks| <= d.cur) &&
    c.blocks[c.cur].instrs <= d.blocks[c.cur].instrs &&
    forall b :: 0 <= b < |c.blocks| && b != c.cur ==> d.blocks[b] == c.blocks[b]
  }

  lemma GrownTrans(c: Code, d: Code, f: Code)
    requires Ready(c) && Ready(d) && Grown(c, d) && Grown(d, f)
    ensures Grown(c, f)
  {
    assert d.blocks[c.cur].instrs <= f.blocks[c.cur].instrs;
  }

  lemma BranchGrown(op: Op, v: Value, c: Code, merge: nat)
    requires Ready(c)
    ensures var d := Branch(op, v, c, merge);
            Ready(d) && Grown(c, d) && d.cur == |c.blocks| && d.blocks[d.cur].instrs == []
  {
  }

  lemma {:induction false} EmitGrown(e: Expr, c: Code)
    requires Ready(c)
    ensures Ready(Emit(e, c).1) && Grown(c, Emit(e, c).1)
    decreases e, 0
  {
    match e
    case Leaf(_) =>
    case Binary(op, l, r) =>
      var merge := |c.blocks|;
      var a := AddBlock(c);
      GuardGrown(op, l, a, merge, []);
      var d := EmitGuard(op, l, a, merge, []).1;
      EmitGrown(r, d);
      GrownTrans(a, d, Emit(r, d).1);
  }

  lemma {:induction false} GuardGrown(op: Op, e: Expr, c: Code, merge: nat, incoming: seq<Incoming>)
    requires Ready(c) && merge < |c.blocks| && merge != c.cur
    ensures var d := EmitGuard(op, e, c, merge, incoming).1;
            Ready(d) && Grown(c, d) && |c.blocks| <= d.cur && d.blocks[d.cur].instrs == []
    decreases e, 2
  {
    if e.Binary? && e.op == op {
      GuardGrown(op, e.left, c, merge, incoming);
      var (more, d) := EmitGuard(op, e.left, c, merge, incoming);
      GuardedGrown(op, e.right, d, merge, more);
      GrownTrans(c, d, Guarded(op, e.right, d, merge, more).1);
    } else {
      GuardedGrown(op, e, c, merge, incoming);
    }
  }

  lemma {:induction false} GuardedGrown(op: Op, e: Expr, c: Code, merge: nat, incoming: seq<Incoming>)
    requires Ready(c)
    ensures var d := Guarded(op, e, c, merge, incoming).1;
            Ready(d) && Grown(c, d) && |c.blocks| <= d.cur && d.blocks[d.cur].instrs == []
    decreases e, 1
  {
    EmitGrown(e, c);
    var (v, f) := Emit(e, c);
    BranchGrown(op, v, f, merge);
    GrownTrans(c, f, Branch(op, v, f, merge));
  }

  // ---------------------------------------------------------------- the finished function

  /** `g` is what `c` may still become: closed blocks are final and open ones only get longer. */
  ghost predicate Becomes(c: Code, g: seq<Block>) {
    |c.blocks| <= |g| &&
    forall b :: 0 <= b < |c.blocks| ==> FitsBlock(c.blocks[b], g[b])
  }

  ghost predicate FitsBlock(now: Block, later: Block) {
    now.instrs <= later.instrs && (!now.term.Open? ==> now == later)
  }

  lemma BecomesBefore(c: Code, d: Code, g: seq<Block>)
    requires Ready(c) && Grown(c, d) && Becomes(d, g)
    ensures Becomes(c, g)
  {
    forall b | 0 <= b < |c.blocks| ensures FitsBlock(c.blocks[b], g[b]) {
      assert FitsBlock(d.blocks[b], g[b]);
    }
  }

  /** Execution has done everything in the current block of `c`. */
  function At(c: Code, prev: nat, regs: map<nat, bool>, t: Trace): Config
    requires c.cur < |c.blocks|
  {
    Config(c.cur, |c.blocks[c.cur].instrs|, prev, regs, t)
  }

  lemma ReachesOn(g: seq<Block>, o: Oracle, a: Config, b: Config, c: Config)
    requires Reaches(g, o, a, b) && Reaches(g, o, b, c)
    ensures Reaches(g, o, a, c)
  {
    var r :| IsRun(g, o, r) && r[0] == a && r[|r| - 1] == b;
    var s :| IsRun(g, o, s) && s[0] == b && s[|s| - 1] == c;
    var t := r + s[1..];
    forall k | 0 < k < |t| ensures Step(g, o, t[k - 1]) == Some(t[k]) {
      if k >= |r| {
        assert t[k] == s[k - |r| + 1] && t[k - 1] == s[k - |r|];
      }
    }
    assert IsRun(g, o, t) && t[0] == a && t[|t| - 1] == c;
  }

  lemma OneStep(g: seq<Block>, o: Oracle, a: Config, b: Config)
    requires Step(g, o, a) == Some(b)
    ensures Reaches(g, o, a, b)
  {
    assert IsRun(g, o, [a, b]);
  }

  // ---------------------------------------------------------------- phis list their predecessors

  predicate JumpsTo(t: Term, b: nat) {
    match t
    case Open => false
    case Br(to) => to == b
    case CondBr(_, yes, no) => yes == b || no == b
  }

  /** The incoming blocks are pairwise different. */
  ghost predicate OncePerBlock(incoming: seq<Incoming>) {
    forall i, j :: 0 <= i < j < |incoming| ==> incoming[i].block != incoming[j].block
  }

  ghost predicate Lists(incoming: seq<Incoming>, p: nat) {
    exists k :: 0 <= k < |incoming| && incoming[k].block == p
  }

  /** The incoming blocks are exactly the blocks that jump to `b`, each once. */
  ghost predicate ListsPredecessors(g: seq<Block>, b: nat, incoming: seq<Incoming>) {
    OncePerBlock(incoming) &&
    (forall k :: 0 <= k < |incoming| ==> incoming[k].block < |g|) &&
    forall p :: 0 <= p < |g| ==> (JumpsTo(g[p].term, b) <==> Lists(incoming, p))
  }

  /** Every phi heads its block and has exactly one value for each predecessor. */
  ghost predicate PhisExact(g: seq<Block>) {
    forall b, k :: 0 <= b < |g| && 0 <= k < |g[b].instrs| && g[b].instrs[k].Phi? ==>
      k == 0 && ListsPredecessors(g, b, g[b].instrs[k].incoming)
  }

  ghost predicate TargetsExist(g: seq<Block>) {
    forall p: nat, b: nat {:trigger JumpsTo(g[p].term, b)} :: p < |g| && JumpsTo(g[p].term, b) ==> b < |g|
  }

  // ---------------------------------------------------------------- the run

  lemma {:induction false} SelectsAt(incoming: seq<Incoming>, k: nat)
    requires OncePerBlock(incoming) && k < |incoming|
    ensures Select(incoming, incoming[k].block) == Some(incoming[k].value)
  {
    if k > 0 {
      assert incoming[0].block != incoming[k].block;
      assert OncePerBlock(incoming[1..]);
      SelectsAt(incoming[1..], k - 1);
    }
  }

  /** The blocks already listed are all finished, so a block still open is not among them. */
  ghost predicate Finished(c: Code, incoming: seq<Incoming>) {
    OncePerBlock(incoming) &&
    forall k :: 0 <= k < |incoming| ==> incoming[k].block < |c.blocks| && !c.blocks[incoming[k].block].term.Open?
  }

  lemma FinishedLater(c: Code, d: Code, incoming: seq<Incoming>)
    requires Ready(c) && Grown(c, d) && Finished(c, incoming)
    ensures Finished(d, incoming)
  {
  }

  lemma GuardedFinished(op: Op, e: Expr, c: Code, merge: nat, incoming: seq<Incoming>)
    requires Ready(c) && Finished(c, incoming)
    ensures var (more, d) := Guarded(op, e, c, merge, incoming); Finished(d, more)
  {
    EmitGrown(e, c);
    FinishedLater(c, Emit(e, c).1, incoming);
  }

  lemma {:induction false} GuardFinished(op: Op, e: Expr, c: Code, merge: nat, incoming: seq<Incoming>)
    requires Ready(c) && merge < |c.blocks| && merge != c.cur && Finished(c, incoming)
    ensures var (more, d) := EmitGuard(op, e, c, merge, incoming); Finished(d, more)
    decreases e
  {
    if e.Binary? && e.op == op {
      GuardGrown(op, e.left, c, merge, incoming);
      GuardFinished(op, e.left, c, merge, incoming);
      var (more, d) := EmitGuard(op, e.left, c, merge, incoming);
      GuardedFinished(op, e.right, d, merge, more);
    } else {
      GuardedFinished(op, e, c, merge, incoming);
    }
  }

  /** The registers below `n` are as they were. */
  ghost predicate Kept(n: nat, regs: map<nat, bool>, later: map<nat, bool>) {
    forall r: nat :: r < n ==> (r in later <==> r in regs) && (r in regs ==> later[r] == regs[r])
  }

  lemma KeptOn(n: nat, m: nat, regs: map<nat, bool>, mid: map<nat, bool>, later: map<nat, bool>)
    requires n <= m && Kept(n, regs, mid) && Kept(m, mid, later)
    ensures Kept(n, regs, later)
  {
  }

  lemma KeptSet(n: nat, regs: map<nat, bool>, later: map<nat, bool>, r: nat, x: bool)
    requires n <= r && Kept(n, regs, later)
    ensures Kept(n, regs, later[r := x])
  {
  }

  /** After the value `v` of an operand: to the merge block if it decides, else to the next operand. */
  ghost predicate Decided(op: Op, v: bool, after: Config, d: Code, merge: nat, more: seq<Incoming>) {
    after.pc == 0 &&
    if v == Decisive(op) then
      after.block == merge && exists k :: 0 <= k < |more| && more[k] == Incoming(Const(v), after.prev)
    else
      after.block == d.cur
  }

  lemma DecidedStill(op: Op, v: bool, after: Config, d: Code, merge: nat, more: seq<Incoming>, f: Code,
                     all: seq<Incoming>)
    requires v == Decisive(op) && Decided(op, v, after, d, merge, more) && more <= all
    ensures Decided(op, v, after, f, merge, all)
  {
    var k :| 0 <= k < |more| && more[k] == Incoming(Const(v), after.prev);
    assert all[k] == more[k];
  }

  lemma {:induction false} EmitRuns(o: Oracle, e: Expr, c: Code, g: seq<Block>, prev: nat, regs: map<nat, bool>,
                                    t: Trace)
    returns (after: Config)
    requires Ready(c) && Becomes(Emit(e, c).1, g)
    ensures var (v, d) := Emit(e, c);
            Reaches(g, o, At(c, prev, regs, t), after) &&
            after == At(d, after.prev, after.regs, Meaning(o, e, t).1) &&
            ValueOf(v, after.regs) == Some(Meaning(o, e, t).0) && Kept(c.regs, regs, after.regs)
    decreases e, 0
  {
    EmitGrown(e, c);
    match e
    case Leaf(id) =>
      var d := Emit(e, c).1;
      assert FitsBlock(d.blocks[c.cur], g[c.cur]);
      var pc := |c.blocks[c.cur].instrs|;
      assert d.blocks[c.cur].instrs[pc] == Eval(c.regs, id);
      after := Config(c.cur, pc + 1, prev, regs[c.regs := o(id, t)], t + [id]);
      OneStep(g, o, At(c, prev, regs, t), after);
    case Binary(op, _, _) =>
      after := BinaryRuns(o, e, c, g, prev, regs, t);
  }

  lemma BinaryRuns(o: Oracle, e: Expr, c: Code, g: seq<Block>, prev: nat, regs: map<nat, bool>, t: Trace)
    returns (after: Config)
    requires e.Binary? && Ready(c) && Becomes(Emit(e, c).1, g)
    ensures var (v, d) := Emit(e, c);
            Reaches(g, o, At(c, prev, regs, t), after) &&
            after == At(d, after.prev, after.regs, Meaning(o, e, t).1) &&
            ValueOf(v, after.regs) == Some(Meaning(o, e, t).0) && Kept(c.regs, regs, after.regs)
    decreases e, 0, 1
  {
    var at := OperandsRun(o, e, c, g, prev, regs, t);
    BinaryShape(e, c);
    BinaryFits(e, c, g);
    var (incoming, d) := EmitGuard(e.op, e.left, AddBlock(c), |c.blocks|, []);
    var (v, f) := Emit(e.right, d);
    var x := Meaning(o, e, t).0;
    after := PhiRuns(o, g, at, f.regs, incoming + [Incoming(v, f.cur)], x);
    ReachesOn(g, o, At(c, prev, regs, t), at, after);
    KeptSet(c.regs, regs, at.regs, f.regs, x);
  }

  /** To the merge block, whose phi will select the value. */
  lemma {:induction false} OperandsRun(o: Oracle, e: Expr, c: Code, g: seq<Block>, prev: nat, regs: map<nat, bool>,
                                       t: Trace)
    returns (at: Config)
    requires e.Binary? && Ready(c) && Becomes(Emit(e, c).1, g)
    ensures var (incoming, d) := EmitGuard(e.op, e.left, AddBlock(c), |c.blocks|, []);
            var (v, f) := Emit(e.right, d);
            var from := Select(incoming + [Incoming(v, f.cur)], at.prev);
            Reaches(g, o, At(c, prev, regs, t), at) &&
            at == Config(|c.blocks|, 0, at.prev, at.regs, Meaning(o, e, t).1) &&
            from.Some? && ValueOf(from.value, at.regs) == Some(Meaning(o, e, t).0) && Kept(c.regs, regs, at.regs)
    decreases e, 0, 0
  {
    var op, merge, a := e.op, |c.blocks|, AddBlock(c);
    var (incoming, d) := EmitGuard(op, e.left, a, merge, []);
    var (v, f) := Emit(e.right, d);
    var all := incoming + [Incoming(v, f.cur)];
    BinaryShape(e, c);
    BinaryFits(e, c, g);
    var mid := GuardRuns(o, op, e.left, a, merge, [], g, prev, regs, t);
    var (x, u) := Meaning(o, e.left, t);
    at := mid;
    if x == Decisive(op) {
      SelectsConst(x, mid.prev, incoming, all);
    } else {
      assert mid == At(d, mid.prev, mid.regs, u);
      var last := EmitRuns(o, e.right, d, g, mid.prev, mid.regs, u);
      ReachesOn(g, o, At(c, prev, regs, t), mid, last);
      KeptOn(c.regs, d.regs, regs, mid.regs, last.regs);
      at := JoinRuns(o, g, f, merge, last);
      ReachesOn(g, o, At(c, prev, regs, t), last, at);
      assert all[|incoming|] == Incoming(v, f.cur);
      SelectsAt(all, |incoming|);
    }
  }

  lemma BinaryShape(e: Expr, c: Code)
    requires e.Binary? && Ready(c)
    ensures var merge := |c.blocks|;
            var (incoming, d) := EmitGuard(e.op, e.left, AddBlock(c), merge, []);
            var (v, f) := Emit(e.right, d);
            Ready(d) && Ready(f) && Grown(d, f) && f.cur != merge && f.blocks[merge] == Block([], Open) &&
            d.blocks[d.cur].instrs == [] && c.regs <= d.regs <= f.regs &&
            OncePerBlock(incoming + [Incoming(v, f.cur)])
  {
    var op, merge, a := e.op, |c.blocks|, AddBlock(c);
    GuardGrown(op, e.left, a, merge, []);
    GuardFinished(op, e.left, a, merge, []);
    var (incoming, d) := EmitGuard(op, e.left, a, merge, []);
    EmitGrown(e.right, d);
    var f := Emit(e.right, d).1;
    FinishedLater(d, f, incoming);
    assert f.blocks[merge] == a.blocks[merge];
  }

  lemma BinaryFits(e: Expr, c: Code, g: seq<Block>)
    requires e.Binary? && Ready(c) && Becomes(Emit(e, c).1, g)
    ensures var merge := |c.blocks|;
            var (incoming, d) := EmitGuard(e.op, e.left, AddBlock(c), merge, []);
            var (v, f) := Emit(e.right, d);
            Becomes(d, g) && Becomes(f, g) &&
            g[f.cur] == f.blocks[f.cur].(term := Br(merge)) &&
            |g[merge].instrs| > 0 && g[merge].instrs[0] == Phi(f.regs, incoming + [Incoming(v, f.cur)])
  {
    var merge := |c.blocks|;
    BinaryShape(e, c);
    var (incoming, d) := EmitGuard(e.op, e.left, AddBlock(c), merge, []);
    var (v, f) := Emit(e.right, d);
    MergeFits(Close(f, Br(merge)), merge, incoming + [Incoming(v, f.cur)], g);
    BecomesClosed(f, Br(merge), g);
    BecomesBefore(d, f, g);
  }

  lemma SelectsConst(x: bool, from: nat, incoming: seq<Incoming>, all: seq<Incoming>)
    requires OncePerBlock(all) && incoming <= all
    requires exists k :: 0 <= k < |incoming| && incoming[k] == Incoming(Const(x), from)
    ensures Select(all, from) == Some(Const(x))
  {
    var k :| 0 <= k < |incoming| && incoming[k] == Incoming(Const(x), from);
    assert all[k] == incoming[k];
    SelectsAt(all, k);
  }

  lemma JoinRuns(o: Oracle, g: seq<Block>, f: Code, merge: nat, last: Config) returns (at: Config)
    requires f.cur < |f.blocks| && f.cur < |g| && g[f.cur] == f.blocks[f.cur].(term := Br(merge))
    requires last == At(f, last.prev, last.regs, last.trace)
    ensures Reaches(g, o, last, at) && at == Config(merge, 0, f.cur, last.regs, last.trace)
  {
    at := Config(merge, 0, f.cur, last.regs, last.trace);
    OneStep(g, o, last, at);
  }

  lemma MergeFits(c: Code, merge: nat, incoming: seq<Incoming>, g: seq<Block>)
    requires c.cur < |c.blocks| && merge < |c.blocks| && c.blocks[merge] == Block([], Open)
    requires Becomes(Merge(c, merge, incoming).1, g)
    ensures Becomes(c, g)
    ensures |g[merge].instrs| > 0 && g[merge].instrs[0] == Phi(c.regs, incoming)
  {
    var d := Merge(c, merge, incoming).1;
    forall b | 0 <= b < |c.blocks| ensures FitsBlock(c.blocks[b], g[b]) {
      assert FitsBlock(d.blocks[b], g[b]);
    }
    assert FitsBlock(d.blocks[merge], g[merge]);
    assert d.blocks[merge].instrs[0] == Phi(c.regs, incoming);
  }

  lemma BecomesClosed(c: Code, t: Term, g: seq<Block>)
    requires Ready(c) && !t.Open? && Becomes(Close(c, t), g)
    ensures Becomes(c, g) && g[c.cur] == c.blocks[c.cur].(term := t)
  {
    var d := Close(c, t);
    assert FitsBlock(d.blocks[c.cur], g[c.cur]);
    forall b | 0 <= b < |c.blocks| ensures FitsBlock(c.blocks[b], g[b]) {
      assert FitsBlock(d.blocks[b], g[b]);
    }
  }

  lemma PhiRuns(o: Oracle, g: seq<Block>, at: Config, reg: nat, incoming: seq<Incoming>, x: bool)
    returns (after: Config)
    requires at.pc == 0 && at.block < |g| && |g[at.block].instrs| > 0
    requires g[at.block].instrs[0] == Phi(reg, incoming)
    requires Select(incoming, at.prev).Some? && ValueOf(Select(incoming, at.prev).value, at.regs) == Some(x)
    ensures Reaches(g, o, at, after) && after == at.(pc := 1, regs := at.regs[reg := x])
  {
    after := at.(pc := 1, regs := at.regs[reg := x]);
    OneStep(g, o, at, after);
  }

  lemma {:induction false} GuardRuns(o: Oracle, op: Op, e: Expr, c: Code, merge: nat, incoming: seq<Incoming>,
                                     g: seq<Block>, prev: nat, regs: map<nat, bool>, t: Trace)
    returns (after: Config)
    requires Ready(c) && merge < |c.blocks| && merge != c.cur
    requires Becomes(EmitGuard(op, e, c, merge, incoming).1, g)
    ensures var (more, d) := EmitGuard(op, e, c, merge, incoming);
            Reaches(g, o, At(c, prev, regs, t), after) && after.trace == Meaning(o, e, t).1 &&
            Decided(op, Meaning(o, e, t).0, after, d, merge, more) && Kept(c.regs, regs, after.regs)
    decreases e, 2
  {
    if e.Binary? && e.op == op {
      GuardGrown(op, e.left, c, merge, incoming);
      var (more, d) := EmitGuard(op, e.left, c, merge, incoming);
      GuardedGrown(op, e.right, d, merge, more);
      var (all, f) := Guarded(op, e.right, d, merge, more);
      BecomesBefore(d, f, g);
      var mid := GuardRuns(o, op, e.left, c, merge, incoming, g, prev, regs, t);
      var (x, u) := Meaning(o, e.left, t);
      if x == Decisive(op) {
        DecidedStill(op, x, mid, d, merge, more, f, all);
        after := mid;
      } else {
        assert mid == At(d, mid.prev, mid.regs, u);
        var last := GuardedRuns(o, op, e.right, d, merge, more, g, mid.prev, mid.regs, u);
        ReachesOn(g, o, At(c, prev, regs, t), mid, last);
        KeptOn(c.regs, d.regs, regs, mid.regs, last.regs);
        after := last;
      }
    } else {
      after := GuardedRuns(o, op, e, c, merge, incoming, g, prev, regs, t);
    }
  }

  lemma {:induction false} GuardedRuns(o: Oracle, op: Op, e: Expr, c: Code, merge: nat, incoming: seq<Incoming>,
                                       g: seq<Block>, prev: nat, regs: map<nat, bool>, t: Trace)
    returns (after: Config)
    requires Ready(c) && merge < |c.blocks|
    requires Becomes(Guarded(op, e, c, merge, incoming).1, g)
    ensures var (more, d) := Guarded(op, e, c, merge, incoming);
            Reaches(g, o, At(c, prev, regs, t), after) && after.trace == Meaning(o, e, t).1 &&
            Decided(op, Meaning(o, e, t).0, after, d, merge, more) && Kept(c.regs, regs, after.regs)
    decreases e, 1
  {
    EmitGrown(e, c);
    var (v, f) := Emit(e, c);
    BranchGrown(op, v, f, merge);
    BecomesBefore(f, Branch(op, v, f, merge), g);
    var last := EmitRuns(o, e, c, g, prev, regs, t);
    after := BranchRuns(o, op, Meaning(o, e, t).0, v, f, merge, incoming, g, last);
    ReachesOn(g, o, At(c, prev, regs, t), last, after);
  }

  lemma BranchRuns(o: Oracle, op: Op, x: bool, v: Value, f: Code, merge: nat, incoming: seq<Incoming>,
                   g: seq<Block>, last: Config)
    returns (after: Config)
    requires Ready(f) && Becomes(Branch(op, v, f, merge), g)
    requires last == At(f, last.prev, last.regs, last.trace) && ValueOf(v, last.regs) == Some(x)
    ensures Reaches(g, o, last, after) && after.trace == last.trace && after.regs == last.regs
    ensures Decided(op, x, after, Branch(op, v, f, merge), merge,
                    incoming + [Incoming(Const(Decisive(op)), f.cur)])
  {
    var d := Branch(op, v, f, merge);
    after := last.(block := if x == Decisive(op) then merge else d.cur, pc := 0, prev := f.cur);
    assert FitsBlock(d.blocks[f.cur], g[f.cur]);
    OneStep(g, o, last, after);
    assert (incoming + [Incoming(Const(Decisive(op)), f.cur)])[|incoming|] == Incoming(Const(Decisive(op)), f.cur);
  }

  // ---------------------------------------------------------------- every phi stays exact

  ghost predicate Sound(c: Code) {
    TargetsExist(c.blocks) && PhisExact(c.blocks)
  }

  /** From `c` to `d`, no block of `c` other than `but` is jumped to from anywhere new. */
  ghost predicate NoNewJumps(c: Code, d: Code, but: nat) {
    forall p: nat, b: nat {:trigger JumpsTo(d.blocks[p].term, b)} ::
      p < |d.blocks| && b < |c.blocks| && b != but && JumpsTo(d.blocks[p].term, b) ==>
      p < |c.blocks| && JumpsTo(c.blocks[p].term, b)
  }

  lemma NoNewJumpsTrans(c: Code, d: Code, f: Code, but: nat)
    requires |c.blocks| <= |d.blocks| && NoNewJumps(c, d, but) && NoNewJumps(d, f, but)
    ensures NoNewJumps(c, f, but)
  {
  }

  lemma AddBlockSound(c: Code)
    requires Sound(c)
    ensures Sound(AddBlock(c)) && NoNewJumps(c, AddBlock(c), |c.blocks|)
    ensures ListsPredecessors(AddBlock(c).blocks, |c.blocks|, [])
  {
    var d := AddBlock(c);
    forall b, k | 0 <= b < |d.blocks| && 0 <= k < |d.blocks[b].instrs| && d.blocks[b].instrs[k].Phi?
      ensures k == 0 && ListsPredecessors(d.blocks, b, d.blocks[b].instrs[k].incoming)
    {
      assert ListsPredecessors(c.blocks, b, c.blocks[b].instrs[k].incoming);
    }
  }

  lemma EvalSound(c: Code, reg: nat, id: nat)
    requires Ready(c) && Sound(c)
    ensures Sound(AddInstr(c, Eval(reg, id))) && NoNewJumps(c, AddInstr(c, Eval(reg, id)), |c.blocks|)
  {
    var d := AddInstr(c, Eval(reg, id));
    forall b, k | 0 <= b < |d.blocks| && 0 <= k < |d.blocks[b].instrs| && d.blocks[b].instrs[k].Phi?
      ensures k == 0 && ListsPredecessors(d.blocks, b, d.blocks[b].instrs[k].incoming)
    {
      assert ListsPredecessors(c.blocks, b, c.blocks[b].instrs[k].incoming);
    }
  }

  /** Closing a block only adds predecessors to blocks that have no phi yet. */
  lemma CloseSound(c: Code, t: Term)
    requires Ready(c) && Sound(c)
    requires forall b: nat {:trigger JumpsTo(t, b)} :: JumpsTo(t, b) ==> b < |c.blocks| && c.blocks[b].instrs == []
    ensures Sound(Close(c, t))
  {
    var d := Close(c, t);
    forall b, k | 0 <= b < |d.blocks| && 0 <= k < |d.blocks[b].instrs| && d.blocks[b].instrs[k].Phi?
      ensures k == 0 && ListsPredecessors(d.blocks, b, d.blocks[b].instrs[k].incoming)
    {
      assert ListsPredecessors(c.blocks, b, c.blocks[b].instrs[k].incoming);
      assert !JumpsTo(t, b);
    }
  }

  /** The block that is closed towards `merge` joins its predecessors. */
  lemma CloseListed(c: Code, t: Term, merge: nat, incoming: seq<Incoming>, v: Value)
    requires Ready(c) && JumpsTo(t, merge) && ListsPredecessors(c.blocks, merge, incoming)
    ensures ListsPredecessors(Close(c, t).blocks, merge, incoming + [Incoming(v, c.cur)])
  {
    var d := Close(c, t);
    var all := incoming + [Incoming(v, c.cur)];
    assert !JumpsTo(c.blocks[c.cur].term, merge);
    assert !Lists(incoming, c.cur);
    forall p | 0 <= p < |d.blocks| ensures JumpsTo(d.blocks[p].term, merge) <==> Lists(all, p) {
      if p == c.cur {
        assert all[|incoming|].block == p;
      } else if Lists(incoming, p) {
        var k :| 0 <= k < |incoming| && incoming[k].block == p;
        assert all[k].block == p;
      }
    }
  }

  lemma ListsLater(c: Code, d: Code, merge: nat, but: nat, incoming: seq<Incoming>)
    requires Ready(c) && Grown(c, d) && merge < |c.blocks| && merge != but && NoNewJumps(c, d, but)
    requires ListsPredecessors(c.blocks, merge, incoming)
    ensures ListsPredecessors(d.blocks, merge, incoming)
  {
    forall p | 0 <= p < |d.blocks| ensures JumpsTo(d.blocks[p].term, merge) <==> Lists(incoming, p) {
      if Lists(incoming, p) {
        assert p < |c.blocks| && JumpsTo(c.blocks[p].term, merge);
      }
    }
  }

  lemma BranchSound(op: Op, v: Value, c: Code, merge: nat, incoming: seq<Incoming>)
    requires Ready(c) && Sound(c) && merge < |c.blocks| && merge != c.cur && c.blocks[merge].instrs == []
    requires ListsPredecessors(c.blocks, merge, incoming)
    ensures var d := Branch(op, v, c, merge);
            Sound(d) && NoNewJumps(c, d, merge) &&
            ListsPredecessors(d.blocks, merge, incoming + [Incoming(Const(Decisive(op)), c.cur)])
  {
    var a, next := AddBlock(c), |c.blocks|;
    var t := if op == LogicalOr then CondBr(v, merge, next) else CondBr(v, next, merge);
    AddBlockSound(c);
    CloseSound(a, t);
    ListsLater(c, a, merge, |c.blocks|, incoming);
    CloseListed(a, t, merge, incoming, Const(Decisive(op)));
  }

  lemma MergeSound(c: Code, merge: nat, incoming: seq<Incoming>)
    requires c.cur < |c.blocks| && merge < |c.blocks| && Sound(c) && c.blocks[merge].instrs == []
    requires ListsPredecessors(c.blocks, merge, incoming)
    ensures var d := Merge(c, merge, incoming).1; Sound(d) && NoNewJumps(c, d, merge)
  {
    var d := Merge(c, merge, incoming).1;
    forall b, k | 0 <= b < |d.blocks| && 0 <= k < |d.blocks[b].instrs| && d.blocks[b].instrs[k].Phi?
      ensures k == 0 && ListsPredecessors(d.blocks, b, d.blocks[b].instrs[k].incoming)
    {
      if b == merge {
        assert d.blocks[b].instrs == [Phi(c.regs, incoming)];
      } else {
        assert ListsPredecessors(c.blocks, b, c.blocks[b].instrs[k].incoming);
      }
    }
  }

  lemma {:induction false} EmitSound(e: Expr, c: Code)
    requires Ready(c) && Sound(c)
    ensures Sound(Emit(e, c).1) && NoNewJumps(c, Emit(e, c).1, |c.blocks|)
    decreases e, 0
  {
    match e
    case Leaf(id) =>
      EvalSound(c, c.regs, id);
    case Binary(op, l, r) =>
      var merge, a := |c.blocks|, AddBlock(c);
      AddBlockSound(c);
      GuardGrown(op, l, a, merge, []);
      GuardSound(op, l, a, merge, []);
      var (incoming, d) := EmitGuard(op, l, a, merge, []);
      EmitGrown(r, d);
      EmitSound(r, d);
      var (v, f) := Emit(r, d);
      ListsLater(d, f, merge, |d.blocks|, incoming);
      CloseSound(f, Br(merge));
      CloseListed(f, Br(merge), merge, incoming, v);
      MergeSound(Close(f, Br(merge)), merge, incoming + [Incoming(v, f.cur)]);
  }

  lemma {:induction false} GuardSound(op: Op, e: Expr, c: Code, merge: nat, incoming: seq<Incoming>)
    requires Ready(c) && Sound(c) && merge < |c.blocks| && merge != c.cur && c.blocks[merge].instrs == []
    requires ListsPredecessors(c.blocks, merge, incoming)
    ensures var (more, d) := EmitGuard(op, e, c, merge, incoming);
            Sound(d) && NoNewJumps(c, d, merge) && ListsPredecessors(d.blocks, merge, more)
    decreases e, 2
  {
    if e.Binary? && e.op == op {
      GuardGrown(op, e.left, c, merge, incoming);
      GuardSound(op, e.left, c, merge, incoming);
      var (more, d) := EmitGuard(op, e.left, c, merge, incoming);
      GuardedSound(op, e.right, d, merge, more);
      NoNewJumpsTrans(c, d, Guarded(op, e.right, d, merge, more).1, merge);
    } else {
      GuardedSound(op, e, c, merge, incoming);
    }
  }

  lemma {:induction false} GuardedSound(op: Op, e: Expr, c: Code, merge: nat, incoming: seq<Incoming>)
    requires Ready(c) && Sound(c) && merge < |c.blocks| && merge != c.cur && c.blocks[merge].instrs == []
    requires ListsPredecessors(c.blocks, merge, incoming)
    ensures var (more, d) := Guarded(op, e, c, merge, incoming);
            Sound(d) && NoNewJumps(c, d, merge) && ListsPredecessors(d.blocks, merge, more)
    decreases e, 1
  {
    EmitGrown(e, c);
    EmitSound(e, c);
    var (v, f) := Emit(e, c);
    ListsLater(c, f, merge, |c.blocks|, incoming);
    BranchSound(op, v, f, merge, incoming);
    NoNewJumpsTrans(c, f, Branch(op, v, f, merge), merge);
  }

  // ---------------------------------------------------------------- every register is defined once

  /** The code defines registers below the next fresh one only, and none in two places. */
  ghost predicate Numbered(c: Code) {
    forall b, k :: 0 <= b < |c.blocks| && 0 <= k < |c.blocks[b].instrs| ==>
      c.blocks[b].instrs[k].reg < c.regs && OnlyAt(c, b, k)
  }

  /** No other instruction defines the register that this one defines. */
  ghost predicate OnlyAt(c: Code, b: nat, k: nat)
    requires b < |c.blocks| && k < |c.blocks[b].instrs|
  {
    forall x, y :: 0 <= x < |c.blocks| && 0 <= y < |c.blocks[x].instrs| ==>
      c.blocks[x].instrs[y].reg != c.blocks[b].instrs[k].reg || (x == b && y == k)
  }

  lemma InstrNumbered(c: Code, i: Instr)
    requires c.cur < |c.blocks| && Numbered(c) && i.reg == c.regs
    ensures Numbered(AddInstr(c, i).(regs := c.regs + 1))
  {
    var d := AddInstr(c, i).(regs := c.regs + 1);
    forall b, k | 0 <= b < |d.blocks| && 0 <= k < |d.blocks[b].instrs|
      ensures d.blocks[b].instrs[k].reg < d.regs && OnlyAt(d, b, k)
    {
      assert k < |c.blocks[b].instrs| ==> c.blocks[b].instrs[k].reg < c.regs && OnlyAt(c, b, k);
    }
  }

  lemma MovedNumbered(c: Code, d: Code)
    requires Numbered(c) && |c.blocks| <= |d.blocks| && d.regs == c.regs
    requires forall b :: 0 <= b < |d.blocks| ==>
      d.blocks[b].instrs == if b < |c.blocks| then c.blocks[b].instrs else []
    ensures Numbered(d)
  {
    forall b, k | 0 <= b < |d.blocks| && 0 <= k < |d.blocks[b].instrs|
      ensures d.blocks[b].instrs[k].reg < d.regs && OnlyAt(d, b, k)
    {
      assert OnlyAt(c, b, k);
    }
  }

  /** The registers that an expression defines are new, each is defined in one place, and the last is its value. */
  lemma {:induction false} EmitNumbered(e: Expr, c: Code)
    requires c.cur < |c.blocks| && Numbered(c)
    ensures var (v, d) := Emit(e, c); Numbered(d) && c.regs < d.regs && v == Reg(d.regs - 1)
    decreases e, 0
  {
    match e
    case Leaf(id) =>
      InstrNumbered(c, Eval(c.regs, id));
    case Binary(op, l, r) =>
      var merge, a := |c.blocks|, AddBlock(c);
      MovedNumbered(c, a);
      GuardNumbered(op, l, a, merge, []);
      var (incoming, d) := EmitGuard(op, l, a, merge, []);
      EmitNumbered(r, d);
      var (v, f) := Emit(r, d);
      var h := Close(f, Br(merge));
      MovedNumbered(f, h.(cur := merge));
      InstrNumbered(h.(cur := merge), Phi(h.regs, incoming + [Incoming(v, f.cur)]));
  }

  lemma {:induction false} GuardNumbered(op: Op, e: Expr, c: Code, merge: nat, incoming: seq<Incoming>)
    requires c.cur < |c.blocks| && Numbered(c)
    ensures var d := EmitGuard(op, e, c, merge, incoming).1; Numbered(d) && c.regs < d.regs
    decreases e, 2
  {
    if e.Binary? && e.op == op {
      GuardNumbered(op, e.left, c, merge, incoming);
      var (more, d) := EmitGuard(op, e.left, c, merge, incoming);
      GuardedNumbered(op, e.right, d, merge, more);
    } else {
      GuardedNumbered(op, e, c, merge, incoming);
    }
  }

  lemma {:induction false} GuardedNumbered(op: Op, e: Expr, c: Code, merge: nat, incoming: seq<Incoming>)
    requires c.cur < |c.blocks| && Numbered(c)
    ensures var d := Guarded(op, e, c, merge, incoming).1; Numbered(d) && c.regs < d.regs
    decreases e, 1
  {
    EmitNumbered(e, c);
    var (v, f) := Emit(e, c);
    MovedNumbered(f, Branch(op, v, f, merge));
  }

  // ---------------------------------------------------------------- the theorem

  /** The finished code computes `v` as `e` means it, with the leaves evaluated in that order and no others, and leaves
      the registers under `below` alone. */
  ghost predicate Computes(g: seq<Block>, o: Oracle, from: Config, below: nat, d: Code, v: Value, e: Expr)
    requires d.cur < |d.blocks|
  {
    exists prev, regs :: Reaches(g, o, from, At(d, prev, regs, Meaning(o, e, from.trace).1)) &&
      ValueOf(v, regs) == Some(Meaning(o, e, from.trace).0) && Kept(below, from.regs, regs)
  }

  /**
   * Whatever the code before it, whatever is added after it and whatever the leaves do, the blocks emitted for an
   * expression compute its meaning, every phi still has exactly one value for each predecessor, and no register is
   * defined twice.
   */
  lemma CompilesCorrectly(o: Oracle, e: Expr, c: Code, g: seq<Block>, prev: nat, regs: map<nat, bool>, t: Trace)
    requires Ready(c) && Sound(c) && Becomes(Emit(e, c).1, g)
    ensures Computes(g, o, At(c, prev, regs, t), c.regs, Emit(e, c).1, Emit(e, c).0, e)
    ensures Ready(Emit(e, c).1) && Sound(Emit(e, c).1)
    ensures Numbered(c) ==> Numbered(Emit(e, c).1)
  {
    var after := EmitRuns(o, e, c, g, prev, regs, t);
    EmitGrown(e, c);
    EmitSound(e, c);
    if Numbered(c) {
      EmitNumbered(e, c);
    }
  }

  /** A builder's own run, from a new function. */
  method CompileFunction(e: Expr) returns (builder: Builder, v: Value)
    ensures builder.cur < |builder.blocks| && PhisExact(builder.blocks) && Numbered(builder.State())
    ensures forall o: Oracle :: Computes(builder.blocks, o, Config(0, 0, 0, map[], []), 0, builder.State(), v, e)
  {
    builder := new Builder();
    ghost var c := builder.State();
    v := builder.Compile(e);
    ghost var d := builder.State();
    assert Becomes(d, d.blocks);
    forall o: Oracle ensures Computes(d.blocks, o, Config(0, 0, 0, map[], []), 0, d, v, e) {
      CompilesCorrectly(o, e, c, d.blocks, 0, map[], []);
      assert At(c, 0, map[], []) == Config(0, 0, 0, map[], []);
    }
    EmitSound(e, c);
    EmitNumbered(e, c);
  }
}
