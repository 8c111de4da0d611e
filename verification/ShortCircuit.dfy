/** `&&` and `||`: the blocks the compiler emits for them, and the meaning they must keep. */
module ShortCircuit {
  import opened Wrappers

  // ---------------------------------------------------------------- source expressions

  datatype Op = LogicalOr | LogicalAnd

  /** A leaf is any other expression; evaluating it is an observable event. */
  datatype Expr = Leaf(id: nat) | Binary(op: Op, left: Expr, right: Expr)

  type Trace = seq<nat>

  /** The truth value of a leaf may depend on everything evaluated before it. */
  type Oracle = (nat, Trace) -> bool

  /** The value that decides an operator at once. */
  function Decisive(op: Op): bool { op == LogicalOr }

  /** Left-to-right short-circuit evaluation. */
  function Meaning(o: Oracle, e: Expr, t: Trace): (bool, Trace) {
    match e
    case Leaf(id) => (o(id, t), t + [id])
    case Binary(op, l, r) =>
      var (v, u) := Meaning(o, l, t);
      if v == Decisive(op) then (v, u) else Meaning(o, r, u)
  }

  // ---------------------------------------------------------------- target code

  datatype Value = Const(b: bool) | Reg(n: nat)

  datatype Incoming = Incoming(value: Value, block: nat)

  datatype Instr = Eval(reg: nat, id: nat) | Phi(reg: nat, incoming: seq<Incoming>)

  datatype Term = Open | Br(to: nat) | CondBr(cond: Value, yes: nat, no: nat)

  datatype Block = Block(instrs: seq<Instr>, term: Term)

  /** The function under construction: its blocks, the insertion block, and the next fresh register. */
  datatype Code = Code(blocks: seq<Block>, cur: nat, regs: nat)

  datatype Config = Config(block: nat, pc: nat, prev: nat, regs: map<nat, bool>, trace: Trace)

  function ValueOf(v: Value, regs: map<nat, bool>): Option<bool> {
    match v
    case Const(b) => Some(b)
    case Reg(n) => if n in regs then Some(regs[n]) else None
  }

  /** The value that a phi takes when its block is entered from `from`. */
  function Select(incoming: seq<Incoming>, from: nat): Option<Value> {
    if incoming == [] then None
    else if incoming[0].block == from then Some(incoming[0].value)
    else Select(incoming[1..], from)
  }

  function Step(g: seq<Block>, o: Oracle, c: Config): Option<Config> {
    if c.block >= |g| || c.pc > |g[c.block].instrs| then None
    else if c.pc < |g[c.block].instrs| then
      match g[c.block].instrs[c.pc]
      case Eval(r, id) => Some(c.(pc := c.pc + 1, regs := c.regs[r := o(id, c.trace)], trace := c.trace + [id]))
      case Phi(r, incoming) =>
        match Select(incoming, c.prev)
        case None => None
        case Some(v) =>
          match ValueOf(v, c.regs)
          case None => None
          case Some(b) => Some(c.(pc := c.pc + 1, regs := c.regs[r := b]))
    else
      match g[c.block].term
      case Open => None
      case Br(to) => Some(c.(block := to, pc := 0, prev := c.block))
      case CondBr(v, yes, no) =>
        match ValueOf(v, c.regs)
        case None => None
        case Some(b) => Some(c.(block := if b then yes else no, pc := 0, prev := c.block))
  }

  ghost predicate IsRun(g: seq<Block>, o: Oracle, run: seq<Config>) {
    run != [] && forall k :: 0 < k < |run| ==> Step(g, o, run[k - 1]) == Some(run[k])
  }

  /** Execution gets from `a` to `b`. */
  ghost predicate Reaches(g: seq<Block>, o: Oracle, a: Config, b: Config) {
    exists run :: IsRun(g, o, run) && run[0] == a && run[|run| - 1] == b
  }

  // ---------------------------------------------------------------- emission

  function AddBlock(c: Code): Code { c.(blocks := c.blocks + [Block([], Open)]) }

  function AddInstr(c: Code, i: Instr): Code
    requires c.cur < |c.blocks|
  {
    var b := c.blocks[c.cur];
    c.(blocks := c.blocks[c.cur := b.(instrs := b.instrs + [i])])
  }

  function Close(c: Code, t: Term): Code
    requires c.cur < |c.blocks|
  {
    c.(blocks := c.blocks[c.cur := c.blocks[c.cur].(term := t)])
  }

  /** Branch to `merge` on the decisive value, and go on in a new block otherwise. */
  function Branch(op: Op, v: Value, c: Code, merge: nat): (d: Code)
    requires c.cur < |c.blocks|
    ensures d.cur < |d.blocks| && |d.blocks| > |c.blocks|
  {
    var next := |c.blocks|;
    var t := if op == LogicalOr then CondBr(v, merge, next) else CondBr(v, next, merge);
    Close(AddBlock(c), t).(cur := next)
  }

  function Emit(e: Expr, c: Code): (r: (Value, Code))
    requires c.cur < |c.blocks|
    ensures r.1.cur < |r.1.blocks| && |r.1.blocks| >= |c.blocks|
    decreases e, 0
  {
    match e
    case Leaf(id) => (Reg(c.regs), AddInstr(c, Eval(c.regs, id)).(regs := c.regs + 1))
    case Binary(op, l, r) =>
      var merge := |c.blocks|;
      var (incoming, d) := EmitGuard(op, l, AddBlock(c), merge, []);
      var (v, f) := Emit(r, d);
      Merge(Close(f, Br(merge)), merge, incoming + [Incoming(v, f.cur)])
  }

  function Merge(c: Code, merge: nat, incoming: seq<Incoming>): (r: (Value, Code))
    requires c.cur < |c.blocks| && merge < |c.blocks|
    ensures r.1.cur < |r.1.blocks| && |r.1.blocks| == |c.blocks|
  {
    (Reg(c.regs), AddInstr(c.(cur := merge), Phi(c.regs, incoming)).(regs := c.regs + 1))
  }

  /** The operands along the left spine, each followed by its branch. */
  function EmitGuard(op: Op, e: Expr, c: Code, merge: nat, incoming: seq<Incoming>): (r: (seq<Incoming>, Code))
    requires c.cur < |c.blocks|
    ensures r.1.cur < |r.1.blocks| && |r.1.blocks| >= |c.blocks|
    decreases e, 2
  {
    if e.Binary? && e.op == op then
      var (more, d) := EmitGuard(op, e.left, c, merge, incoming);
      Guarded(op, e.right, d, merge, more)
    else
      Guarded(op, e, c, merge, incoming)
  }

  /** One operand and its branch. */
  function Guarded(op: Op, e: Expr, c: Code, merge: nat, incoming: seq<Incoming>): (r: (seq<Incoming>, Code))
    requires c.cur < |c.blocks|
    ensures r.1.cur < |r.1.blocks| && |r.1.blocks| >= |c.blocks|
    decreases e, 1
  {
    var (v, f) := Emit(e, c);
    (incoming + [Incoming(Const(Decisive(op)), f.cur)], Branch(op, v, f, merge))
  }

  // ---------------------------------------------------------------- the compiler

  class Builder {
    var blocks: seq<Block>
    var cur: nat
    var regs: nat

    /** A function with an empty entry block. */
    constructor ()
      ensures State() == Code([Block([], Open)], 0, 0)
    {
      blocks, cur, regs := [Block([], Open)], 0, 0;
    }

    function State(): Code
      reads this
    {
      Code(blocks, cur, regs)
    }

    method AppendBlock() returns (b: nat)
      modifies this`blocks
      ensures b == old(|blocks|) && State() == AddBlock(old(State()))
    {
      b := |blocks|;
      blocks := blocks + [Block([], Open)];
    }

    method Terminate(t: Term)
      requires cur < |blocks|
      modifies this`blocks
      ensures State() == Close(old(State()), t)
    {
      blocks := blocks[cur := blocks[cur].(term := t)];
    }

    method Insert(i: Instr)
      requires cur < |blocks|
      modifies this`blocks
      ensures State() == AddInstr(old(State()), i)
    {
      blocks := blocks[cur := blocks[cur].(instrs := blocks[cur].instrs + [i])];
    }

    /** ac_dispatch_expression, as far as it concerns these operators. */
    method Compile(e: Expr) returns (v: Value)
      requires cur < |blocks|
      modifies this
      ensures cur < |blocks| && (v, State()) == Emit(e, old(State()))
      decreases e, 1
    {
      match e
      case Leaf(id) =>
        Insert(Eval(regs, id));
        v := Reg(regs);
        regs := regs + 1;
      case Binary(op, _, _) =>
        v := CompileLogical(e);
    }

    /** The left spine of one operator, its right operands first and what it starts with last. */
    method Flatten(op: Op, e: Expr) returns (trees: seq<Expr>)
      ensures trees == Operands(op, e)
    {
      trees := [];
      var a := e;
      while a.Binary? && a.op == op
        invariant trees + Operands(op, a) == Operands(op, e)
        decreases a
      {
        trees := trees + [a.right];
        a := a.left;
      }
      trees := trees + [a];
    }

    /** One operand but the last: where it decides, it branches to the merge block. */
    method CompileGuard(op: Op, operand: Expr, merge: nat, incoming: seq<Incoming>) returns (now: seq<Incoming>)
      requires cur < |blocks|
      modifies this
      ensures cur < |blocks| && (now, State()) == Guarded(op, operand, old(State()), merge, incoming)
      decreases operand, 2
    {
      var val := Compile(operand);
      now := incoming + [Incoming(Const(op == LogicalOr), cur)];
      ghost var before := State();
      var next := AppendBlock();
      Terminate(if op == LogicalOr then CondBr(val, merge, next) else CondBr(val, next, merge));
      cur := next;
      assert State() == Branch(op, val, before, merge);
    }

    /** All operands but the last, from the bottom of the spine upwards. */
    method CompileGuards(op: Op, e: Expr, trees: seq<Expr>, merge: nat) returns (incoming: seq<Incoming>)
      requires cur < |blocks| && e.Binary? && op == e.op && trees == Operands(op, e)
      modifies this
      ensures cur < |blocks| && (incoming, State()) == EmitGuard(op, e.left, old(State()), merge, [])
      decreases e, 0, 0
    {
      ghost var nodes, start := Nodes(op, e), State();
      SpineShape(op, e);
      incoming := [];
      var i := |trees| - 1;
      while i > 0
        invariant 0 <= i < |trees| && cur < |blocks|
        invariant i < |trees| - 1 ==> (incoming, State()) == EmitGuard(op, nodes[i + 1], start, merge, [])
        invariant i == |trees| - 1 ==> State() == start && incoming == []
      {
        assert trees[i] < e;
        incoming := CompileGuard(op, trees[i], merge, incoming);
        i := i - 1;
      }
    }

    /** ac_compile_logical_or and ac_compile_logical_and, which differ in the operator they follow, in the order of
        the branch targets and in the constant that reaches the phi. */
    method CompileLogical(e: Expr) returns (v: Value)
      requires cur < |blocks| && e.Binary?
      modifies this
      ensures cur < |blocks| && (v, State()) == Emit(e, old(State()))
      decreases e, 0, 1
    {
      var trees := Flatten(e.op, e);
      SpineShape(e.op, e);
      var merge := AppendBlock();
      var incoming := CompileGuards(e.op, e, trees, merge);
      v := Compile(trees[0]);
      Terminate(Br(merge));
      incoming := incoming + [Incoming(v, cur)];
      cur := merge;
      Insert(Phi(regs, incoming));
      v := Reg(regs);
      regs := regs + 1;
    }
  }

  // ---------------------------------------------------------------- the left spine

  function Operands(op: Op, e: Expr): seq<Expr> {
    if e.Binary? && e.op == op then [e.right] + Operands(op, e.left) else [e]
  }

  ghost function Nodes(op: Op, e: Expr): seq<Expr> {
    if e.Binary? && e.op == op then [e] + Nodes(op, e.left) else [e]
  }

  lemma {:induction false} SpineShape(op: Op, e: Expr)
    ensures |Nodes(op, e)| == |Operands(op, e)| > 0 && Nodes(op, e)[0] == e
    ensures forall k :: 0 <= k < |Nodes(op, e)| - 1 ==>
        OnSpine(op, Nodes(op, e)[k], Operands(op, e)[k], Nodes(op, e)[k + 1])
    ensures var last := |Nodes(op, e)| - 1;
            Nodes(op, e)[last] == Operands(op, e)[last] && !(Nodes(op, e)[last].Binary? && Nodes(op, e)[last].op == op)
    ensures forall k :: 0 <= k < |Operands(op, e)| ==> Operands(op, e)[k] == e || Operands(op, e)[k] < e
    ensures e.Binary? && e.op == op ==> forall k :: 0 <= k < |Operands(op, e)| ==> Operands(op, e)[k] < e
    decreases e
  {
    if e.Binary? && e.op == op {
      SpineShape(op, e.left);
    }
  }

  ghost predicate OnSpine(op: Op, node: Expr, operand: Expr, next: Expr) {
    node.Binary? && node.op == op && node.right == operand && node.left == next
  }
}
