/** A call of a generic function: which calls are accepted, and with which types. */
module GenericCalls {
  import opened Wrappers
  import opened GenericTypes
  import opened GenericInference

  // ---------------------------------------------------------------- one call

  /** The uses in the first `n` generic parameters of the callee. */
  function CallUses(params: seq<Type>, args: seq<Type>, n: nat): seq<Use>
    requires n <= |params| <= |args|
  {
    if n == 0 then []
    else CallUses(params, args, n - 1) + (if Qualifies(params[n - 1]) then Uses(params[n - 1], args[n - 1]) else [])
  }

  predicate CallFits(params: seq<Type>, args: seq<Type>, n: nat)
    requires n <= |params| <= |args|
  {
    forall i :: 0 <= i < n && Qualifies(params[i]) ==> Fits(params[i], args[i])
  }

  /** The table that a whole call leaves. */
  function CallTable(template: Type, args: seq<Type>): Table
    requires template.Function? && |template.params| <= |args|
  {
    Bound(map[], CallUses(template.params, args, |template.params|))
  }

  /** The argument types decide every generic, consistently. */
  ghost predicate Accepted(template: Type, args: seq<Type>)
    requires template.Function? && |template.params| <= |args|
  {
    CallFits(template.params, args, |template.params|) &&
    Agree(map[], CallUses(template.params, args, |template.params|)) &&
    Covers(CallTable(template, args), template.ret)
  }

  /** ac_generic_get up to the instance's type; None is a fatal error. The copies name the instance. */
  method InstanceType(template: Type, args: seq<Type>) returns (out: Option<Type>, copies: seq<Type>)
    requires template.Function? && |template.params| <= |args|
    ensures out.Some? <==> Accepted(template, args)
    ensures out.Some? ==> IsInstance(template, args, out.value) && ArgumentsCopied(template.params, args, copies)
  {
    var inference := new Inference();
    var ok, newArgs, these := MatchArguments(inference, template.params, args);
    copies := these;
    if !ok {
      return None, copies;
    }
    assert newArgs == GivenParams(template, args);
    var ret := template.ret;
    CoversPlain(inference.scanned, ret);
    if Qualifies(ret) {
      var result := inference.CopyAndFind(ret, None, ret);
      if result.None? {
        return None, copies;
      }
      ret := result.value;
    }
    out := Some(Function(ret, newArgs, false, 0, 0));
  }

  method MatchArguments(inference: Inference, params: seq<Type>, args: seq<Type>)
    returns (ok: bool, newArgs: seq<Type>, copies: seq<Type>)
    requires |params| <= |args| && inference.scanned == map[]
    modifies inference
    ensures ok <==> CallFits(params, args, |params|) && Agree(map[], CallUses(params, args, |params|))
    ensures ok ==> inference.scanned == Bound(map[], CallUses(params, args, |params|))
    ensures ok ==> |newArgs| == |params| && ArgumentsCopied(params, args, copies)
    ensures ok ==> GivenUpTo(params, args, |params|, newArgs)
  {
    newArgs := params;
    copies := [];
    var i := 0;
    while i < |params|
      invariant 0 <= i <= |params| && MatchedUpTo(params, args, i, inference.scanned, newArgs, copies)
    {
      var matched, copy := MatchArgument(inference, params, args, i);
      if !matched {
        CallFails(params, args, i + 1, |params|);
        return false, newArgs, copies;
      }
      GivenNext(params, args, i, newArgs);
      newArgs := if Qualifies(params[i]) then newArgs[i := args[i]] else newArgs;
      CopiedNext(params, args, copies, copy);
      copies := copies + [copy];
      i := i + 1;
    }
    ok := true;
  }

  /** The first `i` arguments have been matched: the table, the instance's parameters and the copies so far. */
  ghost predicate MatchedUpTo(params: seq<Type>, args: seq<Type>, i: nat, scanned: Table, newArgs: seq<Type>,
                              copies: seq<Type>)
    requires i <= |params| <= |args|
  {
    |newArgs| == |params| && |copies| == i && CallFits(params, args, i) && Agree(map[], CallUses(params, args, i)) &&
    scanned == Bound(map[], CallUses(params, args, i)) && GivenUpTo(params, args, i, newArgs) &&
    CopiedUpTo(params, args, copies)
  }

  method MatchArgument(inference: Inference, params: seq<Type>, args: seq<Type>, i: nat)
    returns (ok: bool, copy: Type)
    requires i < |params| <= |args|
    requires CallFits(params, args, i) && Agree(map[], CallUses(params, args, i))
    requires inference.scanned == Bound(map[], CallUses(params, args, i))
    modifies inference
    ensures ok <==> CallFits(params, args, i + 1) && Agree(map[], CallUses(params, args, i + 1))
    ensures ok ==> inference.scanned == Bound(map[], CallUses(params, args, i + 1))
    ensures ok && Qualifies(params[i]) ==> CopyOf(params[i], Some(args[i]), map[], copy)
  {
    CallNext(params, args, i);
    if !Qualifies(params[i]) {
      return true, params[i];
    }
    var replacement := inference.CopyAndFind(params[i], Some(args[i]), Basic(0));
    if replacement.None? {
      return false, params[i];
    }
    CopyOfGrows(params[i], Some(args[i]), inference.scanned, map[], replacement.value);
    return true, replacement.value;
  }

  ghost predicate IsInstance(template: Type, args: seq<Type>, f: Type)
    requires template.Function? && |template.params| <= |args|
  {
    f.Function? && f.params == GivenParams(template, args) && !f.variadic && f.closure == 0 && f.gen == 0 &&
    if Qualifies(template.ret) then CopyOf(template.ret, None, CallTable(template, args), f.ret)
    else f.ret == template.ret
  }

  ghost predicate ArgumentsCopied(params: seq<Type>, args: seq<Type>, copies: seq<Type>)
    requires |params| <= |args|
  {
    |copies| == |params| && CopiedUpTo(params, args, copies)
  }

  ghost predicate CopiedUpTo(params: seq<Type>, args: seq<Type>, copies: seq<Type>)
    requires |copies| <= |params| <= |args|
  {
    forall i :: 0 <= i < |copies| && Qualifies(params[i]) ==> CopyOf(params[i], Some(args[i]), map[], copies[i])
  }

  lemma CopiedNext(params: seq<Type>, args: seq<Type>, copies: seq<Type>, copy: Type)
    requires |copies| < |params| <= |args| && CopiedUpTo(params, args, copies)
    requires Qualifies(params[|copies|]) ==> CopyOf(params[|copies|], Some(args[|copies|]), map[], copy)
    ensures CopiedUpTo(params, args, copies + [copy])
  {
  }

  lemma GivenNext(params: seq<Type>, args: seq<Type>, n: nat, newArgs: seq<Type>)
    requires n < |params| <= |args| && GivenUpTo(params, args, n, newArgs)
    ensures GivenUpTo(params, args, n + 1, if Qualifies(params[n]) then newArgs[n := args[n]] else newArgs)
  {
  }

  ghost predicate GivenUpTo(params: seq<Type>, args: seq<Type>, n: nat, newArgs: seq<Type>)
    requires n <= |params| <= |args|
  {
    |newArgs| == |params| &&
    forall k :: 0 <= k < |params| ==> newArgs[k] == if k < n && Qualifies(params[k]) then args[k] else params[k]
  }

  /** The generic parameters take the given types, the others keep the declared ones. */
  function GivenParams(template: Type, args: seq<Type>): seq<Type>
    requires template.Function? && |template.params| <= |args|
  {
    seq(|template.params|, i requires 0 <= i < |template.params| =>
      if Qualifies(template.params[i]) then args[i] else template.params[i])
  }

  lemma CallNext(params: seq<Type>, args: seq<Type>, n: nat)
    requires n < |params| <= |args|
    ensures CallFits(params, args, n + 1) <==>
              CallFits(params, args, n) && (Qualifies(params[n]) ==> Fits(params[n], args[n]))
    ensures Agree(map[], CallUses(params, args, n + 1)) <==>
              Agree(map[], CallUses(params, args, n)) &&
              (Qualifies(params[n]) ==> Agree(Bound(map[], CallUses(params, args, n)), Uses(params[n], args[n])))
    ensures Bound(map[], CallUses(params, args, n + 1)) ==
              var before := Bound(map[], CallUses(params, args, n));
              if Qualifies(params[n]) then Bound(before, Uses(params[n], args[n])) else before
  {
    var more := if Qualifies(params[n]) then Uses(params[n], args[n]) else [];
    AgreeAppend(map[], CallUses(params, args, n), more);
  }

  lemma {:induction false} CallFails(params: seq<Type>, args: seq<Type>, n: nat, m: nat)
    requires n <= m <= |params| <= |args|
    requires !(CallFits(params, args, n) && Agree(map[], CallUses(params, args, n)))
    ensures !(CallFits(params, args, m) && Agree(map[], CallUses(params, args, m)))
    decreases m
  {
    if n < m {
      CallFails(params, args, n, m - 1);
      CallNext(params, args, m - 1);
    }
  }

  lemma {:induction false} MentionedQualifies(t: Type, id: string)
    requires Mentions(t, id)
    ensures Qualifies(t)
  {
    match t
    case Generic(_) =>
    case Pointer(to, _, _, _) => MentionedQualifies(to, id);
    case Function(ret, params, _, _, _) =>
      if Mentions(ret, id) {
        MentionedQualifies(ret, id);
      } else {
        var i :| 0 <= i < |params| && Mentions(params[i], id);
        MentionedQualifies(params[i], id);
      }
  }

  lemma {:induction false} QualifiesMentions(t: Type) returns (id: string)
    requires Qualifies(t)
    ensures Mentions(t, id)
  {
    match t
    case Generic(i) => id := i;
    case Pointer(to, _, _, _) => id := QualifiesMentions(to);
    case Function(ret, params, _, _, _) =>
      if Qualifies(ret) {
        id := QualifiesMentions(ret);
      } else {
        var i :| 0 <= i < |params| && Qualifies(params[i]);
        id := QualifiesMentions(params[i]);
      }
  }

  lemma CoversPlain(table: Table, t: Type)
    ensures !Qualifies(t) ==> Covers(table, t)
  {
    if id :| Mentions(t, id) {
      MentionedQualifies(t, id);
    }
  }

  // ---------------------------------------------------------------- agreement without the order

  ghost predicate PlainUses(uses: seq<Use>) {
    forall i :: 0 <= i < |uses| ==> GenericFree(uses[i].1)
  }

  ghost predicate PlainTable(table: Table) {
    forall id :: id in table ==> GenericFree(table[id])
  }

  /** Any two uses of one generic are the same. */
  ghost predicate Consistent(uses: seq<Use>) {
    forall i, j :: 0 <= i < j < |uses| && uses[i].0 == uses[j].0 ==> AreSame(uses[i].1, uses[j].1)
  }

  ghost predicate ConsistentWith(table: Table, uses: seq<Use>) {
    forall i :: 0 <= i < |uses| && uses[i].0 in table ==> AreSame(table[uses[i].0], uses[i].1)
  }

  /** Comparing each use with the one before is comparing all of them, when what is given has no generics. */
  lemma {:induction false} AgreeExactly(table: Table, uses: seq<Use>)
    requires PlainUses(uses) && PlainTable(table)
    ensures Agree(table, uses) <==> Consistent(uses) && ConsistentWith(table, uses)
    decreases |uses|
  {
    if uses != [] {
      var (id, t) := uses[0];
      var rest, next := uses[1..], table[id := t];
      AgreeExactly(next, rest);
      if Agree(table, uses) {
        AgreeTogether(table, uses);
      }
      if Consistent(uses) && ConsistentWith(table, uses) {
        forall i | 0 <= i < |rest| && rest[i].0 in next ensures AreSame(next[rest[i].0], rest[i].1) {
          assert rest[i] == uses[i + 1];
        }
        forall i, j | 0 <= i < j < |rest| && rest[i].0 == rest[j].0 ensures AreSame(rest[i].1, rest[j].1) {
          assert rest[i] == uses[i + 1] && rest[j] == uses[j + 1];
        }
      }
    }
  }

  lemma AgreeTogether(table: Table, uses: seq<Use>)
    requires PlainUses(uses) && PlainTable(table) && uses != []
    requires var next := table[uses[0].0 := uses[0].1];
             (uses[0].0 in table ==> AreSame(table[uses[0].0], uses[0].1)) &&
             Consistent(uses[1..]) && ConsistentWith(next, uses[1..])
    ensures Consistent(uses) && ConsistentWith(table, uses)
  {
    var (id, t) := uses[0];
    var rest, next := uses[1..], table[uses[0].0 := uses[0].1];
    forall i | 0 <= i < |uses| && uses[i].0 in table ensures AreSame(table[uses[i].0], uses[i].1) {
      if i > 0 {
        assert uses[i] == rest[i - 1];
        assert AreSame(next[rest[i - 1].0], rest[i - 1].1);
        if uses[i].0 == id {
          SameTransitive(table[id], t, uses[i].1);
        }
      }
    }
    forall i, j | 0 <= i < j < |uses| && uses[i].0 == uses[j].0 ensures AreSame(uses[i].1, uses[j].1) {
      assert uses[j] == rest[j - 1];
      if i == 0 {
        assert AreSame(next[rest[j - 1].0], rest[j - 1].1);
      } else {
        assert uses[i] == rest[i - 1];
      }
    }
  }

  /** Every use is the same as what the table ends up with. */
  lemma {:induction false} BoundAgrees(table: Table, uses: seq<Use>)
    requires PlainUses(uses) && PlainTable(table) && Agree(table, uses)
    ensures PlainTable(Bound(table, uses)) && table.Keys <= Bound(table, uses).Keys
    ensures forall id :: id in table ==> AreSame(table[id], Bound(table, uses)[id])
    ensures UsesAgree(uses, Bound(table, uses))
    decreases |uses|
  {
    if uses == [] {
      forall id | id in table ensures AreSame(table[id], table[id]) { SameReflexive(table[id]); }
    } else {
      var (id, t) := uses[0];
      var rest, next := uses[1..], table[uses[0].0 := uses[0].1];
      BoundAgrees(next, rest);
      var final := Bound(table, uses);
      assert final == Bound(next, rest);
      assert AreSame(next[id], final[id]);
      forall k | k in table ensures AreSame(table[k], final[k]) {
        assert AreSame(next[k], final[k]);
        if k == id {
          SameTransitive(table[id], t, final[id]);
        }
      }
      forall i | 0 <= i < |uses| ensures UseAgrees(uses[i], final) {
        if i > 0 {
          assert UseAgrees(rest[i - 1], final);
        }
      }
    }
  }

  ghost predicate UseAgrees(use: Use, table: Table) {
    use.0 in table && AreSame(use.1, table[use.0])
  }

  ghost predicate UsesAgree(uses: seq<Use>, table: Table) {
    forall i :: 0 <= i < |uses| ==> UseAgrees(uses[i], table)
  }

  // ---------------------------------------------------------------- instances of a template

  /** `ref` with its generics replaced, as far as matching reaches. */
  function Instance(ref: Type, sub: Table): Type {
    match ref
    case Generic(id) => if id in sub then sub[id] else ref
    case Pointer(to, counted, weak, closed) => Pointer(Instance(to, sub), counted, weak, closed)
    case Function(ret, params, variadic, closure, gen) =>
      Function(Instance(ret, sub), seq(|params|, i requires 0 <= i < |params| => Instance(params[i], sub)),
               variadic, closure, gen)
    case _ => ref
  }

  ghost predicate UsesFrom(uses: seq<Use>, sub: Table) {
    forall i :: 0 <= i < |uses| ==> uses[i].0 in sub && uses[i].1 == sub[uses[i].0]
  }

  lemma {:induction false} InstanceFits(ref: Type, sub: Table)
    requires Covers(sub, ref)
    ensures Fits(ref, Instance(ref, sub)) && UsesFrom(Uses(ref, Instance(ref, sub)), sub)
    decreases ref, 0
  {
    CoversOther(sub, ref);
    match ref
    case Pointer(to, _, _, _) => InstanceFits(to, sub);
    case Function(ret, params, _, _, _) =>
      CoversFunction(sub, ref);
      forall i | 0 <= i < |params| ensures Fits(params[i], Instance(params[i], sub)) { InstanceFits(params[i], sub); }
      InstanceFits(ret, sub);
      InstanceUsesUpTo(ref, sub, |params|);
    case _ =>
  }

  lemma {:induction false} InstanceUsesUpTo(ref: Type, sub: Table, n: nat)
    requires ref.Function? && n <= |ref.params|
    requires forall i :: 0 <= i < |ref.params| ==> Covers(sub, ref.params[i])
    ensures UsesFrom(UsesUpTo(ref, Instance(ref, sub), n), sub)
    decreases ref, 0, n
  {
    if n > 0 {
      InstanceUsesUpTo(ref, sub, n - 1);
      InstanceFits(ref.params[n - 1], sub);
    }
  }

  lemma UsesFromAgree(uses: seq<Use>, sub: Table)
    requires UsesFrom(uses, sub) && PlainTable(sub)
    ensures Agree(map[], uses)
  {
    forall i, j | 0 <= i < j < |uses| && uses[i].0 == uses[j].0 ensures AreSame(uses[i].1, uses[j].1) {
      SameReflexive(uses[i].1);
    }
    AgreeExactly(map[], uses);
  }

  /** The arguments are instances of the generic parameters under one substitution. */
  ghost predicate AreInstances(params: seq<Type>, args: seq<Type>, sub: Table)
    requires |params| <= |args|
  {
    forall i :: 0 <= i < |params| && Qualifies(params[i]) ==>
      Covers(sub, params[i]) && args[i] == Instance(params[i], sub)
  }

  lemma {:induction false} CallUsesFrom(params: seq<Type>, args: seq<Type>, sub: Table, n: nat)
    requires n <= |params| <= |args| && AreInstances(params, args, sub)
    ensures CallFits(params, args, n) && UsesFrom(CallUses(params, args, n), sub)
  {
    if n > 0 {
      CallUsesFrom(params, args, sub, n - 1);
      if Qualifies(params[n - 1]) {
        InstanceFits(params[n - 1], sub);
      }
    }
  }

  /** Arguments that are instances under one substitution are accepted, if they decide the return type at all. */
  lemma InstancesAccepted(template: Type, args: seq<Type>, sub: Table)
    requires template.Function? && |template.params| <= |args|
    requires PlainTable(sub) && AreInstances(template.params, args, sub)
    ensures Accepted(template, args) <==> Covers(CallTable(template, args), template.ret)
  {
    CallUsesFrom(template.params, args, sub, |template.params|);
    UsesFromAgree(CallUses(template.params, args, |template.params|), sub);
  }

  // ---------------------------------------------------------------- what the copies are

  /** Every parameter of every function type inside is one that gets written. */
  predicate Copyable(ref: Type) {
    match ref
    case Pointer(to, _, _, _) => Copyable(to)
    case Function(ret, params, _, _, _) =>
      Copyable(ret) && forall i :: 0 <= i < |params| ==> Written(params[i]) && Copyable(params[i])
    case _ => true
  }

  /** A return type is copied exactly. */
  lemma {:induction false} CopyIsInstance(ref: Type, table: Table, out: Type)
    requires CopyOf(ref, None, table, out) && Copyable(ref)
    ensures out == Instance(ref, table)
    decreases ref
  {
    match ref
    case Pointer(to, _, _, _) => CopyIsInstance(to, table, out.to);
    case Function(ret, params, _, _, _) =>
      CopyIsInstance(ret, table, out.ret);
      forall i | 0 <= i < |params| ensures out.params[i] == Instance(params[i], table) {
        CopyIsInstance(params[i], table, out.params[i]);
      }
      assert out.params == Instance(ref, table).params;
    case _ =>
  }

  lemma {:induction false} UsesUpToAgree(ref: Type, given: Type, table: Table, n: nat, k: nat)
    requires ref.Function? && given.Function? && k < n <= |ref.params| == |given.params|
    requires UsesAgree(UsesUpTo(ref, given, n), table)
    ensures UsesAgree(Uses(ref.params[k], given.params[k]), table)
    decreases n
  {
    var before, last := UsesUpTo(ref, given, n - 1), Uses(ref.params[n - 1], given.params[n - 1]);
    if k < n - 1 {
      UsesAgreeParts(before, last, table);
      UsesUpToAgree(ref, given, table, n - 1, k);
    } else {
      UsesAgreeParts(before, last, table);
    }
  }

  lemma UsesAgreeParts(a: seq<Use>, b: seq<Use>, table: Table)
    requires UsesAgree(a + b, table)
    ensures UsesAgree(a, table) && UsesAgree(b, table)
  {
    forall i | 0 <= i < |a| ensures UseAgrees(a[i], table) { assert UseAgrees((a + b)[i], table); }
    forall i | 0 <= i < |b| ensures UseAgrees(b[i], table) { assert UseAgrees((a + b)[|a| + i], table); }
  }

  /** The uses of a function type agree in each part. */
  lemma FunctionUsesAgree(ref: Type, given: Type, table: Table)
    requires ref.Function? && Fits(ref, given) && UsesAgree(Uses(ref, given), table)
    ensures UsesAgree(Uses(ref.ret, given.ret), table)
    ensures forall k :: 0 <= k < |ref.params| ==> UsesAgree(Uses(ref.params[k], given.params[k]), table)
  {
    UsesAgreeParts(UsesUpTo(ref, given, |ref.params|), Uses(ref.ret, given.ret), table);
    forall k | 0 <= k < |ref.params| ensures UsesAgree(Uses(ref.params[k], given.params[k]), table) {
      UsesUpToAgree(ref, given, table, |ref.params|, k);
    }
  }

  /** A copied parameter is the instantiated template, as the compiler compares types. */
  lemma {:induction false} CopySameAsInstance(ref: Type, given: Type, table: Table, out: Type)
    requires Fits(ref, given) && UsesAgree(Uses(ref, given), table)
    requires CopyOf(ref, Some(given), map[], out) && Copyable(ref)
    ensures AreSame(out, Instance(ref, table))
    decreases ref
  {
    match ref
    case Generic(_) => assert UseAgrees(Uses(ref, given)[0], table);
    case Pointer(to, _, _, _) => CopySameAsInstance(to, given.to, table, out.to);
    case Function(ret, params, _, _, _) =>
      FunctionUsesAgree(ref, given, table);
      CopySameAsInstance(ret, given.ret, table, out.ret);
      forall i | 0 <= i < |params| ensures AreSame(out.params[i], Instance(params[i], table)) {
        CopySameAsInstance(params[i], given.params[i], table, out.params[i]);
      }
    case _ => SameReflexive(ref);
  }

  /** Outside the generics, the given type is what the declared one says. Matching does not look at this. */
  predicate PlainPartsSame(ref: Type, given: Type)
    requires Fits(ref, given)
  {
    match ref
    case Generic(_) => true
    case Pointer(to, counted, weak, _) =>
      (counted || weak) == (given.counted || given.weak) && PlainPartsSame(to, given.to)
    case Function(ret, params, _, closure, _) =>
      (closure > 0) == (given.closure > 0) && PlainPartsSame(ret, given.ret) &&
      forall i :: 0 <= i < |params| ==> PlainPartsSame(params[i], given.params[i])
    case _ => AreSame(given, ref)
  }

  /** An argument that matched is the instantiated template exactly if its other parts are the declared ones. */
  lemma {:induction false} GivenSameAsInstance(ref: Type, given: Type, table: Table)
    requires Fits(ref, given) && UsesAgree(Uses(ref, given), table)
    ensures AreSame(given, Instance(ref, table)) <==> PlainPartsSame(ref, given)
    decreases ref
  {
    match ref
    case Generic(_) => assert UseAgrees(Uses(ref, given)[0], table);
    case Pointer(to, _, _, _) => GivenSameAsInstance(to, given.to, table);
    case Function(ret, params, _, _, _) =>
      FunctionUsesAgree(ref, given, table);
      GivenSameAsInstance(ret, given.ret, table);
      var inst := Instance(ref, table);
      forall i | 0 <= i < |params|
        ensures AreSame(given.params[i], inst.params[i]) <==> PlainPartsSame(params[i], given.params[i])
      {
        GivenSameAsInstance(params[i], given.params[i], table);
      }
    case _ =>
  }

  /** A raw pointer is accepted where the template says weak pointer, though the two are not the same. */
  lemma AcceptedButDifferent()
    ensures var ref := Pointer(Generic("T"), false, true, false);
            var given := Pointer(Basic(1), false, false, false);
            var template := Function(Basic(0), [ref], false, 0, 0);
            Accepted(template, [given]) && !AreSame(given, Instance(ref, CallTable(template, [given])))
  {
  }

  // ---------------------------------------------------------------- parameters that are never written

  /** Matching fixes the copy of a declared type, whatever the memory held. */
  ghost predicate Determined(ref: Type, given: Option<Type>, table: Table) {
    forall a, b :: CopyOf(ref, given, table, a) && CopyOf(ref, given, table, b) ==> a == b
  }

  lemma {:induction false} CopyUnique(ref: Type, given: Option<Type>, table: Table, a: Type, b: Type)
    requires Copyable(ref) && CopyOf(ref, given, table, a) && CopyOf(ref, given, table, b)
    ensures a == b
    decreases ref
  {
    match ref
    case Pointer(to, _, _, _) => CopyUnique(to, Pointee(given), table, a.to, b.to);
    case Function(ret, params, _, _, _) =>
      CopyUnique(ret, Returned(given), table, a.ret, b.ret);
      forall i | 0 <= i < |params| ensures a.params[i] == b.params[i] {
        CopyUnique(params[i], Param(given, i), table, a.params[i], b.params[i]);
      }
      assert a.params == b.params;
    case _ =>
  }

  /** Another copy, told apart by what the unwritten parameters hold. */
  lemma {:induction false} CopyOther(ref: Type, given: Option<Type>, table: Table, a: Type) returns (b: Type)
    requires !Copyable(ref) && CopyOf(ref, given, table, a)
    ensures CopyOf(ref, given, table, b) && a != b
    decreases ref
  {
    match ref
    case Pointer(to, _, _, _) =>
      var other := CopyOther(to, Pointee(given), table, a.to);
      b := a.(to := other);
    case Function(ret, params, _, _, _) =>
      if !Copyable(ret) {
        var other := CopyOther(ret, Returned(given), table, a.ret);
        b := a.(ret := other);
      } else {
        var i :| 0 <= i < |params| && !(Written(params[i]) && Copyable(params[i]));
        var other := if a.params[i] == Basic(0) then Basic(1) else Basic(0);
        if Written(params[i]) {
          other := CopyOther(params[i], Param(given, i), table, a.params[i]);
        }
        b := a.(params := a.params[i := other]);
        assert b.params[i] != a.params[i];
      }
  }

  /** A copy depends on uninitialised memory exactly if some function type inside has a plain parameter. */
  lemma CopyDetermined(ref: Type, given: Option<Type>, table: Table, out: Type)
    requires CopyOf(ref, given, table, out)
    ensures Determined(ref, given, table) <==> Copyable(ref)
  {
    if Copyable(ref) {
      forall a, b | CopyOf(ref, given, table, a) && CopyOf(ref, given, table, b) ensures a == b {
        CopyUnique(ref, given, table, a, b);
      }
    } else {
      var other := CopyOther(ref, given, table, out);
    }
  }

  // ---------------------------------------------------------------- which calls are accepted

  ghost predicate UsedIn(uses: seq<Use>, id: string) {
    exists i :: 0 <= i < |uses| && uses[i].0 == id
  }

  lemma UsedInAppend(a: seq<Use>, b: seq<Use>, id: string)
    ensures UsedIn(a + b, id) <==> UsedIn(a, id) || UsedIn(b, id)
  {
    if i :| 0 <= i < |a| && a[i].0 == id {
      assert (a + b)[i].0 == id;
    } else if i :| 0 <= i < |b| && b[i].0 == id {
      assert (a + b)[|a| + i].0 == id;
    }
  }

  lemma {:induction false} UsesMention(ref: Type, given: Type, id: string)
    requires Fits(ref, given)
    ensures UsedIn(Uses(ref, given), id) <==> Mentions(ref, id)
    decreases ref, 0
  {
    match ref
    case Generic(k) => assert Uses(ref, given)[0].0 == k;
    case Pointer(to, _, _, _) => UsesMention(to, given.to, id);
    case Function(ret, params, _, _, _) =>
      UsesMention(ret, given.ret, id);
      UsesUpToMention(ref, given, id, |params|);
      UsedInAppend(UsesUpTo(ref, given, |params|), Uses(ret, given.ret), id);
    case _ =>
  }

  lemma {:induction false} UsesUpToMention(ref: Type, given: Type, id: string, n: nat)
    requires ref.Function? && Fits(ref, given) && n <= |ref.params|
    ensures UsedIn(UsesUpTo(ref, given, n), id) <==> exists i :: 0 <= i < n && Mentions(ref.params[i], id)
    decreases ref, 0, n
  {
    if n > 0 {
      UsesUpToMention(ref, given, id, n - 1);
      UsesMention(ref.params[n - 1], given.params[n - 1], id);
      UsedInAppend(UsesUpTo(ref, given, n - 1), Uses(ref.params[n - 1], given.params[n - 1]), id);
    }
  }

  lemma {:induction false} CallUsesMention(params: seq<Type>, args: seq<Type>, id: string, n: nat)
    requires n <= |params| <= |args| && CallFits(params, args, n)
    ensures UsedIn(CallUses(params, args, n), id) <==> exists i :: 0 <= i < n && Mentions(params[i], id)
  {
    if n > 0 {
      CallUsesMention(params, args, id, n - 1);
      var p := params[n - 1];
      if Qualifies(p) {
        UsesMention(p, args[n - 1], id);
        UsedInAppend(CallUses(params, args, n - 1), Uses(p, args[n - 1]), id);
      } else {
        CoversPlain(map[], p);
        assert !Mentions(p, id);
        UsedInAppend(CallUses(params, args, n - 1), [], id);
      }
    }
  }

  lemma {:induction false} BoundHas(table: Table, uses: seq<Use>, id: string)
    ensures id in Bound(table, uses) <==> id in table || UsedIn(uses, id)
    decreases |uses|
  {
    if uses != [] {
      BoundHas(table[uses[0].0 := uses[0].1], uses[1..], id);
      assert uses == uses[..1] + uses[1..];
      UsedInAppend(uses[..1], uses[1..], id);
      assert UsedIn(uses[..1], id) <==> uses[0].0 == id;
    }
  }

  ghost predicate PlainArguments(params: seq<Type>, args: seq<Type>)
    requires |params| <= |args|
  {
    forall i :: 0 <= i < |params| && Qualifies(params[i]) ==> GenericFree(args[i])
  }

  lemma {:induction false} UsesPlain(ref: Type, given: Type)
    requires GenericFree(given)
    ensures PlainUses(Uses(ref, given))
    decreases ref, 0
  {
    match ref
    case Pointer(to, _, _, _) => if given.Pointer? { UsesPlain(to, given.to); }
    case Function(ret, params, _, _, _) =>
      if given.Function? && |params| == |given.params| {
        UsesPlain(ret, given.ret);
        UsesUpToPlain(ref, given, |params|);
      }
    case _ =>
  }

  lemma {:induction false} UsesUpToPlain(ref: Type, given: Type, n: nat)
    requires ref.Function? && given.Function? && n <= |ref.params| == |given.params| && GenericFree(given)
    ensures PlainUses(UsesUpTo(ref, given, n))
    decreases ref, 0, n
  {
    if n > 0 {
      UsesUpToPlain(ref, given, n - 1);
      UsesPlain(ref.params[n - 1], given.params[n - 1]);
    }
  }

  lemma {:induction false} CallUsesPlain(params: seq<Type>, args: seq<Type>, n: nat)
    requires n <= |params| <= |args| && PlainArguments(params, args)
    ensures PlainUses(CallUses(params, args, n))
  {
    if n > 0 {
      CallUsesPlain(params, args, n - 1);
      if Qualifies(params[n - 1]) {
        UsesPlain(params[n - 1], args[n - 1]);
      }
    }
  }

  ghost predicate MentionedBy(params: seq<Type>, id: string) {
    exists i :: 0 <= i < |params| && Mentions(params[i], id)
  }

  /**
   * A call with concrete arguments is accepted exactly if they have the declared shapes, any two uses of a generic
   * are the same, and some parameter mentions each generic of the return type.
   */
  lemma AcceptedExactly(template: Type, args: seq<Type>)
    requires template.Function? && |template.params| <= |args| && PlainArguments(template.params, args)
    ensures Accepted(template, args) <==>
              CallFits(template.params, args, |template.params|) &&
              Consistent(CallUses(template.params, args, |template.params|)) &&
              forall id :: Mentions(template.ret, id) ==> MentionedBy(template.params, id)
  {
    var params := template.params;
    var uses := CallUses(params, args, |params|);
    CallUsesPlain(params, args, |params|);
    AgreeExactly(map[], uses);
    if CallFits(params, args, |params|) {
      forall id ensures id in CallTable(template, args) <==> MentionedBy(params, id) {
        BoundHas(map[], uses, id);
        CallUsesMention(params, args, id, |params|);
      }
    }
  }

  /** All that is given for a generic has one form. */
  ghost predicate OneForm(uses: seq<Use>, forms: map<string, Form>) {
    forall i :: 0 <= i < |uses| ==> uses[i].0 in forms && Norm(uses[i].1) == forms[uses[i].0]
  }

  lemma {:induction false} FormsFound(uses: seq<Use>) returns (forms: map<string, Form>)
    requires PlainUses(uses) && Consistent(uses)
    ensures OneForm(uses, forms) && forall id :: id in forms ==> exists i :: 0 <= i < |uses| && uses[i].0 == id
  {
    if uses == [] {
      return map[];
    }
    var last := |uses| - 1;
    var before := FormsFound(uses[..last]);
    forms := before[uses[last].0 := Norm(uses[last].1)];
    forall i | 0 <= i < last
      ensures uses[i].0 in forms && Norm(uses[i].1) == forms[uses[i].0]
    {
      assert uses[..last][i] == uses[i];
      if uses[i].0 == uses[last].0 {
        SameExactly(uses[i].1, uses[last].1);
      }
    }
  }

  /** Uses without generics are consistent exactly if each generic has one form. */
  lemma ConsistentByForm(uses: seq<Use>)
    requires PlainUses(uses)
    ensures Consistent(uses) <==> exists forms :: OneForm(uses, forms)
  {
    if Consistent(uses) {
      var forms := FormsFound(uses);
    }
    if forms :| OneForm(uses, forms) {
      forall i, j | 0 <= i < j < |uses| && uses[i].0 == uses[j].0 ensures AreSame(uses[i].1, uses[j].1) {
        SameExactly(uses[i].1, uses[j].1);
      }
    }
  }

  /** Where a parameter is declared with a generic, the argument looks like it, generics aside. */
  ghost predicate CallLooks(params: seq<Type>, args: seq<Type>)
    requires |params| <= |args|
  {
    forall k :: 0 <= k < |params| && Qualifies(params[k]) ==> Seen(params[k], args[k]) == Seen(params[k], params[k])
  }

  /** So a call with concrete arguments is accepted exactly if they look as declared, what is given for a generic has
      one form, and some parameter mentions each generic of the return type. */
  lemma AcceptedByForm(template: Type, args: seq<Type>)
    requires template.Function? && |template.params| <= |args| && PlainArguments(template.params, args)
    ensures Accepted(template, args) <==>
              CallLooks(template.params, args) &&
              (exists forms :: OneForm(CallUses(template.params, args, |template.params|), forms)) &&
              forall id :: Mentions(template.ret, id) ==> MentionedBy(template.params, id)
  {
    AcceptedExactly(template, args);
    CallUsesPlain(template.params, args, |template.params|);
    ConsistentByForm(CallUses(template.params, args, |template.params|));
    forall k | 0 <= k < |template.params|
      ensures Fits(template.params[k], args[k]) <==>
        Seen(template.params[k], args[k]) == Seen(template.params[k], template.params[k])
    {
      FitsExactly(template.params[k], args[k]);
    }
  }

  /** A function that takes two arguments of one type accepts two types without generics exactly if they have the same
      form: not, for one, two structs of different names. */
  lemma TwoOfOneType(id: string, x: Type, y: Type)
    requires GenericFree(x) && GenericFree(y)
    ensures Accepted(Function(Generic(id), [Generic(id), Generic(id)], false, 0, 0), [x, y]) <==> Norm(x) == Norm(y)
    ensures forall a: string, b: string {:trigger Named(StructKind, a), Named(StructKind, b)} :: a != b ==>
      !Accepted(Function(Generic(id), [Generic(id), Generic(id)], false, 0, 0),
                [Named(StructKind, a), Named(StructKind, b)])
  {
    TwoUses(id, x, y);
    forall a: string, b: string | a != b
      ensures !Accepted(Function(Generic(id), [Generic(id), Generic(id)], false, 0, 0),
                        [Named(StructKind, a), Named(StructKind, b)])
    {
      TwoUses(id, Named(StructKind, a), Named(StructKind, b));
    }
  }

  lemma TwoUses(id: string, x: Type, y: Type)
    requires GenericFree(x) && GenericFree(y)
    ensures Accepted(Function(Generic(id), [Generic(id), Generic(id)], false, 0, 0), [x, y]) <==> Norm(x) == Norm(y)
  {
    var params, args := [Generic(id), Generic(id)], [x, y];
    var template := Function(Generic(id), params, false, 0, 0);
    AcceptedExactly(template, args);
    UsesOfTwo(id, x, y);
    assert Qualifies(params[0]) && Mentions(params[0], id);
    assert MentionedBy(params, id);
    SameExactly(x, y);
  }

  lemma UsesOfTwo(id: string, x: Type, y: Type)
    ensures var uses := CallUses([Generic(id), Generic(id)], [x, y], 2);
      uses == [(id, x), (id, y)] && (Consistent(uses) <==> AreSame(x, y))
  {
    var params, args := [Generic(id), Generic(id)], [x, y];
    assert CallUses(params, args, 1) == CallUses(params, args, 0) + [(id, x)] == [(id, x)];
    assert CallUses(params, args, 2) == [(id, x)] + [(id, y)] == [(id, x), (id, y)];
    var uses := CallUses(params, args, 2);
    assert uses[0].1 == x && uses[1].1 == y;
  }

  // ---------------------------------------------------------------- the theorem

  lemma {:induction false} CallUsesParts(params: seq<Type>, args: seq<Type>, table: Table, n: nat, k: nat)
    requires k < n <= |params| <= |args| && Qualifies(params[k])
    requires UsesAgree(CallUses(params, args, n), table)
    ensures UsesAgree(Uses(params[k], args[k]), table)
    decreases n
  {
    var last := if Qualifies(params[n - 1]) then Uses(params[n - 1], args[n - 1]) else [];
    UsesAgreeParts(CallUses(params, args, n - 1), last, table);
    if k < n - 1 {
      CallUsesParts(params, args, table, n - 1, k);
    }
  }

  /**
   * An accepted call has one substitution behind it: every copied parameter is the instantiated template up to the
   * compiler's comparison, and the return type is the instantiated template itself. The parameters of the instance are
   * the arguments in generic places, which are the instantiated template where their other parts are the declared ones,
   * and the declared types, which are their own instances, elsewhere.
   */
  lemma AcceptedCall(template: Type, args: seq<Type>, f: Type, copies: seq<Type>)
    requires template.Function? && |template.params| <= |args| && Accepted(template, args)
    requires IsInstance(template, args, f) && ArgumentsCopied(template.params, args, copies)
    requires PlainArguments(template.params, args)
    ensures Copyable(template.ret) ==> f.ret == Instance(template.ret, CallTable(template, args))
    ensures forall i :: 0 <= i < |template.params| && Qualifies(template.params[i]) && Copyable(template.params[i]) ==>
              AreSame(copies[i], Instance(template.params[i], CallTable(template, args)))
    ensures forall i :: 0 <= i < |template.params| && Qualifies(template.params[i]) ==>
              (AreSame(args[i], Instance(template.params[i], CallTable(template, args))) <==>
               PlainPartsSame(template.params[i], args[i]))
    ensures |f.params| == |template.params|
    ensures forall i :: 0 <= i < |template.params| ==>
              ParamOf(template.params[i], args[i], CallTable(template, args), f.params[i])
  {
    var params, table := template.params, CallTable(template, args);
    var uses := CallUses(params, args, |params|);
    CallUsesPlain(params, args, |params|);
    BoundAgrees(map[], uses);
    if Copyable(template.ret) {
      if Qualifies(template.ret) {
        CopyIsInstance(template.ret, table, f.ret);
      } else {
        InstancePlain(template.ret, table);
      }
    }
    forall i | 0 <= i < |params| && Qualifies(params[i])
      ensures Copyable(params[i]) ==> AreSame(copies[i], Instance(params[i], table))
      ensures AreSame(args[i], Instance(params[i], table)) <==> PlainPartsSame(params[i], args[i])
    {
      CallUsesParts(params, args, table, |params|, i);
      if Copyable(params[i]) {
        CopySameAsInstance(params[i], args[i], table, copies[i]);
      }
      GivenSameAsInstance(params[i], args[i], table);
    }
    forall i | 0 <= i < |params|
      ensures ParamOf(params[i], args[i], table, f.params[i])
    {
      if !Qualifies(params[i]) {
        InstancePlain(params[i], table);
      }
    }
  }

  /** What stands in the instance for a declared parameter. */
  ghost predicate ParamOf(declared: Type, given: Type, table: Table, now: Type) {
    if Qualifies(declared) then
      now == given && Fits(declared, given) &&
      (AreSame(now, Instance(declared, table)) <==> PlainPartsSame(declared, given))
    else
      now == declared == Instance(declared, table)
  }

  lemma {:induction false} InstancePlain(ref: Type, sub: Table)
    requires !Qualifies(ref)
    ensures Instance(ref, sub) == ref
  {
    match ref
    case Pointer(to, _, _, _) => InstancePlain(to, sub);
    case Function(ret, params, _, _, _) =>
      InstancePlain(ret, sub);
      forall i | 0 <= i < |params| ensures Instance(params[i], sub) == params[i] { InstancePlain(params[i], sub); }
      assert Instance(ref, sub).params == params;
    case _ =>
  }
}
