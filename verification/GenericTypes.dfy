/** Type descriptions and the loose equality the compiler uses on them. */
module GenericTypes {
  import opened Wrappers

  datatype NamedKind = StructKind | ClassKind | EnumKind

  /** `Basic` stands for every kind that carries no further data. */
  datatype Type =
    | Basic(kind: nat)
    | Pointer(to: Type, counted: bool, weak: bool, closed: bool)
    | Array(of: Type, ct: int)
    | Generator(item: Type)
    | Interface(names: seq<string>)
    | Named(sort: NamedKind, name: string)
    | Function(ret: Type, params: seq<Type>, variadic: bool, closure: nat, gen: nat)
    | Generic(ident: string)

  /** Whether the `type` tags of the two nodes are equal. */
  predicate SameTag(a: Type, b: Type) {
    match a
    case Basic(k) => b.Basic? && b.kind == k
    case Pointer(_, _, _, _) => b.Pointer?
    case Array(_, _) => b.Array?
    case Generator(_) => b.Generator?
    case Interface(_) => b.Interface?
    case Named(k, _) => b.Named? && b.sort == k
    case Function(_, _, _, _, _) => b.Function?
    case Generic(_) => b.Generic?
  }

  /** ett_are_same */
  predicate AreSame(a: Type, b: Type)
    decreases a
  {
    if !SameTag(a, b) then a.Generic? || b.Generic?
    else match a
      case Pointer(to, counted, weak, _) => (counted || weak) == (b.counted || b.weak) && AreSame(to, b.to)
      case Array(of, ct) => AreSame(of, b.of) && ct == b.ct
      case Named(_, name) => name == b.name
      case Function(ret, params, _, closure, gen) =>
        AreSame(ret, b.ret) && |params| == |b.params| &&
        (forall i :: 0 <= i < |params| ==> AreSame(params[i], b.params[i])) &&
        (closure > 0) == (b.closure > 0) && gen == b.gen
      case _ => true
  }

  /** No generic where the comparison would look. */
  predicate GenericFree(t: Type) {
    match t
    case Generic(_) => false
    case Pointer(to, _, _, _) => GenericFree(to)
    case Array(of, _) => GenericFree(of)
    case Function(ret, params, _, _, _) => GenericFree(ret) && forall i :: 0 <= i < |params| ==> GenericFree(params[i])
    case _ => true
  }

  lemma {:induction false} SameReflexive(t: Type)
    ensures AreSame(t, t)
  {
    match t
    case Pointer(to, _, _, _) => SameReflexive(to);
    case Array(of, _) => SameReflexive(of);
    case Function(ret, params, _, _, _) =>
      SameReflexive(ret);
      forall i | 0 <= i < |params| ensures AreSame(params[i], params[i]) { SameReflexive(params[i]); }
    case _ =>
  }

  lemma {:induction false} SameSymmetric(a: Type, b: Type)
    ensures AreSame(a, b) == AreSame(b, a)
    decreases a
  {
    if SameTag(a, b) {
      match a
      case Pointer(to, _, _, _) => SameSymmetric(to, b.to);
      case Array(of, _) => SameSymmetric(of, b.of);
      case Function(ret, params, _, _, _) =>
        SameSymmetric(ret, b.ret);
        if |params| == |b.params| {
          forall i | 0 <= i < |params| ensures AreSame(params[i], b.params[i]) == AreSame(b.params[i], params[i]) {
            SameSymmetric(params[i], b.params[i]);
          }
        }
      case _ =>
    }
  }

  lemma {:induction false} SameTransitive(a: Type, b: Type, c: Type)
    requires AreSame(a, b) && AreSame(b, c) && GenericFree(b)
    ensures AreSame(a, c)
    decreases b
  {
    if SameTag(a, b) && SameTag(b, c) {
      match b
      case Pointer(to, _, _, _) => SameTransitive(a.to, to, c.to);
      case Array(of, _) => SameTransitive(a.of, of, c.of);
      case Function(ret, params, _, _, _) =>
        SameTransitive(a.ret, ret, c.ret);
        forall i | 0 <= i < |params| ensures AreSame(a.params[i], c.params[i]) {
          SameTransitive(a.params[i], params[i], c.params[i]);
        }
      case _ =>
    }
  }

  /** `t` with `u` in place of every generic the comparison would look at. */
  function Filled(t: Type, u: Type): Type {
    match t
    case Generic(_) => u
    case Pointer(to, counted, weak, closed) => Pointer(Filled(to, u), counted, weak, closed)
    case Array(of, ct) => Array(Filled(of, u), ct)
    case Function(ret, params, variadic, closure, gen) =>
      Function(Filled(ret, u), seq(|params|, i requires 0 <= i < |params| => Filled(params[i], u)), variadic, closure,
               gen)
    case _ => t
  }

  lemma {:induction false} FilledSame(t: Type, u: Type)
    requires !u.Generic?
    ensures AreSame(Filled(t, u), t)
  {
    match t
    case Pointer(to, _, _, _) => FilledSame(to, u);
    case Array(of, _) => FilledSame(of, u);
    case Function(ret, params, _, _, _) =>
      FilledSame(ret, u);
      forall i | 0 <= i < |params| ensures AreSame(Filled(params[i], u), params[i]) { FilledSame(params[i], u); }
    case _ =>
  }

  lemma {:induction false} FilledDiffer(t: Type)
    requires !GenericFree(t)
    ensures !AreSame(Filled(t, Basic(0)), Filled(t, Basic(1)))
  {
    match t
    case Generic(_) =>
    case Pointer(to, _, _, _) => FilledDiffer(to);
    case Array(of, _) => FilledDiffer(of);
    case Function(ret, params, _, _, _) =>
      if GenericFree(ret) {
        var i :| 0 <= i < |params| && !GenericFree(params[i]);
        FilledDiffer(params[i]);
        var x, y := Filled(t, Basic(0)), Filled(t, Basic(1));
        assert x.params[i] == Filled(params[i], Basic(0)) && y.params[i] == Filled(params[i], Basic(1));
      } else {
        FilledDiffer(ret);
      }
  }

  ghost predicate Mediates(t: Type) {
    forall a, c :: AreSame(a, t) && AreSame(t, c) ==> AreSame(a, c)
  }

  /** The comparison is transitive through exactly the types without generics. */
  lemma TransitiveExactly(t: Type)
    ensures Mediates(t) <==> GenericFree(t)
  {
    if GenericFree(t) {
      forall a, c | AreSame(a, t) && AreSame(t, c) ensures AreSame(a, c) { SameTransitive(a, t, c); }
    } else {
      var a, c := Filled(t, Basic(0)), Filled(t, Basic(1));
      FilledSame(t, Basic(0));
      FilledSame(t, Basic(1));
      SameSymmetric(t, c);
      FilledDiffer(t);
    }
  }

  // ---------------------------------------------------------------- what the comparison compares

  /** What is left of a type when all that the comparison passes over is dropped: a pointer is managed or not, a
      function is a closure or not, and interfaces and generators are alike. */
  datatype Form =
    | KindForm(kind: nat)
    | PointerForm(to: Form, managed: bool)
    | ArrayForm(of: Form, ct: int)
    | GeneratorForm
    | InterfaceForm
    | NamedForm(sort: NamedKind, name: string)
    | FunctionForm(ret: Form, params: seq<Form>, closure: bool, gen: nat)
    | GenericForm

  function Norm(t: Type): Form {
    match t
    case Basic(kind) => KindForm(kind)
    case Pointer(to, counted, weak, _) => PointerForm(Norm(to), counted || weak)
    case Array(of, ct) => ArrayForm(Norm(of), ct)
    case Generator(_) => GeneratorForm
    case Interface(_) => InterfaceForm
    case Named(sort, name) => NamedForm(sort, name)
    case Function(ret, params, _, closure, gen) =>
      FunctionForm(Norm(ret), seq(|params|, i requires 0 <= i < |params| => Norm(params[i])), closure > 0, gen)
    case Generic(_) => GenericForm
  }

  /** Types without generics are the same exactly if they have the same form. */
  lemma {:induction false} SameExactly(a: Type, b: Type)
    requires GenericFree(a) && GenericFree(b)
    ensures AreSame(a, b) <==> Norm(a) == Norm(b)
    decreases a
  {
    if SameTag(a, b) {
      match a
      case Pointer(to, _, _, _) => SameExactly(to, b.to);
      case Array(of, _) => SameExactly(of, b.of);
      case Function(ret, params, _, _, _) =>
        SameExactly(ret, b.ret);
        assert |Norm(a).params| == |params| && |Norm(b).params| == |b.params|;
        if |params| == |b.params| {
          forall i | 0 <= i < |params|
            ensures AreSame(params[i], b.params[i]) <==> Norm(params[i]) == Norm(b.params[i])
          {
            SameExactly(params[i], b.params[i]);
          }
          SameParams(params, b.params);
        }
      case _ =>
    }
  }

  lemma SameParams(ps: seq<Type>, qs: seq<Type>)
    requires |ps| == |qs| && forall i :: 0 <= i < |ps| ==> (AreSame(ps[i], qs[i]) <==> Norm(ps[i]) == Norm(qs[i]))
    ensures (forall i :: 0 <= i < |ps| ==> AreSame(ps[i], qs[i])) <==>
      seq(|ps|, i requires 0 <= i < |ps| => Norm(ps[i])) == seq(|qs|, i requires 0 <= i < |qs| => Norm(qs[i]))
  {
    var x, y := seq(|ps|, i requires 0 <= i < |ps| => Norm(ps[i])), seq(|qs|, i requires 0 <= i < |qs| => Norm(qs[i]));
    forall i | 0 <= i < |ps| ensures x[i] == Norm(ps[i]) && y[i] == Norm(qs[i]) {}
    if x == y {
      forall i | 0 <= i < |ps| ensures AreSame(ps[i], qs[i]) { assert x[i] == y[i]; }
    }
  }

  /** A type without generics that is the same as both. */
  function Common(a: Type, b: Type): Type
    decreases a
  {
    match a
    case Generic(_) => Filled(b, Basic(0))
    case Pointer(to, counted, weak, closed) =>
      if b.Pointer? then Pointer(Common(to, b.to), counted, weak, closed) else Filled(a, Basic(0))
    case Array(of, ct) => if b.Array? then Array(Common(of, b.of), ct) else Filled(a, Basic(0))
    case Function(ret, params, variadic, closure, gen) =>
      if b.Function? && |params| == |b.params| then
        Function(Common(ret, b.ret), seq(|params|, i requires 0 <= i < |params| => Common(params[i], b.params[i])),
                 variadic, closure, gen)
      else Filled(a, Basic(0))
    case _ => a
  }

  lemma {:induction false} FilledFree(t: Type)
    ensures GenericFree(Filled(t, Basic(0)))
  {
    match t
    case Pointer(to, _, _, _) => FilledFree(to);
    case Array(of, _) => FilledFree(of);
    case Function(ret, params, _, _, _) =>
      FilledFree(ret);
      forall i | 0 <= i < |params| ensures GenericFree(Filled(params[i], Basic(0))) { FilledFree(params[i]); }
    case _ =>
  }

  lemma {:induction false} CommonSame(a: Type, b: Type)
    requires AreSame(a, b)
    ensures GenericFree(Common(a, b)) && AreSame(a, Common(a, b)) && AreSame(b, Common(a, b))
    decreases a
  {
    if !SameTag(a, b) || a.Generic? {
      FilledFree(a);
      FilledFree(b);
      FilledSame(a, Basic(0));
      FilledSame(b, Basic(0));
      SameSymmetric(a, Filled(a, Basic(0)));
      SameSymmetric(b, Filled(b, Basic(0)));
    } else {
      match a
      case Pointer(to, _, _, _) => CommonSame(to, b.to);
      case Array(of, _) => CommonSame(of, b.of);
      case Function(ret, params, _, _, _) =>
        CommonSame(ret, b.ret);
        forall i | 0 <= i < |params|
          ensures GenericFree(Common(params[i], b.params[i])) && AreSame(params[i], Common(params[i], b.params[i])) &&
                  AreSame(b.params[i], Common(params[i], b.params[i]))
        {
          CommonSame(params[i], b.params[i]);
        }
      case _ =>
    }
  }

  /** Any two types are the same exactly if some type without generics is the same as both. */
  lemma CommonExactly(a: Type, b: Type)
    ensures AreSame(a, b) <==> exists c :: SameAsBoth(a, b, c)
  {
    if AreSame(a, b) {
      CommonSame(a, b);
      assert SameAsBoth(a, b, Common(a, b));
    } else if c :| SameAsBoth(a, b, c) {
      SameSymmetric(b, c);
      SameTransitive(a, c, b);
      assert false;
    }
  }

  predicate SameAsBoth(a: Type, b: Type, c: Type) {
    GenericFree(c) && AreSame(a, c) && AreSame(b, c)
  }
}
