/** Inferring the generics of a call by matching the declared types against the given ones. */
module GenericInference {
  import opened Wrappers
  import opened GenericTypes

  type Table = map<string, Type>
  type Use = (string, Type)

  // ---------------------------------------------------------------- what a call binds

  /** ett_qualifies_as_generic */
  predicate Qualifies(t: Type) {
    match t
    case Generic(_) => true
    case Pointer(to, _, _, _) => Qualifies(to)
    case Function(ret, params, _, _, _) => (exists i :: 0 <= i < |params| && Qualifies(params[i])) || Qualifies(ret)
    case _ => false
  }

  /** The generics that matching can reach. */
  ghost predicate Mentions(t: Type, ident: string) {
    match t
    case Generic(id) => id == ident
    case Pointer(to, _, _, _) => Mentions(to, ident)
    case Function(ret, params, _, _, _) =>
      Mentions(ret, ident) || exists i :: 0 <= i < |params| && Mentions(params[i], ident)
    case _ => false
  }

  ghost predicate Covers(table: Table, t: Type) {
    forall ident :: Mentions(t, ident) ==> ident in table
  }

  /** Whether the given type has the shape of the declared one, generics aside. */
  predicate Fits(ref: Type, given: Type)
    decreases ref
  {
    match ref
    case Generic(_) => true
    case Pointer(to, counted, _, _) => given.Pointer? && counted == given.counted && Fits(to, given.to)
    case Function(ret, params, variadic, _, gen) =>
      given.Function? && FitsHead(ref, given) &&
      (forall i :: 0 <= i < |params| ==> Fits(params[i], given.params[i])) && Fits(ret, given.ret)
    case _ => SameTag(ref, given)
  }

  predicate FitsHead(ref: Type, given: Type)
    requires ref.Function? && given.Function?
  {
    |ref.params| == |given.params| && ref.gen == given.gen && ref.variadic == given.variadic
  }

  /** What matching sees of a type: nothing where the declared type has a generic, of pointers whether they are counted,
      of function types their numbers of parameters and two flags, and of all else the kind. */
  datatype Sight =
    | Anything
    | OfKind(kind: nat)
    | OfSort(sort: NamedKind)
    | ArraySight
    | GeneratorSight
    | InterfaceSight
    | GenericSight
    | PointerSight(to: Sight, counted: bool)
    | FunctionSight(ret: Sight, params: seq<Sight>, variadic: bool, gen: nat)

  /** What is seen of `t` where `ref` is declared. */
  function Seen(ref: Type, t: Type): Sight
    decreases t
  {
    if ref.Generic? then Anything
    else match t
      case Basic(kind) => OfKind(kind)
      case Named(sort, _) => OfSort(sort)
      case Array(_, _) => ArraySight
      case Generator(_) => GeneratorSight
      case Interface(_) => InterfaceSight
      case Generic(_) => GenericSight
      case Pointer(to, counted, _, _) => PointerSight(if ref.Pointer? then Seen(ref.to, to) else Anything, counted)
      case Function(ret, params, variadic, _, gen) =>
        var under := ref.Function? && |ref.params| == |params|;
        FunctionSight(if under then Seen(ref.ret, ret) else Anything,
                      seq(|params|, i requires 0 <= i < |params| =>
                        if under then Seen(ref.params[i], params[i]) else Anything), variadic, gen)
  }

  /** A given type fits a declared one exactly if it looks like it, where the declared one has no generic. */
  lemma {:induction false} FitsExactly(ref: Type, given: Type)
    ensures Fits(ref, given) <==> Seen(ref, given) == Seen(ref, ref)
    decreases ref
  {
    match ref
    case Pointer(to, _, _, _) =>
      if given.Pointer? {
        FitsExactly(to, given.to);
      }
    case Function(ret, params, _, _, _) =>
      if given.Function? && |given.params| == |params| {
        FitsExactly(ret, given.ret);
        forall i | 0 <= i < |params|
          ensures Fits(params[i], given.params[i]) <==> Seen(params[i], given.params[i]) == Seen(params[i], params[i])
        {
          FitsExactly(params[i], given.params[i]);
        }
        SeenParams(ref, given);
      } else if given.Function? {
        assert |Seen(ref, given).params| == |given.params| && |Seen(ref, ref).params| == |params|;
      }
    case _ =>
  }

  lemma SeenParams(ref: Type, given: Type)
    requires ref.Function? && given.Function? && |given.params| == |ref.params|
    ensures Seen(ref, given).params == Seen(ref, ref).params <==>
      forall i :: 0 <= i < |ref.params| ==> Seen(ref.params[i], given.params[i]) == Seen(ref.params[i], ref.params[i])
  {
    var a, b := Seen(ref, given).params, Seen(ref, ref).params;
    assert forall i :: 0 <= i < |ref.params| ==>
      a[i] == Seen(ref.params[i], given.params[i]) && b[i] == Seen(ref.params[i], ref.params[i]);
  }

  /** Each generic of `ref`, with the type given in its place, from left to right. */
  function Uses(ref: Type, given: Type): seq<Use>
    decreases ref, 0
  {
    match ref
    case Generic(id) => [(id, given)]
    case Pointer(to, _, _, _) => if given.Pointer? then Uses(to, given.to) else []
    case Function(ret, params, _, _, _) =>
      if given.Function? && |params| == |given.params| then
        UsesUpTo(ref, given, |params|) + Uses(ret, given.ret)
      else []
    case _ => []
  }

  /** The uses in the first `n` parameters. */
  function UsesUpTo(ref: Type, given: Type, n: nat): seq<Use>
    requires ref.Function? && given.Function? && n <= |ref.params| == |given.params|
    decreases ref, 0, n
  {
    if n == 0 then [] else UsesUpTo(ref, given, n - 1) + Uses(ref.params[n - 1], given.params[n - 1])
  }

  /** Each use is compared with the one before it for the same generic. */
  predicate Agree(table: Table, uses: seq<Use>)
    decreases |uses|
  {
    uses == [] ||
    (var (id, t) := uses[0];
     (id in table ==> AreSame(table[id], t)) && Agree(table[id := t], uses[1..]))
  }

  /** The table after the uses: the last use of a generic stays. */
  function Bound(table: Table, uses: seq<Use>): Table
    decreases |uses|
  {
    if uses == [] then table else Bound(table[uses[0].0 := uses[0].1], uses[1..])
  }

  lemma {:induction false} AgreeAppend(table: Table, a: seq<Use>, b: seq<Use>)
    ensures Agree(table, a + b) <==> Agree(table, a) && Agree(Bound(table, a), b)
    ensures Bound(table, a + b) == Bound(Bound(table, a), b)
    decreases |a|
  {
    if a == [] {
      assert a + b == b;
    } else {
      assert (a + b)[1..] == a[1..] + b;
      AgreeAppend(table[a[0].0 := a[0].1], a[1..], b);
    }
  }

  ghost predicate Succeeds(ref: Type, given: Option<Type>, table: Table) {
    match given
    case None => Covers(table, ref)
    case Some(g) => Fits(ref, g) && Agree(table, Uses(ref, g))
  }

  function After(ref: Type, given: Option<Type>, table: Table): Table {
    match given
    case None => table
    case Some(g) => Bound(table, Uses(ref, g))
  }

  // ---------------------------------------------------------------- what is copied

  /** Whether ac_copy_and_find_types writes through its out-parameter. */
  predicate Written(ref: Type) { ref.Generic? || ref.Pointer? || ref.Function? }

  /**
   * What is known of a copy. A parameter of a function type that is none of the three kinds above is never written,
   * and the copied parameter array starts out uninitialised, so nothing is known of that entry.
   */
  ghost predicate CopyOf(ref: Type, given: Option<Type>, table: Table, out: Type)
    decreases ref
  {
    match ref
    case Generic(id) => if given.Some? then out == given.value else id in table && out == table[id]
    case Pointer(to, _, _, _) =>
      out.Pointer? && out == ref.(to := out.to) && CopyOf(to, Pointee(given), table, out.to)
    case Function(ret, params, _, _, _) =>
      out.Function? && out == ref.(ret := out.ret, params := out.params) && |out.params| == |params| &&
      (forall i :: 0 <= i < |params| && Written(params[i]) ==>
        CopyOf(params[i], Param(given, i), table, out.params[i])) &&
      CopyOf(ret, Returned(given), table, out.ret)
    case _ => out == ref
  }

  function Pointee(given: Option<Type>): Option<Type> {
    if given.Some? && given.value.Pointer? then Some(given.value.to) else None
  }

  function Param(given: Option<Type>, i: nat): Option<Type> {
    if given.Some? && given.value.Function? && i < |given.value.params| then Some(given.value.params[i]) else None
  }

  function Returned(given: Option<Type>): Option<Type> {
    if given.Some? && given.value.Function? then Some(given.value.ret) else None
  }

  /** With a type given, a copy takes its parts from that type alone. */
  lemma {:induction false} CopyOfGrows(ref: Type, given: Option<Type>, a: Table, b: Table, out: Type)
    requires CopyOf(ref, given, a, out)
    requires (given.Some? && Fits(ref, given.value)) || a == b
    ensures CopyOf(ref, given, b, out)
    decreases ref
  {
    if a != b {
      match ref
      case Pointer(to, _, _, _) => CopyOfGrows(to, Pointee(given), a, b, out.to);
      case Function(ret, params, _, _, _) =>
        forall i | 0 <= i < |params| && Written(params[i])
          ensures CopyOf(params[i], Param(given, i), b, out.params[i])
        {
          CopyOfGrows(params[i], Param(given, i), a, b, out.params[i]);
        }
        CopyOfGrows(ret, Returned(given), a, b, out.ret);
      case _ =>
    }
  }

  // ---------------------------------------------------------------- one parameter at a time

  /** The first `n` parameters have been matched, and `now` is the table after them. */
  ghost predicate MatchedUpTo(ref: Type, given: Option<Type>, table: Table, n: nat, now: Table)
    requires ref.Function? && n <= |ref.params|
    requires given.Some? ==> given.value.Function? && |given.value.params| == |ref.params|
  {
    match given
    case None => now == table && forall k :: 0 <= k < n ==> Covers(table, ref.params[k])
    case Some(g) =>
      (forall k :: 0 <= k < n ==> Fits(ref.params[k], g.params[k])) &&
      Agree(table, UsesUpTo(ref, g, n)) && now == Bound(table, UsesUpTo(ref, g, n))
  }

  lemma MatchedNext(ref: Type, given: Option<Type>, table: Table, n: nat, now: Table)
    requires ref.Function? && n < |ref.params|
    requires given.Some? ==> given.value.Function? && |given.value.params| == |ref.params|
    requires MatchedUpTo(ref, given, table, n, now)
    ensures Succeeds(ref.params[n], Param(given, n), now) <==>
              MatchedUpTo(ref, given, table, n + 1, After(ref.params[n], Param(given, n), now))
    ensures !Succeeds(ref.params[n], Param(given, n), now) ==> !Succeeds(ref, given, table)
  {
    if given.Some? {
      var g := given.value;
      AgreeAppend(table, UsesUpTo(ref, g, n), Uses(ref.params[n], g.params[n]));
      if Succeeds(ref, given, table) {
        AgreeAppend(table, UsesUpTo(ref, g, |ref.params|), Uses(ref.ret, g.ret));
        AgreeUpTo(ref, g, table, n + 1, |ref.params|);
      }
    } else {
      CoversFunction(table, ref);
    }
  }

  lemma {:induction false} AgreeUpTo(ref: Type, given: Type, table: Table, n: nat, m: nat)
    requires ref.Function? && given.Function? && n <= m <= |ref.params| == |given.params|
    requires Agree(table, UsesUpTo(ref, given, m))
    ensures Agree(table, UsesUpTo(ref, given, n))
    decreases m
  {
    if n < m {
      AgreeAppend(table, UsesUpTo(ref, given, m - 1), Uses(ref.params[m - 1], given.params[m - 1]));
      AgreeUpTo(ref, given, table, n, m - 1);
    }
  }

  lemma MatchedAll(ref: Type, given: Option<Type>, table: Table, now: Table)
    requires ref.Function?
    requires given.Some? ==> given.value.Function? && FitsHead(ref, given.value)
    requires MatchedUpTo(ref, given, table, |ref.params|, now)
    ensures Succeeds(ref.ret, Returned(given), now) <==> Succeeds(ref, given, table)
    ensures After(ref.ret, Returned(given), now) == After(ref, given, table)
  {
    if given.Some? {
      AgreeAppend(table, UsesUpTo(ref, given.value, |ref.params|), Uses(ref.ret, given.value.ret));
    } else {
      CoversFunction(table, ref);
    }
  }

  lemma CoversFunction(table: Table, ref: Type)
    requires ref.Function?
    ensures Covers(table, ref) <==>
              Covers(table, ref.ret) && forall i :: 0 <= i < |ref.params| ==> Covers(table, ref.params[i])
  {
  }

  lemma CoversOther(table: Table, ref: Type)
    ensures ref.Pointer? ==> (Covers(table, ref) <==> Covers(table, ref.to))
    ensures ref.Generic? ==> (Covers(table, ref) <==> ref.ident in table)
    ensures !Written(ref) ==> Covers(table, ref)
  {
  }

  // ---------------------------------------------------------------- the compiler's matching

  class Inference {
    var scanned: Table

    constructor ()
      ensures scanned == map[]
    {
      scanned := map[];
    }

    /** ac_handle_generic; false is the fatal error. */
    method HandleGeneric(ref: Type, given: Option<Type>) returns (ok: bool)
      requires ref.Generic?
      modifies this
      ensures given.None? ==> ok && scanned == old(scanned)
      ensures given.Some? ==> ok == Agree(old(scanned), Uses(ref, given.value))
      ensures given.Some? && ok ==> scanned == Bound(old(scanned), Uses(ref, given.value))
    {
      if given.None? {
        return true;
      }
      assert Uses(ref, given.value)[1..] == [];
      if ref.ident in scanned && !AreSame(scanned[ref.ident], given.value) {
        return false;
      }
      scanned := scanned[ref.ident := given.value];
      return true;
    }

    /** ac_handle_pointer */
    method HandlePointer(ref: Type, given: Option<Type>) returns (out: Option<Type>)
      requires ref.Pointer? && (given.Some? ==> given.value.Pointer?)
      modifies this
      ensures out.Some? <==> Succeeds(ref, given, old(scanned))
      ensures out.Some? ==> scanned == After(ref, given, old(scanned)) && CopyOf(ref, given, scanned, out.value)
      decreases ref, 0
    {
      if given.Some? && ref.counted != given.value.counted {
        return None;
      }
      CoversOther(scanned, ref);
      var to := CopyAndFind(ref.to, if given.Some? then Some(given.value.to) else None, ref.to);
      if to.None? {
        return None;
      }
      out := Some(ref.(to := to.value));
    }

    /** ac_handle_function. The array of copied parameters comes from malloc. */
    method HandleFunction(ref: Type, given: Option<Type>) returns (out: Option<Type>)
      requires ref.Function? && (given.Some? ==> given.value.Function?)
      modifies this
      ensures out.Some? <==> Succeeds(ref, given, old(scanned))
      ensures out.Some? ==> scanned == After(ref, given, old(scanned)) && CopyOf(ref, given, scanned, out.value)
      decreases ref, 0
    {
      if given.Some? && !FitsHead(ref, given.value) {
        return None;
      }
      var params := new Type[|ref.params|];
      var ok := HandleParams(ref, given, params);
      if !ok {
        return None;
      }
      MatchedAll(ref, given, old(scanned), scanned);
      ghost var before := scanned;
      var ret := CopyAndFind(ref.ret, if given.Some? then Some(given.value.ret) else None, ref.ret);
      if ret.None? {
        return None;
      }
      ParamsGrow(ref, given, before, scanned, params[..]);
      out := Some(ref.(ret := ret.value, params := params[..]));
    }

    method HandleParams(ref: Type, given: Option<Type>, params: array<Type>) returns (ok: bool)
      requires ref.Function? && (given.Some? ==> given.value.Function? && FitsHead(ref, given.value))
      requires params.Length == |ref.params|
      modifies this, params
      ensures ok ==> MatchedUpTo(ref, given, old(scanned), |ref.params|, scanned)
      ensures ok ==> ParamsCopied(ref, given, scanned, params[..], |ref.params|)
      ensures !ok ==> !Succeeds(ref, given, old(scanned))
      decreases ref, 0, 0
    {
      var i := 0;
      while i < |ref.params|
        invariant 0 <= i <= |ref.params|
        invariant MatchedUpTo(ref, given, old(scanned), i, scanned)
        invariant ParamsCopied(ref, given, scanned, params[..], i)
      {
        ghost var before, sofar := scanned, params[..];
        var p := CopyAndFind(ref.params[i], if given.Some? then Some(given.value.params[i]) else None, params[i]);
        MatchedNext(ref, given, old(scanned), i, before);
        if p.None? {
          return false;
        }
        params[i] := p.value;
        ParamsNext(ref, given, before, scanned, sofar, params[..], i);
        i := i + 1;
      }
      ok := true;
    }

    /** ac_copy_and_find_types. `copied` is what the out-parameter points to on entry; None is the fatal error. */
    method CopyAndFind(ref: Type, given: Option<Type>, copied: Type) returns (out: Option<Type>)
      modifies this
      ensures out.Some? <==> Succeeds(ref, given, old(scanned))
      ensures out.Some? ==> scanned == After(ref, given, old(scanned))
      ensures out.Some? && Written(ref) ==> CopyOf(ref, given, scanned, out.value)
      ensures out.Some? && !Written(ref) ==> out.value == copied
      decreases ref, 1
    {
      CoversOther(scanned, ref);
      if given.Some? && !ref.Generic? && !SameTag(ref, given.value) {
        return None;
      }
      match ref
      case Generic(id) =>
        var ok := HandleGeneric(ref, given);
        if !ok {
          return None;
        }
        out := if given.Some? then given else if id in scanned then Some(scanned[id]) else None;
      case Pointer(_, _, _, _) =>
        out := HandlePointer(ref, given);
      case Function(_, _, _, _, _) =>
        out := HandleFunction(ref, given);
      case _ =>
        out := Some(copied);
    }
  }

  // ---------------------------------------------------------------- copied parameters

  ghost predicate ParamsCopied(ref: Type, given: Option<Type>, table: Table, params: seq<Type>, n: nat)
    requires ref.Function? && n <= |ref.params| == |params|
  {
    forall k :: 0 <= k < n && Written(ref.params[k]) ==> CopyOf(ref.params[k], Param(given, k), table, params[k])
  }

  lemma ParamsNext(ref: Type, given: Option<Type>, before: Table, table: Table, params: seq<Type>, next: seq<Type>,
                   n: nat)
    requires ref.Function? && n < |ref.params| == |params| == |next|
    requires given.Some? ==> given.value.Function? && FitsHead(ref, given.value)
    requires given.Some? ==> forall k :: 0 <= k < n ==> Fits(ref.params[k], given.value.params[k])
    requires given.None? ==> before == table
    requires ParamsCopied(ref, given, before, params, n) && next == params[n := next[n]]
    requires Written(ref.params[n]) ==> CopyOf(ref.params[n], Param(given, n), table, next[n])
    ensures ParamsCopied(ref, given, table, next, n + 1)
  {
    forall k | 0 <= k < n && Written(ref.params[k]) ensures CopyOf(ref.params[k], Param(given, k), table, next[k]) {
      CopyOfGrows(ref.params[k], Param(given, k), before, table, params[k]);
    }
  }

  lemma ParamsGrow(ref: Type, given: Option<Type>, before: Table, table: Table, params: seq<Type>)
    requires ref.Function? && |ref.params| == |params|
    requires given.Some? ==> given.value.Function? && FitsHead(ref, given.value)
    requires given.Some? ==> forall k :: 0 <= k < |params| ==> Fits(ref.params[k], given.value.params[k])
    requires given.None? ==> before == table
    requires ParamsCopied(ref, given, before, params, |params|)
    ensures ParamsCopied(ref, given, table, params, |params|)
  {
    forall k | 0 <= k < |params| && Written(ref.params[k])
      ensures CopyOf(ref.params[k], Param(given, k), table, params[k])
    {
      CopyOfGrows(ref.params[k], Param(given, k), before, table, params[k]);
    }
  }
}
