/** Type nodes in memory: why a registered template survives the overwriting of the generics it was written with. */
module GenericArena {
  import opened Wrappers
  import opened GenericTypes
  import opened GenericInference

  /** A type node; its parts are addresses of other nodes. */
  datatype Node =
    | BasicNode(kind: nat)
    | PointerNode(to: nat, counted: bool, weak: bool, closed: bool)
    | ArrayNode(of: nat, ct: int)
    | GeneratorNode(item: nat)
    | InterfaceNode(names: seq<string>)
    | NamedNode(sort: NamedKind, name: string)
    | FunctionNode(ret: nat, params: seq<nat>, variadic: bool, closure: nat, gen: nat)
    | GenericNode(ident: string)

  /** The node at `id` describes `t`, and none of the nodes that say so is in `taboo`. */
  ghost predicate Denotes(nodes: seq<Node>, id: nat, t: Type, taboo: set<nat>)
    decreases t
  {
    id < |nodes| && id !in taboo &&
    match t
    case Basic(kind) => nodes[id] == BasicNode(kind)
    case Interface(names) => nodes[id] == InterfaceNode(names)
    case Named(sort, name) => nodes[id] == NamedNode(sort, name)
    case Generic(ident) => nodes[id] == GenericNode(ident)
    case Pointer(to, _, _, _) => PointerHead(nodes[id], t) && Denotes(nodes, nodes[id].to, to, taboo)
    case Array(of, ct) => nodes[id].ArrayNode? && nodes[id].ct == ct && Denotes(nodes, nodes[id].of, of, taboo)
    case Generator(item) => nodes[id].GeneratorNode? && Denotes(nodes, nodes[id].item, item, taboo)
    case Function(ret, params, _, _, _) =>
      FunctionHead(nodes[id], t) && Denotes(nodes, nodes[id].ret, ret, taboo) &&
      forall i :: 0 <= i < |params| ==> Denotes(nodes, nodes[id].params[i], params[i], taboo)
  }

  predicate PointerHead(n: Node, t: Type)
    requires t.Pointer?
  {
    n.PointerNode? && n.counted == t.counted && n.weak == t.weak && n.closed == t.closed
  }

  predicate FunctionHead(n: Node, t: Type)
    requires t.Function?
  {
    n.FunctionNode? && |n.params| == |t.params| && n.variadic == t.variadic && n.closure == t.closure && n.gen == t.gen
  }

  /** Memory grew, and of what was there only nodes in `taboo` may have changed. */
  ghost predicate Keeps(nodes: seq<Node>, later: seq<Node>, taboo: set<nat>) {
    |nodes| <= |later| && forall k :: 0 <= k < |nodes| && k !in taboo ==> later[k] == nodes[k]
  }

  lemma {:induction false} DenotesKept(nodes: seq<Node>, later: seq<Node>, id: nat, t: Type, taboo: set<nat>,
                                       next: set<nat>)
    requires Denotes(nodes, id, t, taboo) && Keeps(nodes, later, taboo)
    requires forall k :: k in next && k < |nodes| ==> k in taboo
    ensures Denotes(later, id, t, next)
    decreases t
  {
    match t
    case Pointer(to, _, _, _) => DenotesKept(nodes, later, nodes[id].to, to, taboo, next);
    case Array(of, _) => DenotesKept(nodes, later, nodes[id].of, of, taboo, next);
    case Generator(item) => DenotesKept(nodes, later, nodes[id].item, item, taboo, next);
    case Function(ret, params, _, _, _) =>
      DenotesKept(nodes, later, nodes[id].ret, ret, taboo, next);
      forall i | 0 <= i < |params| ensures Denotes(later, nodes[id].params[i], params[i], next) {
        DenotesKept(nodes, later, nodes[id].params[i], params[i], taboo, next);
      }
    case _ =>
  }

  // ---------------------------------------------------------------- copies

  /**
   * `id` is a copy of `t` made of nodes from `from` on, down to the parts of arrays and generators, which are shared
   * with the memory below `lo`. The name in a copied enum node is not copied.
   */
  ghost predicate Owned(nodes: seq<Node>, lo: nat, from: nat, id: nat, t: Type)
    requires lo <= |nodes|
    decreases t
  {
    from <= id < |nodes| &&
    match t
    case Basic(kind) => nodes[id] == BasicNode(kind)
    case Interface(names) => nodes[id] == InterfaceNode(names)
    case Named(sort, name) =>
      nodes[id].NamedNode? && nodes[id].sort == sort && (sort != EnumKind ==> nodes[id].name == name)
    case Generic(ident) => nodes[id] == GenericNode(ident)
    case Pointer(to, _, _, _) => PointerHead(nodes[id], t) && Owned(nodes, lo, from, nodes[id].to, to)
    case Array(of, ct) => nodes[id].ArrayNode? && nodes[id].ct == ct && Denotes(nodes[..lo], nodes[id].of, of, {})
    case Generator(item) => nodes[id].GeneratorNode? && Denotes(nodes[..lo], nodes[id].item, item, {})
    case Function(ret, params, _, _, _) =>
      FunctionHead(nodes[id], t) && Owned(nodes, lo, from, nodes[id].ret, ret) &&
      forall i :: 0 <= i < |params| ==> Owned(nodes, lo, from, nodes[id].params[i], params[i])
  }

  lemma {:induction false} OwnedKept(nodes: seq<Node>, later: seq<Node>, lo: nat, from: nat, down: nat, id: nat,
                                     t: Type)
    requires lo <= |nodes| <= |later| && down <= from && nodes[..lo] == later[..lo]
    requires forall k :: from <= k < |nodes| ==> later[k] == nodes[k]
    requires Owned(nodes, lo, from, id, t)
    ensures Owned(later, lo, down, id, t)
    decreases t
  {
    match t
    case Pointer(to, _, _, _) => OwnedKept(nodes, later, lo, from, down, nodes[id].to, to);
    case Function(ret, params, _, _, _) =>
      OwnedKept(nodes, later, lo, from, down, nodes[id].ret, ret);
      forall i | 0 <= i < |params| ensures Owned(later, lo, down, nodes[id].params[i], params[i]) {
        OwnedKept(nodes, later, lo, from, down, nodes[id].params[i], params[i]);
      }
    case _ =>
  }

  /** No enum where a deep copy copies. */
  predicate EnumFree(t: Type) {
    match t
    case Named(sort, _) => sort != EnumKind
    case Pointer(to, _, _, _) => EnumFree(to)
    case Function(ret, params, _, _, _) => EnumFree(ret) && forall i :: 0 <= i < |params| ==> EnumFree(params[i])
    case _ => true
  }

  /** No generic at all. */
  predicate NoGeneric(t: Type) {
    match t
    case Generic(_) => false
    case Pointer(to, _, _, _) => NoGeneric(to)
    case Array(of, _) => NoGeneric(of)
    case Generator(item) => NoGeneric(item)
    case Function(ret, params, _, _, _) => NoGeneric(ret) && forall i :: 0 <= i < |params| ==> NoGeneric(params[i])
    case _ => true
  }

  /** No generic inside an array or a generator, where neither copying nor matching looks. */
  predicate NoneHidden(t: Type) {
    match t
    case Pointer(to, _, _, _) => NoneHidden(to)
    case Array(of, _) => NoGeneric(of)
    case Generator(item) => NoGeneric(item)
    case Function(ret, params, _, _, _) => NoneHidden(ret) && forall i :: 0 <= i < |params| ==> NoneHidden(params[i])
    case _ => true
  }

  /** A parameter or return type that registering can cut off from the interned generics; an enum is in the way only
      where there is something to copy. */
  predicate Separable(s: Type) {
    NoneHidden(s) && (Qualifies(s) ==> EnumFree(s))
  }

  predicate SeparableParts(t: Type)
    requires t.Function?
  {
    Separable(t.ret) && forall i :: 0 <= i < |t.params| ==> Separable(t.params[i])
  }

  lemma {:induction false} UnqualifiedPlain(t: Type)
    requires !Qualifies(t) && NoneHidden(t)
    ensures NoGeneric(t)
  {
    match t
    case Pointer(to, _, _, _) => UnqualifiedPlain(to);
    case Function(ret, params, _, _, _) =>
      UnqualifiedPlain(ret);
      forall i | 0 <= i < |params| ensures NoGeneric(params[i]) { UnqualifiedPlain(params[i]); }
    case _ =>
  }

  /** The interned nodes still are the generics they were made for. */
  ghost predicate Pristine(nodes: seq<Node>, interned: set<nat>) {
    forall k :: k in interned ==> k < |nodes| && nodes[k].GenericNode?
  }

  lemma {:induction false} PlainOutside(nodes: seq<Node>, id: nat, t: Type, interned: set<nat>)
    requires Denotes(nodes, id, t, {}) && NoGeneric(t) && Pristine(nodes, interned)
    ensures Denotes(nodes, id, t, interned)
    decreases t
  {
    match t
    case Pointer(to, _, _, _) => PlainOutside(nodes, nodes[id].to, to, interned);
    case Array(of, _) => PlainOutside(nodes, nodes[id].of, of, interned);
    case Generator(item) => PlainOutside(nodes, nodes[id].item, item, interned);
    case Function(ret, params, _, _, _) =>
      PlainOutside(nodes, nodes[id].ret, ret, interned);
      forall i | 0 <= i < |params| ensures Denotes(nodes, nodes[id].params[i], params[i], interned) {
        PlainOutside(nodes, nodes[id].params[i], params[i], interned);
      }
    case _ =>
  }

  /** A copy denotes what it was copied from, without any interned node. */
  lemma {:induction false} OwnedOutside(nodes: seq<Node>, lo: nat, id: nat, t: Type, interned: set<nat>)
    requires lo <= |nodes| && Owned(nodes, lo, lo, id, t) && EnumFree(t) && NoneHidden(t)
    requires Pristine(nodes[..lo], interned)
    ensures Denotes(nodes, id, t, interned)
    decreases t
  {
    match t
    case Pointer(to, _, _, _) => OwnedOutside(nodes, lo, nodes[id].to, to, interned);
    case Array(of, _) =>
      PlainOutside(nodes[..lo], nodes[id].of, of, interned);
      DenotesKept(nodes[..lo], nodes, nodes[id].of, of, interned, interned);
    case Generator(item) =>
      PlainOutside(nodes[..lo], nodes[id].item, item, interned);
      DenotesKept(nodes[..lo], nodes, nodes[id].item, item, interned, interned);
    case Function(ret, params, _, _, _) =>
      OwnedOutside(nodes, lo, nodes[id].ret, ret, interned);
      forall i | 0 <= i < |params| ensures Denotes(nodes, nodes[id].params[i], params[i], interned) {
        OwnedOutside(nodes, lo, nodes[id].params[i], params[i], interned);
      }
    case _ =>
  }

  /** Every generic in memory is the interned one, as before anything was copied. */
  ghost predicate AllInterned(nodes: seq<Node>, interned: set<nat>) {
    Pristine(nodes, interned) && forall k :: 0 <= k < |nodes| && nodes[k].GenericNode? ==> k in interned
  }

  lemma {:induction false} OutsidePlain(nodes: seq<Node>, id: nat, t: Type, interned: set<nat>)
    requires Denotes(nodes, id, t, interned) && AllInterned(nodes, interned)
    ensures NoGeneric(t)
    decreases t
  {
    match t
    case Pointer(to, _, _, _) => OutsidePlain(nodes, nodes[id].to, to, interned);
    case Array(of, _) => OutsidePlain(nodes, nodes[id].of, of, interned);
    case Generator(item) => OutsidePlain(nodes, nodes[id].item, item, interned);
    case Function(ret, params, _, _, _) =>
      OutsidePlain(nodes, nodes[id].ret, ret, interned);
      forall i | 0 <= i < |params| ensures NoGeneric(params[i]) {
        OutsidePlain(nodes, nodes[id].params[i], params[i], interned);
      }
    case _ =>
  }

  lemma {:induction false} SharedInside(nodes: seq<Node>, lo: nat, id: nat, t: Type, interned: set<nat>)
    requires lo <= |nodes| && Denotes(nodes[..lo], id, t, {}) && Denotes(nodes, id, t, interned)
    ensures Denotes(nodes[..lo], id, t, interned)
    decreases t
  {
    match t
    case Pointer(to, _, _, _) => SharedInside(nodes, lo, nodes[id].to, to, interned);
    case Array(of, _) => SharedInside(nodes, lo, nodes[id].of, of, interned);
    case Generator(item) => SharedInside(nodes, lo, nodes[id].item, item, interned);
    case Function(ret, params, _, _, _) =>
      SharedInside(nodes, lo, nodes[id].ret, ret, interned);
      forall i | 0 <= i < |params| ensures Denotes(nodes[..lo], nodes[id].params[i], params[i], interned) {
        SharedInside(nodes, lo, nodes[id].params[i], params[i], interned);
      }
    case _ =>
  }

  /** A copy still involves an interned node if a generic hides in an array or a generator. */
  lemma {:induction false} OutsideNoneHidden(nodes: seq<Node>, lo: nat, id: nat, t: Type, interned: set<nat>)
    requires lo <= |nodes| && Owned(nodes, lo, lo, id, t) && AllInterned(nodes[..lo], interned)
    requires Denotes(nodes, id, t, interned)
    ensures NoneHidden(t)
    decreases t
  {
    match t
    case Pointer(to, _, _, _) => OutsideNoneHidden(nodes, lo, nodes[id].to, to, interned);
    case Array(of, _) =>
      SharedInside(nodes, lo, nodes[id].of, of, interned);
      OutsidePlain(nodes[..lo], nodes[id].of, of, interned);
    case Generator(item) =>
      SharedInside(nodes, lo, nodes[id].item, item, interned);
      OutsidePlain(nodes[..lo], nodes[id].item, item, interned);
    case Function(ret, params, _, _, _) =>
      OutsideNoneHidden(nodes, lo, nodes[id].ret, ret, interned);
      forall i | 0 <= i < |params| ensures NoneHidden(params[i]) {
        OutsideNoneHidden(nodes, lo, nodes[id].params[i], params[i], interned);
      }
    case _ =>
  }

  /** A deep copy is cut off from the interned generics exactly if none hides in an array or a generator. */
  lemma CopyIsolatedExactly(nodes: seq<Node>, lo: nat, id: nat, t: Type, interned: set<nat>)
    requires lo <= |nodes| && Owned(nodes, lo, lo, id, t) && EnumFree(t) && AllInterned(nodes[..lo], interned)
    ensures Denotes(nodes, id, t, interned) <==> NoneHidden(t)
  {
    if NoneHidden(t) {
      OwnedOutside(nodes, lo, id, t, interned);
    } else if Denotes(nodes, id, t, interned) {
      OutsideNoneHidden(nodes, lo, id, t, interned);
    }
  }

  lemma {:induction false} SurvivorOutside(nodes: seq<Node>, g: nat, with: Node, id: nat, t: Type)
    requires g < |nodes| && nodes[g].GenericNode? && !with.GenericNode?
    requires Denotes(nodes, id, t, {}) && Denotes(nodes[g := with], id, t, {})
    ensures Denotes(nodes, id, t, {g})
    decreases t
  {
    match t
    case Pointer(to, _, _, _) => SurvivorOutside(nodes, g, with, nodes[id].to, to);
    case Array(of, _) => SurvivorOutside(nodes, g, with, nodes[id].of, of);
    case Generator(item) => SurvivorOutside(nodes, g, with, nodes[id].item, item);
    case Function(ret, params, _, _, _) =>
      SurvivorOutside(nodes, g, with, nodes[id].ret, ret);
      forall i | 0 <= i < |params| ensures Denotes(nodes, nodes[id].params[i], params[i], {g}) {
        SurvivorOutside(nodes, g, with, nodes[id].params[i], params[i]);
      }
    case _ =>
  }

  /** Replacing a generic by a concrete type leaves exactly those types as they were that do not involve its node. */
  lemma SurvivesExactly(nodes: seq<Node>, g: nat, with: Node, id: nat, t: Type)
    requires g < |nodes| && nodes[g].GenericNode? && !with.GenericNode? && Denotes(nodes, id, t, {})
    ensures Denotes(nodes[g := with], id, t, {}) <==> Denotes(nodes, id, t, {g})
  {
    if Denotes(nodes, id, t, {g}) {
      DenotesKept(nodes, nodes[g := with], id, t, {g}, {});
    } else if Denotes(nodes[g := with], id, t, {}) {
      SurvivorOutside(nodes, g, with, id, t);
    }
  }

  // ---------------------------------------------------------------- the tables of types.c

  class TypeMemory {
    var nodes: seq<Node>
    var generics: map<string, nat>

    constructor ()
      ensures nodes == [] && generics == map[]
    {
      nodes, generics := [], map[];
    }

    /** The interned generic nodes. */
    ghost function Interned(): set<nat>
      reads this
    {
      generics.Values
    }

    ghost predicate Valid()
      reads this
    {
      forall id :: id in generics ==> generics[id] < |nodes|
    }

    method Allocate(n: Node) returns (id: nat)
      modifies this`nodes
      ensures id == |old(nodes)| && nodes == old(nodes) + [n]
    {
      id := |nodes|;
      nodes := nodes + [n];
    }

    /** ett_generic_type */
    method GenericType(ident: string) returns (id: nat)
      requires Valid()
      modifies this
      ensures Valid() && ident in generics && generics[ident] == id
      ensures ident in old(generics) ==> nodes == old(nodes) && generics == old(generics)
      ensures ident !in old(generics) ==>
                nodes == old(nodes) + [GenericNode(ident)] && generics == old(generics)[ident := |old(nodes)|]
    {
      if ident in generics {
        return generics[ident];
      }
      id := Allocate(GenericNode(ident));
      generics := generics[ident := id];
    }

    /** ty_set_generic_type; false is the fatal error. The name of an enum is outside the bytes that are copied. */
    method SetGenericType(ident: string, with: nat) returns (ok: bool)
      requires Valid() && with < |nodes|
      modifies this`nodes
      ensures Valid() && ok == (ident in generics) && Keeps(old(nodes), nodes, Interned())
      ensures !ok ==> nodes == old(nodes)
      ensures ok ==> |nodes| == |old(nodes)| &&
                     (forall k :: 0 <= k < |nodes| && k != generics[ident] ==> nodes[k] == old(nodes)[k]) &&
                     IsCopy(old(nodes)[with], nodes[generics[ident]])
    {
      if ident !in generics {
        return false;
      }
      var n := nodes[with];
      if n.NamedNode? && n.sort == EnumKind {
        var name: string := *;
        n := n.(name := name);
      }
      assert generics[ident] in generics.Values;
      nodes := nodes[generics[ident] := n];
      return true;
    }

    /** ett_copy: the parameter array of a function type is a new one, and not filled in. */
    method Copy(id: nat) returns (c: nat)
      requires id < |nodes|
      modifies this`nodes
      ensures c == |old(nodes)| && |nodes| == c + 1 && nodes[..c] == old(nodes)
      ensures nodes[c].FunctionNode? <==> old(nodes)[id].FunctionNode?
      ensures !nodes[c].FunctionNode? ==> IsCopy(old(nodes)[id], nodes[c])
      ensures nodes[c].FunctionNode? ==>
                |nodes[c].params| == |old(nodes)[id].params| && nodes[c] == old(nodes)[id].(params := nodes[c].params)
    {
      var n := nodes[id];
      if n.FunctionNode? {
        var params := new nat[|n.params|];
        n := n.(params := params[..]);
      } else if n.NamedNode? && n.sort == EnumKind {
        var name: string := *;
        n := n.(name := name);
      }
      c := Allocate(n);
    }

    /** ett_deep_copy */
    method DeepCopy(id: nat, ghost lo: nat, ghost t: Type) returns (c: nat)
      requires lo <= |nodes| && Denotes(nodes[..lo], id, t, {})
      modifies this`nodes
      ensures |old(nodes)| < |nodes| && nodes[..|old(nodes)|] == old(nodes)
      ensures c == |old(nodes)| && Owned(nodes, lo, c, c, t)
      decreases t, 1
    {
      match nodes[id]
      case PointerNode(_, _, _, _) =>
        c := Copy(id);
        assert nodes[..lo] == old(nodes)[..lo];
        var to := DeepCopy(nodes[id].to, lo, t.to);
        ghost var mid := nodes;
        nodes := nodes[c := nodes[c].(to := to)];
        OwnedKept(mid, nodes, lo, to, c, to, t.to);
      case FunctionNode(_, _, _, _, _) =>
        c := DeepFunctionCopy(id, lo, t);
      case _ =>
        c := Copy(id);
        assert nodes[..lo] == old(nodes)[..lo];
    }

    /** ett_deep_function_copy */
    method DeepFunctionCopy(id: nat, ghost lo: nat, ghost t: Type) returns (c: nat)
      requires lo <= |nodes| && t.Function? && Denotes(nodes[..lo], id, t, {})
      modifies this`nodes
      ensures |old(nodes)| < |nodes| && nodes[..|old(nodes)|] == old(nodes)
      ensures c == |old(nodes)| && Owned(nodes, lo, c, c, t)
      decreases t, 0
    {
      ghost var before := nodes;
      c := Copy(id);
      assert nodes[..lo] == before[..lo];
      DeepParamsCopy(id, c, lo, t);
      ghost var was := nodes;
      assert nodes[..lo] == before[..lo];
      var ret := DeepCopy(nodes[id].ret, lo, t.ret);
      ghost var mid := nodes;
      nodes := nodes[c := nodes[c].(ret := ret)];
      OwnedKept(mid, nodes, lo, ret, c, ret, t.ret);
      ParamsKept(was, nodes, lo, c + 1, c, c, c, t, |t.params|);
    }

    method DeepParamsCopy(id: nat, c: nat, ghost lo: nat, ghost t: Type)
      requires lo <= c < |nodes| && t.Function? && Denotes(nodes[..lo], id, t, {}) && FunctionHead(nodes[c], t)
      modifies this`nodes
      ensures |old(nodes)| <= |nodes| && nodes[..c] == old(nodes)[..c] && FunctionHead(nodes[c], t)
      ensures ParamsOwned(nodes, lo, c + 1, c, t, |t.params|)
      decreases t, 0, 0
    {
      ghost var before := nodes[..c];
      assert nodes[..lo] == before[..lo];
      var i := 0;
      while i < |nodes[id].params|
        invariant 0 <= i <= |t.params| && |old(nodes)| <= |nodes| && nodes[..c] == before && FunctionHead(nodes[c], t)
        invariant ParamsOwned(nodes, lo, c + 1, c, t, i)
      {
        ghost var was := nodes;
        assert nodes[..lo] == before[..lo];
        var p := DeepCopy(nodes[id].params[i], lo, t.params[i]);
        assert nodes[c] == was[c] && nodes[..c] == before;
        ghost var mid := nodes;
        nodes := nodes[c := nodes[c].(params := nodes[c].params[i := p])];
        ParamsKept(was, nodes, lo, c + 1, c + 1, c, c, t, i);
        OwnedKept(mid, nodes, lo, p, c + 1, p, t.params[i]);
        i := i + 1;
      }
    }

    /** ett_qualifies_as_generic, on the nodes. */
    method QualifiesAsGeneric(id: nat, ghost t: Type) returns (b: bool)
      requires Denotes(nodes, id, t, {})
      ensures b == Qualifies(t)
      decreases t
    {
      match nodes[id]
      case GenericNode(_) => return true;
      case PointerNode(to, _, _, _) => b := QualifiesAsGeneric(to, t.to);
      case FunctionNode(ret, params, _, _, _) =>
        var i := 0;
        while i < |params|
          invariant 0 <= i <= |params| && forall k :: 0 <= k < i ==> !Qualifies(t.params[k])
        {
          b := QualifiesAsGeneric(params[i], t.params[i]);
          if b {
            return true;
          }
          i := i + 1;
        }
        b := QualifiesAsGeneric(ret, t.ret);
      case _ => return false;
    }

    /** ac_gb_alloc: the generic parts of a new template are replaced by copies of their own. With an enum inside a
        copied part, whose name is not copied, or with a generic inside an array, which is shared, the template is
        not cut off from what happens later. */
    method Register(id: nat, ghost t: Type)
      requires Valid() && t.Function? && Denotes(nodes, id, t, {}) && Pristine(nodes, Interned())
      modifies this`nodes
      ensures Valid() && Keeps(old(nodes), nodes, {id})
      ensures SeparableParts(t) ==> Denotes(nodes, id, t, Interned())
    {
      ghost var start, good := nodes, SeparableParts(t);
      var i := 0;
      while i < |nodes[id].params|
        invariant 0 <= i <= |t.params| && Ahead(start, nodes, id, t, i)
        invariant good ==> Registering(nodes, id, t, Interned(), i)
      {
        PartAhead(start, nodes, id, t, nodes[id].params[i], t.params[i]);
        ghost var before := nodes;
        var p := Separate(nodes[id].params[i], t.params[i]);
        ghost var was := nodes;
        nodes := nodes[id := nodes[id].(params := nodes[id].params[i := p])];
        AheadNext(start, before, was, nodes, id, t, i);
        if good {
          RegisteringKept(before, was, id, t, Interned(), i);
          ParamSet(was, nodes, id, t, Interned(), i, p);
        }
        i := i + 1;
      }
      PartAhead(start, nodes, id, t, nodes[id].ret, t.ret);
      ghost var before := nodes;
      var ret := Separate(nodes[id].ret, t.ret);
      ghost var was := nodes;
      nodes := nodes[id := nodes[id].(ret := ret)];
      if good {
        RegisteringKept(before, was, id, t, Interned(), i);
        RetSet(was, nodes, id, t, Interned(), ret);
      }
    }

    /** One parameter type, or the return type, of the template being registered. */
    method Separate(part: nat, ghost s: Type) returns (p: nat)
      requires Valid() && Denotes(nodes, part, s, {})
      modifies this`nodes
      ensures Valid() && |old(nodes)| <= |nodes| && nodes[..|old(nodes)|] == old(nodes)
      ensures Pristine(old(nodes), Interned()) && Separable(s) ==> Denotes(nodes, p, s, Interned())
    {
      ghost var before := nodes;
      assert nodes[..|nodes|] == nodes;
      var generic := QualifiesAsGeneric(part, s);
      if generic {
        p := DeepCopy(part, |before|, s);
        assert nodes[..|before|] == before;
      } else {
        p := part;
      }
      if Pristine(before, Interned()) && Separable(s) {
        if generic {
          OwnedOutside(nodes, |before|, p, s, Interned());
        } else {
          UnqualifiedPlain(s);
          PlainOutside(nodes, p, s, Interned());
        }
      }
    }

    // -------------------------------------------------------------- after registration

    /** What the compiler does to type memory later; fields are only written in nodes made after `mark`. */
    method Execute(op: Operation, mark: nat)
      requires Valid() && mark <= |nodes|
      modifies this
      ensures Valid() && mark <= |nodes|
      ensures Later(old(nodes)[..mark], old(Interned()), nodes[..mark], Interned())
    {
      ghost var before, interned := nodes, Interned();
      match op {
        case Intern(ident) =>
          var node := GenericType(ident);
        case Overwrite(ident, with) =>
          if with < |nodes| {
            var ok := SetGenericType(ident, with);
          }
        case Make(node) =>
          var made := Allocate(node);
        case Duplicate(id) =>
          if id < |nodes| {
            var copy := Copy(id);
            assert nodes[..copy] == before;
          }
        case PointTo(id, target) =>
          if mark <= id < |nodes| && nodes[id].PointerNode? {
            nodes := nodes[id := nodes[id].(to := target)];
          }
        case SetReturn(id, target) =>
          if mark <= id < |nodes| && nodes[id].FunctionNode? {
            nodes := nodes[id := nodes[id].(ret := target)];
          }
        case SetParam(id, i, target) =>
          if mark <= id < |nodes| && nodes[id].FunctionNode? && i < |nodes[id].params| {
            nodes := nodes[id := nodes[id].(params := nodes[id].params[i := target])];
          }
      }
      assert Keeps(before[..mark], nodes[..mark], interned);
      LaterKept(before[..mark], interned, nodes[..mark], Interned());
    }

    /** Whatever is interned, overwritten, allocated, copied and filled in later, what the memory below `mark` says
        without the interned nodes stays. */
    method Run(ops: seq<Operation>, mark: nat)
      requires Valid() && mark <= |nodes|
      modifies this
      ensures Valid() && mark <= |nodes|
      ensures Later(old(nodes)[..mark], old(Interned()), nodes[..mark], Interned())
    {
      for i := 0 to |ops|
        invariant Valid() && mark <= |nodes|
        invariant Later(old(nodes)[..mark], old(Interned()), nodes[..mark], Interned())
      {
        ghost var now, interned := nodes[..mark], Interned();
        Execute(ops[i], mark);
        assert Later(now, interned, nodes[..mark], Interned());
      }
    }

    /** A registered template keeps its meaning through everything that follows. */
    method RegisterAndRun(id: nat, ghost t: Type, ops: seq<Operation>)
      requires Valid() && t.Function? && Denotes(nodes, id, t, {}) && Pristine(nodes, Interned())
      modifies this
      ensures SeparableParts(t) ==> Denotes(nodes, id, t, {})
    {
      Register(id, t);
      var mark := |nodes|;
      assert nodes[..mark] == nodes;
      ghost var registered, interned := nodes, Interned();
      Run(ops, mark);
      if SeparableParts(t) {
        assert Denotes(registered, id, t, interned) && Denotes(nodes[..mark], id, t, Interned());
        DenotesKept(nodes[..mark], nodes, id, t, Interned(), {});
      }
    }
  }

  /** `PointTo`, `SetReturn` and `SetParam` write a field of a node in place. */
  datatype Operation =
    | Intern(ident: string)
    | Overwrite(generic: string, with: nat)
    | Make(node: Node)
    | Duplicate(id: nat)
    | PointTo(id: nat, target: nat)
    | SetReturn(id: nat, target: nat)
    | SetParam(id: nat, i: nat, target: nat)

  /** What was said without the interned nodes of the time is said without those of now. */
  ghost predicate Later(nodes: seq<Node>, interned: set<nat>, later: seq<Node>, now: set<nat>) {
    forall id, t :: Denotes(nodes, id, t, interned) ==> Denotes(later, id, t, now)
  }

  lemma LaterKept(nodes: seq<Node>, interned: set<nat>, later: seq<Node>, now: set<nat>)
    requires Keeps(nodes, later, interned) && forall k :: k in now && k < |nodes| ==> k in interned
    ensures Later(nodes, interned, later, now)
  {
    forall id, t | Denotes(nodes, id, t, interned) ensures Denotes(later, id, t, now) {
      DenotesKept(nodes, later, id, t, interned, now);
    }
  }

  /** Of the memory at the start only the template's own node has changed, and of that not what is still to come. */
  ghost predicate Ahead(start: seq<Node>, nodes: seq<Node>, id: nat, t: Type, i: nat) {
    t.Function? && Denotes(start, id, t, {}) && Keeps(start, nodes, {id}) && nodes[id].FunctionNode? &&
    |nodes[id].params| == |t.params| && nodes[id].ret == start[id].ret &&
    forall k :: i <= k < |t.params| ==> nodes[id].params[k] == start[id].params[k]
  }

  lemma PartAhead(start: seq<Node>, nodes: seq<Node>, id: nat, t: Type, part: nat, s: Type)
    requires Denotes(start, id, t, {}) && Denotes(start, part, s, {}) && s < t && Keeps(start, nodes, {id})
    ensures Denotes(nodes, part, s, {})
  {
    PartKept(start, nodes, id, t, {}, part, s);
  }

  lemma AheadNext(start: seq<Node>, before: seq<Node>, was: seq<Node>, nodes: seq<Node>, id: nat, t: Type, i: nat)
    requires Ahead(start, before, id, t, i) && i < |t.params| && |before| <= |was| && was[..|before|] == before
    requires |nodes| == |was| && nodes[id].FunctionNode? && |nodes[id].params| == |t.params|
    requires nodes[id].ret == was[id].ret && forall k :: 0 <= k < |nodes| && k != id ==> nodes[k] == was[k]
    requires forall k :: i < k < |t.params| ==> nodes[id].params[k] == was[id].params[k]
    ensures Ahead(start, nodes, id, t, i + 1)
  {
    assert forall k :: 0 <= k < |before| ==> was[k] == was[..|before|][k] == before[k];
  }

  ghost predicate ParamsOwned(nodes: seq<Node>, lo: nat, from: nat, c: nat, t: Type, n: nat)
    requires lo <= |nodes| && t.Function? && n <= |t.params| && c < |nodes| && FunctionHead(nodes[c], t)
  {
    forall k :: 0 <= k < n ==> Owned(nodes, lo, from, nodes[c].params[k], t.params[k])
  }

  lemma ParamsKept(nodes: seq<Node>, later: seq<Node>, lo: nat, from: nat, down: nat, c: nat, d: nat, t: Type, n: nat)
    requires lo <= |nodes| <= |later| && down <= from && nodes[..lo] == later[..lo]
    requires t.Function? && n <= |t.params| && c < |nodes| && FunctionHead(nodes[c], t)
    requires d < |later| && FunctionHead(later[d], t)
    requires forall k :: from <= k < |nodes| ==> later[k] == nodes[k]
    requires forall k :: 0 <= k < n ==> later[d].params[k] == nodes[c].params[k]
    requires ParamsOwned(nodes, lo, from, c, t, n)
    ensures ParamsOwned(later, lo, down, d, t, n)
  {
    forall k | 0 <= k < n ensures Owned(later, lo, down, later[d].params[k], t.params[k]) {
      OwnedKept(nodes, later, lo, from, down, nodes[c].params[k], t.params[k]);
    }
  }

  /** memcpy of a node, in the number of bytes its kind has. */
  ghost predicate IsCopy(from: Node, to: Node) {
    if from.NamedNode? && from.sort == EnumKind then to.NamedNode? && to.sort == EnumKind else to == from
  }

  // ---------------------------------------------------------------- registering in place

  lemma {:induction false} DenotesOne(nodes: seq<Node>, id: nat, a: Type, b: Type, taboo: set<nat>, other: set<nat>)
    requires Denotes(nodes, id, a, taboo) && Denotes(nodes, id, b, other)
    ensures a == b
    decreases a
  {
    match a
    case Pointer(to, _, _, _) => DenotesOne(nodes, nodes[id].to, to, b.to, taboo, other);
    case Array(of, _) => DenotesOne(nodes, nodes[id].of, of, b.of, taboo, other);
    case Generator(item) => DenotesOne(nodes, nodes[id].item, item, b.item, taboo, other);
    case Function(ret, params, _, _, _) =>
      DenotesOne(nodes, nodes[id].ret, ret, b.ret, taboo, other);
      forall i | 0 <= i < |params| ensures params[i] == b.params[i] {
        DenotesOne(nodes, nodes[id].params[i], params[i], b.params[i], taboo, other);
      }
      assert params == b.params;
    case _ =>
  }

  /** A node that describes `t` is not a part of one that describes something smaller. */
  lemma {:induction false} NotInside(nodes: seq<Node>, part: nat, s: Type, id: nat, t: Type, taboo: set<nat>)
    requires Denotes(nodes, part, s, taboo) && Denotes(nodes, id, t, {}) && s < t
    ensures Denotes(nodes, part, s, taboo + {id})
    decreases s
  {
    if part == id {
      DenotesOne(nodes, id, s, t, taboo, {});
      assert false;
    } else {
      match s
      case Pointer(to, _, _, _) => NotInside(nodes, nodes[part].to, to, id, t, taboo);
      case Array(of, _) => NotInside(nodes, nodes[part].of, of, id, t, taboo);
      case Generator(item) => NotInside(nodes, nodes[part].item, item, id, t, taboo);
      case Function(ret, params, _, _, _) =>
        NotInside(nodes, nodes[part].ret, ret, id, t, taboo);
        forall i | 0 <= i < |params| ensures Denotes(nodes, nodes[part].params[i], params[i], taboo + {id}) {
          NotInside(nodes, nodes[part].params[i], params[i], id, t, taboo);
        }
      case _ =>
    }
  }

  /** The first `n` parameters of the template already are free of interned nodes. */
  ghost predicate Registering(nodes: seq<Node>, id: nat, t: Type, interned: set<nat>, n: nat)
    requires t.Function? && n <= |t.params|
  {
    Denotes(nodes, id, t, {}) && Pristine(nodes, interned) &&
    forall k :: 0 <= k < n ==> Denotes(nodes, nodes[id].params[k], t.params[k], interned)
  }

  lemma RegisteringKept(nodes: seq<Node>, later: seq<Node>, id: nat, t: Type, interned: set<nat>, n: nat)
    requires t.Function? && n <= |t.params| && Registering(nodes, id, t, interned, n)
    requires |nodes| <= |later| && later[..|nodes|] == nodes
    ensures Registering(later, id, t, interned, n)
  {
    assert forall k :: 0 <= k < |nodes| ==> later[k] == later[..|nodes|][k] == nodes[k];
    DenotesKept(nodes, later, id, t, {}, {});
    forall k | 0 <= k < n ensures Denotes(later, later[id].params[k], t.params[k], interned) {
      DenotesKept(nodes, later, nodes[id].params[k], t.params[k], interned, interned);
    }
  }

  /** Writing to the template's own node leaves its parts alone. */
  lemma PartKept(nodes: seq<Node>, later: seq<Node>, id: nat, t: Type, taboo: set<nat>, part: nat, s: Type)
    requires Denotes(nodes, id, t, {}) && Denotes(nodes, part, s, taboo) && s < t
    requires Keeps(nodes, later, {id})
    ensures Denotes(later, part, s, taboo)
  {
    NotInside(nodes, part, s, id, t, taboo);
    DenotesKept(nodes, later, part, s, taboo + {id}, taboo);
  }

  lemma ParamSet(nodes: seq<Node>, later: seq<Node>, id: nat, t: Type, interned: set<nat>, n: nat, p: nat)
    requires t.Function? && n < |t.params| && Registering(nodes, id, t, interned, n)
    requires Denotes(nodes, p, t.params[n], interned)
    requires later == nodes[id := nodes[id].(params := nodes[id].params[n := p])]
    ensures Registering(later, id, t, interned, n + 1)
  {
    PartKept(nodes, later, id, t, {}, nodes[id].ret, t.ret);
    PartKept(nodes, later, id, t, interned, p, t.params[n]);
    DenotesKept(later, later, p, t.params[n], interned, {});
    forall k | 0 <= k < |t.params| ensures Denotes(later, later[id].params[k], t.params[k], {}) {
      if k != n {
        PartKept(nodes, later, id, t, {}, nodes[id].params[k], t.params[k]);
      }
    }
    forall k | 0 <= k < n ensures Denotes(later, later[id].params[k], t.params[k], interned) {
      PartKept(nodes, later, id, t, interned, nodes[id].params[k], t.params[k]);
    }
  }

  lemma RetSet(nodes: seq<Node>, later: seq<Node>, id: nat, t: Type, interned: set<nat>, p: nat)
    requires t.Function? && Registering(nodes, id, t, interned, |t.params|)
    requires Denotes(nodes, p, t.ret, interned)
    requires later == nodes[id := nodes[id].(ret := p)]
    ensures Denotes(later, id, t, interned)
  {
    PartKept(nodes, later, id, t, interned, p, t.ret);
    forall k | 0 <= k < |t.params| ensures Denotes(later, later[id].params[k], t.params[k], interned) {
      PartKept(nodes, later, id, t, interned, nodes[id].params[k], t.params[k]);
    }
  }
}
