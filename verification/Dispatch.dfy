/** Interface tables: what the compiler puts in them, and what a call through an interface finds there. */
module Dispatch {
  import opened Wrappers

  datatype Error = BadImplementation(name: string) | Incomplete

  /** A compiled method of a class. */
  datatype Function = Function(class_: string, name: string)

  /** A class declaration: its name, the interfaces it lists, and its methods in the order they are compiled. */
  datatype ClassDecl = ClassDecl(name: string, interfaces: seq<string>, methods: seq<string>)

  /** struct __egl_class_indir. */
  datatype Indirection = Indirection(count: nat, names: seq<string>, offsets: seq<int>,
                                     functions: seq<Option<Function>>)

  /** interface_table and method_table: the methods of each interface in order, and the types of methods. */
  datatype Tables<!T> = Tables(interfaces: map<string, seq<string>>, types: map<(string, string), T>, same: (T,
                               T) -> bool)

  // ---------------------------------------------------------------- lookups

  function IndexFrom(s: seq<string>, x: string, i: nat): (r: int)
    requires i <= |s|
    ensures -1 <= r < |s|
    ensures r >= 0 ==> i <= r && s[r] == x && forall j :: i <= j < r ==> s[j] != x
    ensures r < 0 ==> forall j :: i <= j < |s| ==> s[j] != x
    decreases |s| - i
  {
    if i == |s| then -1 else if s[i] == x then i else IndexFrom(s, x, i + 1)
  }

  /** The first position of `x`, or -1. */
  function IndexOf(s: seq<string>, x: string): int { IndexFrom(s, x, 0) }

  /** ty_interface_offset. */
  method InterfaceOffset(interfaces: map<string, seq<string>>, name: string, member: string) returns (r: int)
    ensures r == if name in interfaces then IndexOf(interfaces[name], member) else -1
  {
    if name !in interfaces {
      return -1;
    }
    var names := interfaces[name];
    r := 0;
    while r < |names|
      invariant 0 <= r <= |names| && IndexOf(names, member) == IndexFrom(names, member, r)
    {
      if names[r] == member {
        return;
      }
      r := r + 1;
    }
    r := -1;
  }

  /** ty_interface_count. */
  function InterfaceCount(interfaces: map<string, seq<string>>, name: string): int {
    if name in interfaces then |interfaces[name]| else -1
  }

  // ---------------------------------------------------------------- the table of a class

  /** All the methods that the listed interfaces ask for, interface by interface. */
  function Slots(interfaces: map<string, seq<string>>, listed: seq<string>): seq<string>
    requires forall i :: i in listed ==> i in interfaces
  {
    if listed == [] then [] else interfaces[listed[0]] + Slots(interfaces, listed[1..])
  }

  lemma {:induction false} SlotsSplit(interfaces: map<string, seq<string>>, a: seq<string>, b: seq<string>)
    requires forall i :: i in a + b ==> i in interfaces
    ensures (forall i :: i in a ==> i in interfaces) && (forall i :: i in b ==> i in interfaces)
    ensures Slots(interfaces, a + b) == Slots(interfaces, a) + Slots(interfaces, b)
  {
    assert forall i :: i in a ==> i in a + b;
    assert forall i :: i in b ==> i in a + b;
    if a == [] {
      assert a + b == b;
    } else {
      assert (a + b)[1..] == a[1..] + b;
      SlotsSplit(interfaces, a[1..], b);
    }
  }

  /** Where interface number `i` starts, and how its methods lie in the table. */
  lemma SlotsAt(interfaces: map<string, seq<string>>, listed: seq<string>, i: nat)
    requires forall n :: n in listed ==> n in interfaces
    requires i < |listed|
    ensures var before := Slots(interfaces, listed[..i]); var own := interfaces[listed[i]];
      var all := Slots(interfaces, listed);
      |before| + |own| <= |all| && all[..|before|] == before && all[|before|..|before| + |own|] == own &&
      Slots(interfaces, listed[..i + 1]) == before + own
  {
    assert listed == listed[..i] + listed[i..];
    SlotsSplit(interfaces, listed[..i], listed[i..]);
    assert listed[..i + 1] == listed[..i] + [listed[i]];
    SlotsSplit(interfaces, listed[..i], [listed[i]]);
    assert Slots(interfaces, [listed[i]]) == interfaces[listed[i]];
  }

  /** Searching one more interface, when the ones before it do not ask for the method. */
  lemma SlotSearch(interfaces: map<string, seq<string>>, listed: seq<string>, i: nat, member: string)
    requires (forall n :: n in listed ==> n in interfaces) && i < |listed|
    requires member !in Slots(interfaces, listed[..i])
    ensures var before := Slots(interfaces, listed[..i]); var own := interfaces[listed[i]];
      var all := Slots(interfaces, listed); var k := IndexOf(own, member);
      |before| + |own| <= |all| && all[..|before|] == before &&
      (member in own <==> k >= 0) &&
      (k >= 0 ==> IndexOf(all, member) == |before| + k) &&
      (k < 0 ==> member !in all[..|before| + |own|]) &&
      Slots(interfaces, listed[..i + 1]) == before + own && all[..|before| + |own|] == before + own
  {
    SlotsAt(interfaces, listed, i);
    FirstInPart(Slots(interfaces, listed), Slots(interfaces, listed[..i]), interfaces[listed[i]], member);
  }

  /** A list that begins with two parts, the first of which lacks an entry. */
  lemma FirstInPart(all: seq<string>, before: seq<string>, own: seq<string>, x: string)
    requires |before| + |own| <= |all| && all[..|before|] == before && all[|before|..|before| + |own|] == own
    requires x !in before
    ensures var k := IndexOf(own, x);
      (x in own <==> k >= 0) && (k >= 0 ==> IndexOf(all, x) == |before| + k) &&
      (k < 0 ==> x !in all[..|before| + |own|]) && all[..|before| + |own|] == before + own
  {
    PartsJoined(all, before, own);
    var k := IndexOf(own, x);
    if k >= 0 {
      forall j | 0 <= j < |before| + k ensures all[j] != x {
        PartAt(all, before, own, j);
      }
      PartAt(all, before, own, |before| + k);
      FirstIs(all, x, |before| + k);
    }
  }

  lemma PartAt(all: seq<string>, before: seq<string>, own: seq<string>, j: nat)
    requires j < |before| + |own| <= |all| && all[..|before| + |own|] == before + own
    ensures all[j] == if j < |before| then before[j] else own[j - |before|]
  {
    assert all[j] == all[..|before| + |own|][j];
  }

  lemma PartsJoined(all: seq<string>, before: seq<string>, own: seq<string>)
    requires |before| + |own| <= |all| && all[..|before|] == before && all[|before|..|before| + |own|] == own
    ensures all[..|before| + |own|] == before + own
  {
    assert all[..|before| + |own|] == all[..|before|] + all[|before|..|before| + |own|];
  }

  lemma FirstIs(s: seq<string>, x: string, k: nat)
    requires k < |s| && s[k] == x && forall j :: 0 <= j < k ==> s[j] != x
    ensures IndexOf(s, x) == k
  {
  }

  /** Interface number `i` is the first one listed that asks for the method. */
  predicate AsksFirst(interfaces: map<string, seq<string>>, listed: seq<string>, member: string, i: nat)
    requires (forall n :: n in listed ==> n in interfaces) && i < |listed|
  {
    member in interfaces[listed[i]] && forall j :: 0 <= j < i ==> member !in interfaces[listed[j]]
  }

  /** The method's type and those that the interfaces listed ask for are known. */
  predicate Known<T>(tables: Tables<T>, cls: ClassDecl, member: string) {
    (forall n :: n in cls.interfaces ==> n in tables.interfaces) && (cls.name, member) in tables.types &&
    forall n :: n in cls.interfaces && member in tables.interfaces[n] ==> (n, member) in tables.types
  }

  /** The method's type fits the first interface that asks for it, if any does. */
  predicate Agrees<T>(tables: Tables<T>, cls: ClassDecl, member: string)
    requires Known(tables, cls, member)
  {
    forall i :: 0 <= i < |cls.interfaces| && AsksFirst(tables.interfaces, cls.interfaces, member, i) ==>
      tables.same(tables.types[(cls.interfaces[i], member)], tables.types[(cls.name, member)])
  }

  /** The interfaces before number `i` do not ask for the method; together they have `sidx` slots. */
  ghost predicate Searching(interfaces: map<string, seq<string>>, listed: seq<string>, member: string, i: nat,
                            sidx: int)
    requires forall n :: n in listed ==> n in interfaces
  {
    i <= |listed| && sidx == |Slots(interfaces, listed[..i])| && member !in Slots(interfaces, listed[..i]) &&
    forall j :: 0 <= j < i ==> member !in interfaces[listed[j]]
  }

  lemma SearchFound<T>(tables: Tables<T>, cls: ClassDecl, member: string, i: nat, sidx: int, offset: int)
    requires Known(tables, cls, member) && Searching(tables.interfaces, cls.interfaces, member, i, sidx)
    requires i < |cls.interfaces| && offset == IndexOf(tables.interfaces[cls.interfaces[i]], member)
    ensures offset >= 0 ==>
      0 <= sidx + offset < |Slots(tables.interfaces, cls.interfaces)| &&
      IndexOf(Slots(tables.interfaces, cls.interfaces), member) == sidx + offset &&
      (cls.interfaces[i], member) in tables.types &&
      (Agrees(tables, cls, member) <==>
        tables.same(tables.types[(cls.interfaces[i], member)], tables.types[(cls.name, member)]))
    ensures offset < 0 ==>
      Searching(tables.interfaces, cls.interfaces, member, i + 1, sidx + |tables.interfaces[cls.interfaces[i]]|)
  {
    SlotSearch(tables.interfaces, cls.interfaces, i, member);
    if offset >= 0 {
      assert AsksFirst(tables.interfaces, cls.interfaces, member, i);
      forall k | 0 <= k < |cls.interfaces| && AsksFirst(tables.interfaces, cls.interfaces, member, k) ensures k == i {
      }
    }
  }

  lemma SearchOver<T>(tables: Tables<T>, cls: ClassDecl, member: string, sidx: int)
    requires Known(tables, cls, member)
    requires Searching(tables.interfaces, cls.interfaces, member, |cls.interfaces|, sidx)
    ensures Agrees(tables, cls, member) && IndexOf(Slots(tables.interfaces, cls.interfaces), member) == -1
  {
    assert cls.interfaces[..|cls.interfaces|] == cls.interfaces;
  }

  class ClassHelper {
    var pointers: array<Option<Function>>

    constructor (length: nat)
      ensures fresh(pointers) && pointers.Length == length
      ensures forall s :: 0 <= s < length ==> pointers[s] == None
    {
      pointers := new Option<Function>[length](_ => None);
    }

    /** The check that no slot was left out. */
    method Filled() returns (r: bool)
      ensures r <==> forall s :: 0 <= s < pointers.Length ==> pointers[s] != None
    {
      var s := 0;
      while s < pointers.Length
        invariant s <= pointers.Length && forall k :: 0 <= k < s ==> pointers[k] != None
      {
        if pointers[s] == None {
          return false;
        }
        s := s + 1;
      }
      return true;
    }

    /** ac_check_and_register_implementation: enter a method in the slot of the first interface that asks for it. */
    method Register<T>(tables: Tables<T>, cls: ClassDecl, member: string) returns (r: Result<(), Error>)
      requires Known(tables, cls, member)
      requires pointers.Length == |Slots(tables.interfaces, cls.interfaces)|
      modifies pointers
      ensures r.Success? <==> Agrees(tables, cls, member)
      ensures r.Failure? ==> r.error == BadImplementation(member)
      ensures var k := IndexOf(Slots(tables.interfaces, cls.interfaces), member);
        forall s :: 0 <= s < pointers.Length ==>
          pointers[s] == if r.Success? && s == k then Some(Function(cls.name, member)) else old(pointers[s])
    {
      var i, sidx := 0, 0;
      while i < |cls.interfaces|
        invariant Searching(tables.interfaces, cls.interfaces, member, i, sidx)
        invariant pointers[..] == old(pointers[..])
      {
        var name := cls.interfaces[i];
        var offset := InterfaceOffset(tables.interfaces, name, member);
        SearchFound(tables, cls, member, i, sidx, offset);
        if offset >= 0 {
          if !tables.same(tables.types[(name, member)], tables.types[(cls.name, member)]) {
            return Failure(BadImplementation(member));
          }
          pointers[sidx + offset] := Some(Function(cls.name, member));
          return Success(());
        }
        sidx := sidx + InterfaceCount(tables.interfaces, name);
        i := i + 1;
      }
      SearchOver(tables, cls, member, sidx);
      return Success(());
    }
  }

  /** Every interface the class lists is declared, and every method involved has a type. */
  predicate WellFormed<T>(tables: Tables<T>, cls: ClassDecl) {
    (forall n :: n in cls.interfaces ==> n in tables.interfaces) &&
    (forall m :: m in cls.methods ==> (cls.name, m) in tables.types) &&
    (forall n, m :: n in cls.interfaces && m in tables.interfaces[n] ==> (n, m) in tables.types)
  }

  predicate NoDuplicates(s: seq<string>) {
    forall i, j :: 0 <= i < j < |s| ==> s[i] != s[j]
  }

  /** No two slots ask for the same method, and the class has them all. */
  predicate Complete(slots: seq<string>, methods: seq<string>) {
    NoDuplicates(slots) && forall s :: s in slots ==> s in methods
  }

  ghost predicate TypesAgree<T>(tables: Tables<T>, cls: ClassDecl)
    requires WellFormed(tables, cls)
  {
    forall m :: m in cls.methods ==> Agrees(tables, cls, m)
  }

  /** The offset table: each interface starts where the methods of those before it end. */
  ghost predicate Offsets(interfaces: map<string, seq<string>>, listed: seq<string>, offsets: seq<int>)
    requires forall n :: n in listed ==> n in interfaces
  {
    |offsets| <= |listed| && forall i :: 0 <= i < |offsets| ==> offsets[i] == |Slots(interfaces, listed[..i])|
  }

  /** The finished tables of a class: slot by slot its own method of the name asked for. */
  ghost predicate TableFor<T>(tables: Tables<T>, cls: ClassDecl, vt: Indirection)
    requires WellFormed(tables, cls)
  {
    var slots := Slots(tables.interfaces, cls.interfaces);
    vt.count == |cls.interfaces| && vt.names == cls.interfaces &&
    |vt.offsets| == vt.count && Offsets(tables.interfaces, cls.interfaces, vt.offsets) &&
    |vt.functions| == |slots| &&
    forall s :: 0 <= s < |slots| ==> vt.functions[s] == Some(Function(cls.name, slots[s]))
  }

  method BuildOffsets(interfaces: map<string, seq<string>>, listed: seq<string>) returns (offsets: seq<int>, total: nat)
    requires forall n :: n in listed ==> n in interfaces
    ensures |offsets| == |listed| && Offsets(interfaces, listed, offsets)
    ensures total == |Slots(interfaces, listed)|
  {
    offsets, total := [], 0;
    var i := 0;
    while i < |listed|
      invariant i == |offsets| <= |listed| && total == |Slots(interfaces, listed[..i])|
      invariant Offsets(interfaces, listed, offsets)
    {
      SlotsAt(interfaces, listed, i);
      offsets := offsets + [total];
      total := total + InterfaceCount(interfaces, listed[i]);
      i := i + 1;
    }
    assert listed[..i] == listed;
  }

  /** After some methods are registered: a slot is filled exactly if one of them is its method and no earlier slot
      asks for the same. */
  ghost predicate Registered(pointers: seq<Option<Function>>, class_: string, slots: seq<string>,
                             methods: seq<string>) {
    |pointers| == |slots| &&
    forall s :: 0 <= s < |slots| ==>
      pointers[s] == if slots[s] in methods && IndexOf(slots, slots[s]) == s
                     then Some(Function(class_, slots[s])) else None
  }

  lemma OneMoreRegistered(before: seq<Option<Function>>, after: seq<Option<Function>>, class_: string,
                          slots: seq<string>, methods: seq<string>, i: nat)
    requires i < |methods| && Registered(before, class_, slots, methods[..i]) && |after| == |before|
    requires var k := IndexOf(slots, methods[i]);
      forall s :: 0 <= s < |after| ==> after[s] == if s == k then Some(Function(class_, methods[i])) else before[s]
    ensures Registered(after, class_, slots, methods[..i + 1])
  {
  }

  /** Filling every slot means that the interfaces' methods are distinct and all implemented. */
  lemma AllFilled(pointers: seq<Option<Function>>, class_: string, slots: seq<string>, methods: seq<string>)
    requires Registered(pointers, class_, slots, methods)
    ensures (forall s :: 0 <= s < |slots| ==> pointers[s] != None) <==> Complete(slots, methods)
  {
  }

  /** The class part of ac_make_class_definitions. */
  method DefineClass<T>(tables: Tables<T>, cls: ClassDecl) returns (r: Result<Option<Indirection>, Error>)
    requires WellFormed(tables, cls)
    ensures r.Success? <==>
      cls.interfaces == [] ||
      (TypesAgree(tables, cls) && Complete(Slots(tables.interfaces, cls.interfaces), cls.methods))
    ensures r.Failure? && r.error.BadImplementation? ==>
      r.error.name in cls.methods && !Agrees(tables, cls, r.error.name)
    ensures r.Failure? && r.error.Incomplete? ==> TypesAgree(tables, cls)
    ensures r.Success? ==>
      if cls.interfaces == [] then r.value == None else r.value.Some? && TableFor(tables, cls, r.value.value)
  {
    if cls.interfaces == [] {
      return Success(None);
    }
    var offsets, total := BuildOffsets(tables.interfaces, cls.interfaces);
    ghost var slots := Slots(tables.interfaces, cls.interfaces);
    var h := new ClassHelper(total);
    var i := 0;
    while i < |cls.methods|
      invariant i <= |cls.methods| && fresh(h) && fresh(h.pointers)
      invariant h.pointers.Length == |slots| && Registered(h.pointers[..], cls.name, slots, cls.methods[..i])
      invariant forall k :: 0 <= k < i ==> Agrees(tables, cls, cls.methods[k])
    {
      ghost var before := h.pointers[..];
      assert cls.methods[i] in cls.methods;
      var done := h.Register(tables, cls, cls.methods[i]);
      if done.Failure? {
        return Failure(done.error);
      }
      OneMoreRegistered(before, h.pointers[..], cls.name, slots, cls.methods, i);
      i := i + 1;
    }
    assert cls.methods[..i] == cls.methods;
    AllFilled(h.pointers[..], cls.name, slots, cls.methods);
    var filled := h.Filled();
    if !filled {
      return Failure(Incomplete);
    }
    return Success(Some(Indirection(|cls.interfaces|, cls.interfaces, offsets, h.pointers[..])));
  }

  // ---------------------------------------------------------------- a call

  /** ty_interface_for_method: the first interface of a composite type that has the method. */
  method InterfaceForMethod(interfaces: map<string, seq<string>>, composite: seq<string>, member: string)
    returns (name: Option<string>)
    requires forall n :: n in composite ==> n in interfaces
    ensures name.None? <==> forall n :: n in composite ==> member !in interfaces[n]
    ensures name.Some? ==> exists k ::
      0 <= k < |composite| && composite[k] == name.value && AsksFirst(interfaces, composite, member, k)
  {
    var i := 0;
    while i < |composite|
      invariant i <= |composite| && forall j :: 0 <= j < i ==> member !in interfaces[composite[j]]
    {
      if member in interfaces[composite[i]] {
        assert AsksFirst(interfaces, composite, member, i);
        return Some(composite[i]);
      }
      i := i + 1;
    }
    return None;
  }

  /** ty_class_implements_interface. */
  predicate Implements(cls: ClassDecl, composite: seq<string>) {
    forall n :: n in composite ==> n in cls.interfaces
  }

  /** __egl_lookup_method. */
  method LookupMethod(vt: Indirection, name: string, index: nat) returns (f: Option<Function>)
    requires vt.count <= |vt.names| && vt.count <= |vt.offsets|
    requires var k := IndexOf(vt.names[..vt.count], name);
      k >= 0 && vt.offsets[k] >= 0 ==> vt.offsets[k] + index < |vt.functions|
    ensures f == var k := IndexOf(vt.names[..vt.count], name);
      if k >= 0 && vt.offsets[k] >= 0 then vt.functions[vt.offsets[k] + index] else None
  {
    var offset := -1;
    var i := 0;
    while i < vt.count
      invariant i <= vt.count && offset == -1
      invariant forall j :: 0 <= j < i ==> vt.names[j] != name
    {
      if name == vt.names[i] {
        offset := vt.offsets[i];
        FirstIs(vt.names[..vt.count], name, i);
        break;
      }
      i := i + 1;
    }
    if offset < 0 {
      return None;
    }
    return vt.functions[offset + index];
  }

  /** The first interface of the composite that has the method is one that the class implements. */
  ghost predicate Answered(interfaces: map<string, seq<string>>, cls: ClassDecl, composite: seq<string>,
                           member: string)
    requires forall n :: n in composite ==> n in interfaces
  {
    exists k :: 0 <= k < |composite| && AsksFirst(interfaces, composite, member, k) && composite[k] in cls.interfaces
  }

  /** A call through a composite interface on an object of a class. If the class passed the check of its interfaces,
      the call runs the class's own method of that name; without the check it may find nothing. */
  method Call<T>(tables: Tables<T>, cls: ClassDecl, vt: Indirection, composite: seq<string>, member: string)
    returns (f: Option<Function>)
    requires WellFormed(tables, cls) && TableFor(tables, cls, vt)
    requires forall n :: n in composite ==> n in tables.interfaces
    requires exists n :: n in composite && member in tables.interfaces[n]
    ensures f == if Answered(tables.interfaces, cls, composite, member) then Some(Function(cls.name, member)) else None
    ensures Implements(cls, composite) ==> f == Some(Function(cls.name, member))
  {
    var name := InterfaceForMethod(tables.interfaces, composite, member);
    var index := InterfaceOffset(tables.interfaces, name.value, member);
    assert vt.names[..vt.count] == cls.interfaces;
    if name.value in cls.interfaces {
      OwnSlot(tables, cls, vt, name.value, member);
    }
    f := LookupMethod(vt, name.value, index);
  }

  ghost predicate AllAnswered(interfaces: map<string, seq<string>>, cls: ClassDecl, composite: seq<string>)
    requires forall n :: n in composite ==> n in interfaces
  {
    forall n, m :: n in composite && m in interfaces[n] ==> Answered(interfaces, cls, composite, m)
  }

  /** The interface has a method that those before it have not. */
  ghost predicate AddsMethod(interfaces: map<string, seq<string>>, composite: seq<string>, k: nat)
    requires (forall n :: n in composite ==> n in interfaces) && k < |composite|
  {
    exists m :: AsksFirst(interfaces, composite, m, k)
  }

  /** Calls to all methods of the composite are answered exactly if the class implements each interface that adds one.
      So where each does, they are answered exactly if the class passes the check. */
  lemma CheckedExactly(interfaces: map<string, seq<string>>, cls: ClassDecl, composite: seq<string>)
    requires forall n :: n in composite ==> n in interfaces
    ensures AllAnswered(interfaces, cls, composite) <==>
            forall k :: 0 <= k < |composite| && AddsMethod(interfaces, composite, k) ==> composite[k] in cls.interfaces
    ensures (forall k :: 0 <= k < |composite| ==> AddsMethod(interfaces, composite, k)) ==>
            (AllAnswered(interfaces, cls, composite) <==> Implements(cls, composite))
  {
    forall n, m | n in composite && m in interfaces[n]
      ensures exists k :: 0 <= k < |composite| && AsksFirst(interfaces, composite, m, k)
    {
      var k :| 0 <= k < |composite| && composite[k] == n;
      FirstAsks(interfaces, composite, m, k);
    }
    if AllAnswered(interfaces, cls, composite) {
      forall k | 0 <= k < |composite| && AddsMethod(interfaces, composite, k)
        ensures composite[k] in cls.interfaces
      {
        var m :| AsksFirst(interfaces, composite, m, k);
        assert Answered(interfaces, cls, composite, m);
      }
    }
  }

  lemma {:induction false} FirstAsks(interfaces: map<string, seq<string>>, listed: seq<string>, member: string, k: nat)
    requires (forall n :: n in listed ==> n in interfaces) && k < |listed| && member in interfaces[listed[k]]
    ensures exists i :: 0 <= i < |listed| && AsksFirst(interfaces, listed, member, i)
  {
    if j :| 0 <= j < k && member in interfaces[listed[j]] {
      FirstAsks(interfaces, listed, member, j);
    } else {
      assert AsksFirst(interfaces, listed, member, k);
    }
  }

  /** Wherever the interface occurs in the list, its slot for the method lies in the table and holds that method. */
  lemma OwnSlot<T>(tables: Tables<T>, cls: ClassDecl, vt: Indirection, name: string, member: string)
    requires WellFormed(tables, cls) && TableFor(tables, cls, vt)
    requires name in cls.interfaces && member in tables.interfaces[name]
    ensures var index := IndexOf(tables.interfaces[name], member);
      index >= 0 && forall i :: 0 <= i < vt.count && vt.names[i] == name ==>
        0 <= vt.offsets[i] && vt.offsets[i] + index < |vt.functions| &&
        vt.functions[vt.offsets[i] + index] == Some(Function(cls.name, member))
    ensures vt.names[..vt.count] == cls.interfaces && IndexOf(cls.interfaces, name) >= 0
  {
    var index := IndexOf(tables.interfaces[name], member);
    forall i | 0 <= i < vt.count && vt.names[i] == name
      ensures 0 <= vt.offsets[i] && vt.offsets[i] + index < |vt.functions|
      ensures vt.functions[vt.offsets[i] + index] == Some(Function(cls.name, member))
    {
      SlotOf(tables.interfaces, cls.interfaces, i, index);
    }
  }

  lemma SlotOf(interfaces: map<string, seq<string>>, listed: seq<string>, i: nat, index: nat)
    requires (forall n :: n in listed ==> n in interfaces) && i < |listed| && index < |interfaces[listed[i]]|
    ensures var b := |Slots(interfaces, listed[..i])|; var slots := Slots(interfaces, listed);
      b + index < |slots| && slots[b + index] == interfaces[listed[i]][index]
  {
    SlotsAt(interfaces, listed, i);
    var b, slots, own := |Slots(interfaces, listed[..i])|, Slots(interfaces, listed), interfaces[listed[i]];
    assert slots[b + index] == slots[b..b + |own|][index];
  }
}
