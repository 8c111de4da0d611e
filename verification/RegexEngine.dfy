/** Running a compiled pattern: lock-step simulation with generation marks (regex.c). */
module RegexEngine {
  import opened RegexSyntax
  import opened RegexNfa
  import opened RegexPaths
  import opened RegexClosure
  import opened RegexBuild
  import opened RegexParser
  import opened RegexPrinter

  /** A list of states in a buffer sized for every state of the pattern. */
  class StateList {
    const mem: array<nat>
    var ct: nat

    constructor (capacity: nat)
      ensures fresh(mem) && mem.Length == capacity && ct == 0
    {
      mem := new nat[capacity];
      ct := 0;
    }

    ghost function Contents(): seq<nat>
      requires ct <= mem.Length
      reads this, mem
    {
      mem[..ct]
    }
  }

  function ToChar(x: int): int { (x + 128) % 256 - 128 }

  function LowerOf(x: int): int {
    var c := ToChar(x);
    if IsLower(c) then c else ToChar(c - 'A' as int + 'a' as int)
  }

  lemma LowerValue(x: int)
    requires -128 <= x < 128
    ensures LowerOf(x) == if IsLower(x) then x else if x < 96 then x + 32 else x - 224
  {
    assert ToChar(x) == x;
    assert x < 96 ==> ToChar(x + 32) == x + 32;
    assert x >= 96 ==> ToChar(x + 32) == x - 224;
  }

  /** Comparing a letter with another character in lower case, MATCH included, is comparing them up to case. */
  lemma LowerFolds(x: int, c: CChar)
    requires IsLetter(c) && (x == MATCH || -128 <= x < 128)
    ensures LowerOf(x) == LowerOf(c) <==> IsLetter(x) && Fold(x) == Fold(c)
  {
    LowerValue(c);
    if x == MATCH {
      assert ToChar(x) == 1 && ToChar(33) == 33;
    } else {
      LowerValue(x);
    }
  }

  /** rgx_test_class: scan the entries of a class. */
  method TestClass(cls: CharClass, c: CChar) returns (r: bool)
    ensures r == cls.Has(c)
  {
    var i := 0;
    while i < |cls.items|
      invariant 0 <= i <= |cls.items|
      invariant forall j :: 0 <= j < i ==> !cls.items[j].Has(c)
    {
      var ret := if cls.items[i].b < 0 then c == cls.items[i].a else c >= cls.items[i].a && c <= cls.items[i].b;
      if ret && !cls.negate {
        return true;
      }
      if ret && cls.negate {
        return false;
      }
      i := i + 1;
    }
    return cls.negate;
  }

  /** rgx_test: can this state be left on this character? */
  method Test(s: State, c: CChar, ignoreCase: bool) returns (r: bool)
    requires !IsEpsilon(s)
    requires s.c == MATCH || -128 <= s.c < 128
    ensures r == Passes(s, c, ignoreCase)
  {
    if s.c == ANY {
      return true;
    }
    if s.c != CHRCLS {
      if ignoreCase && IsLetter(c) {
        LowerFolds(s.c, c);
        return LowerOf(s.c) == LowerOf(c);
      }
      return s.c == c;
    }
    r := TestClass(s.chrcls, c);
  }

  class Regex {
    var start: nat
    var states: seq<State>
    var listit: seq<int>
    var listgen: int
    var matched: bool
    var ignoreCase: bool
    ghost var ast: Ast

    /** The patched graph of a pattern. */
    ghost predicate Built()
      reads this`ast, this`states, this`start
    {
      |states| == Size(ast) + 1 && states[|states| - 1].c == MATCH &&
      NoSentinel(ast) && Compiled(states, ast, 0, |states| - 1) && start == Entry(ast, 0)
    }

    /** A compiled pattern between calls: its marks are all alike, fresh or from the last reset. */
    ghost predicate Valid()
      reads this`ast, this`states, this`start, this`listit, this`listgen
    {
      Built() && |listit| == |states| && listgen >= 0 &&
      ((listgen == 0 && Uniform(listit, -1)) || Uniform(listit, 0))
    }

    static ghost predicate Uniform(marks: seq<int>, m: int) {
      forall i :: 0 <= i < |marks| ==> marks[i] == m
    }

    /** The first closure of a call is computed only if the start state does not look visited already. */
    predicate Armed()
      requires start < |listit|
      reads this
    {
      listit[start] != listgen
    }

    /** rgx_compile: parse, build, and patch the remaining exits to a MATCH state. */
    constructor Compile(pattern: CString)
      ensures ast == Parsed(pattern).0 && listgen == 0 && !ignoreCase && Uniform(listit, -1)
      ensures !Parsed(pattern).1.overrun && NoSentinel(ast) ==> Valid() && Armed()
    {
      states, listit, listgen, ignoreCase := [], [], 0, false;
      new;
      var compiler := new Compiler(pattern);
      var head := compiler.Regex();
      ast := head;
      var entry, out := Build(head);
      start := entry;
      Close(head, out);
    }

    /** The end of rgx_compile: the open exits lead to the MATCH state. */
    method Close(head: Ast, out: Slot)
      requires Newest(head, 0, start, out)
      modifies this`states, this`listit
      ensures |states| == Size(head) + 1 && states[|states| - 1].c == MATCH
      ensures Compiled(states, head, 0, |states| - 1) && |listit| == |states| && Uniform(listit, -1)
    {
      ghost var g1 := states;
      var end := NewState(MATCH, NO_CLASS, Null, Null);
      ghost var g2 := states;
      ThreadPrefix(g1, g2, Dangling(head, 0));
      DanglingDistinct(head, 0);
      Patch(out, end, Dangling(head, 0));
      PatternCompiled(g1, g2, states, head);
    }

    // -------------------------------------------------------------- construction

    /** rgxb_build_state. */
    method NewState(c: int, cls: CharClass, outa: Link, outb: Link) returns (s: nat)
      requires |listit| == |states|
      modifies this`states, this`listit
      ensures s == old(|states|) && states == old(states) + [State(c, cls, outa, outb)]
      ensures listit == old(listit) + [-1]
    {
      s := |states|;
      states := states + [State(c, cls, outa, outb)];
      listit := listit + [-1];
    }

    /** rgxb_singleton: a list of one unfilled slot. */
    method Singleton(slot: Slot) returns (p: Slot)
      requires Holds(states, slot) && Get(states, slot) == Null
      modifies this`states
      ensures p == slot && states == old(states)
    {
      p := slot;
      states := Put(states, slot, Null);
    }

    /** rgxb_joined: walk to the end of the first list and hang the second one there. */
    method Join(a: Slot, b: Slot, ghost da: seq<Slot>, ghost db: seq<Slot>) returns (head: Slot)
      requires da != [] && db != [] && a == da[0] && b == db[0]
      requires Threaded(states, da) && Threaded(states, db) && Distinct(da + db)
      modifies this`states
      ensures head == a && Threaded(states, da + db)
      ensures OnlyChanges(old(states), states, da)
    {
      head := a;
      var cur := a;
      ghost var i := 0;
      while Get(states, cur).Next?
        invariant 0 <= i < |da| && cur == da[i] && Holds(states, da[i])
        decreases |da| - i
      {
        assert i + 1 < |da| ==> Get(states, da[i]) == Next(da[i + 1]);
        cur := Get(states, cur).slot;
        i := i + 1;
      }
      LastHoldsNull(states, da, i);
      Joined(states, da, db);
      states := Put(states, cur, Next(b));
    }

    /** rgxb_patch: fill every slot of a list with the same state. */
    method Patch(head: Slot, s: nat, ghost d: seq<Slot>)
      requires d != [] && head == d[0] && Threaded(states, d) && Distinct(d)
      modifies this`states
      ensures AllLead(states, d, s) && OnlyChanges(old(states), states, d)
    {
      var p := Next(head);
      ghost var i := 0;
      while p.Next?
        invariant 0 <= i <= |d| && p == (if i < |d| then Next(d[i]) else Null)
        invariant AllLead(states, d[..i], s)
        invariant OnlyChanges(old(states), states, d[..i])
        decreases |d| - i
      {
        var n := Get(states, p.slot);
        states := Put(states, p.slot, To(s));
        p := n;
        i := i + 1;
      }
      assert d[..i] == d;
    }

    /** A fragment whose states are the newest ones, as every rgxb_ function returns it. */
    ghost predicate Newest(a: Ast, lo: nat, entry: nat, out: Slot)
      reads this`states, this`listit
    {
      Fragment(states, a, lo) && entry == Entry(a, lo) && out == Dangling(a, lo)[0] &&
      |listit| == |states| && forall i :: lo <= i < |listit| ==> listit[i] == -1
    }

    /** rgxb_build: allocate and wire the states of a pattern, returning its entry and its list of open exits. */
    method Build(head: Ast) returns (entry: nat, out: Slot)
      requires |listit| == |states|
      modifies this`states, this`listit
      ensures Newest(head, old(|states|), entry, out)
      ensures states[..old(|states|)] == old(states) && listit[..old(|states|)] == old(listit)
      decreases head, 1
    {
      match head
      case Or(_, _) => entry, out := BuildOr(head);
      case Sequence(_, _) => entry, out := BuildSequence(head);
      case Base(c) => entry, out := BuildLeaf(head, c, NO_CLASS);
      case Class(cls) => entry, out := BuildLeaf(head, CHRCLS, cls);
      case Repetition(_) => entry, out := BuildLoop(head);
      case AtLeastOne(_) => entry, out := BuildLoop(head);
      case OneOrNone(_) => entry, out := BuildOption(head);
      case Blank => entry, out := BuildLeaf(head, NONE, NO_CLASS);
    }

    /** rgxb_base, rgxb_class and rgxb_blank. */
    method BuildLeaf(head: Ast, c: int, cls: CharClass) returns (entry: nat, out: Slot)
      requires |listit| == |states|
      requires (head == Base(c)) || (head == Class(cls) && c == CHRCLS) || (head == Blank && c == NONE)
      modifies this`states, this`listit
      ensures Newest(head, old(|states|), entry, out)
      ensures states[..old(|states|)] == old(states) && listit[..old(|states|)] == old(listit)
    {
      entry := NewState(c, cls, Null, Null);
      out := Singleton(Slot(entry, false));
    }

    /** The common opening of rgxb_or and rgxb_sequence. */
    method BuildBoth(head: Ast) returns (left: nat, leftOut: Slot, right: nat, rightOut: Slot)
      requires |listit| == |states| && (head.Or? || head.Sequence?)
      modifies this`states, this`listit
      ensures var lo := old(|states|); var mid := lo + Size(head.first);
        Both(states, head, lo) && left == Entry(head.first, lo) && right == Entry(head.second, mid) &&
        leftOut == Dangling(head.first, lo)[0] && rightOut == Dangling(head.second, mid)[0]
      ensures |listit| == |states| && forall i :: old(|states|) <= i < |listit| ==> listit[i] == -1
      ensures states[..old(|states|)] == old(states) && listit[..old(|states|)] == old(listit)
      decreases head, 0, 0
    {
      ghost var lo := |states|;
      left, leftOut := Build(head.first);
      ghost var g1 := states;
      right, rightOut := Build(head.second);
      BothBuilt(g1, states, head, lo);
    }

    method BuildOr(head: Ast) returns (entry: nat, out: Slot)
      requires |listit| == |states| && head.Or?
      modifies this`states, this`listit
      ensures Newest(head, old(|states|), entry, out)
      ensures states[..old(|states|)] == old(states) && listit[..old(|states|)] == old(listit)
      decreases head, 0, 1
    {
      ghost var lo := |states|;
      var leftStart, leftOut, rightStart, rightOut := BuildBoth(head);
      entry, out := Fork(head, lo, leftStart, leftOut, rightStart, rightOut);
    }

    /** rgxb_or after its two sides: the state in front of both, and one list of their exits. */
    method Fork(head: Ast, ghost lo: nat, leftStart: nat, leftOut: Slot, rightStart: nat, rightOut: Slot)
      returns (entry: nat, out: Slot)
      requires head.Or? && |listit| == |states| && Both(states, head, lo)
      requires leftStart == Entry(head.first, lo) && leftOut == Dangling(head.first, lo)[0]
      requires rightStart == Entry(head.second, lo + Size(head.first))
      requires rightOut == Dangling(head.second, lo + Size(head.first))[0]
      modifies this`states, this`listit
      ensures Fragment(states, head, lo) && entry == Entry(head, lo) && out == Dangling(head, lo)[0]
      ensures states[..lo] == old(states)[..lo] && listit == old(listit) + [-1] && |listit| == |states|
    {
      ghost var da, db := Dangling(head.first, lo), Dangling(head.second, lo + Size(head.first));
      ghost var g := states;
      entry := NewState(SPLIT, NO_CLASS, To(leftStart), To(rightStart));
      ThreadPrefix(g, states, da);
      ThreadPrefix(g, states, db);
      DanglingDistinct(head, lo);
      ghost var h := states;
      out := Join(leftOut, rightOut, da, db);
      OrBuilt(g, h, states, head, lo);
    }

    /** rgxb_sequence after its two sides: the exits of the left one lead to the right one. */
    method Chain(head: Ast, ghost lo: nat, leftOut: Slot, rightStart: nat)
      requires head.Sequence? && Both(states, head, lo) && leftOut == Dangling(head.first, lo)[0]
      requires rightStart == Entry(head.second, lo + Size(head.first))
      modifies this`states
      ensures Fragment(states, head, lo) && states[..lo] == old(states)[..lo] && |states| == |old(states)|
    {
      ghost var g := states;
      DanglingDistinct(head.first, lo);
      Patch(leftOut, rightStart, Dangling(head.first, lo));
      SequenceBuilt(g, states, head, lo);
    }

    method BuildSequence(head: Ast) returns (entry: nat, out: Slot)
      requires |listit| == |states| && head.Sequence?
      modifies this`states, this`listit
      ensures Newest(head, old(|states|), entry, out)
      ensures states[..old(|states|)] == old(states) && listit[..old(|states|)] == old(listit)
      decreases head, 0, 1
    {
      ghost var lo := |states|;
      var leftStart, leftOut, rightStart, rightOut := BuildBoth(head);
      Chain(head, lo, leftOut, rightStart);
      entry, out := leftStart, rightOut;
    }

    /** rgxb_repetition and rgxb_at_least_one differ only in where the fragment is entered. */
    method BuildLoop(head: Ast) returns (entry: nat, out: Slot)
      requires |listit| == |states| && (head.Repetition? || head.AtLeastOne?)
      modifies this`states, this`listit
      ensures Newest(head, old(|states|), entry, out)
      ensures states[..old(|states|)] == old(states) && listit[..old(|states|)] == old(listit)
      decreases head, 0
    {
      ghost var lo := |states|;
      var start, exits := Build(head.loop);
      ghost var g1 := states;
      var s := NewState(SPLIT, NO_CLASS, To(start), Null);
      ghost var g2 := states;
      ThreadPrefix(g1, g2, Dangling(head.loop, lo));
      DanglingDistinct(head.loop, lo);
      Patch(exits, s, Dangling(head.loop, lo));
      LoopBuilt(g1, g2, states, head, lo);
      out := Singleton(Slot(s, true));
      entry := if head.Repetition? then s else start;
    }

    method BuildOption(head: Ast) returns (entry: nat, out: Slot)
      requires |listit| == |states| && head.OneOrNone?
      modifies this`states, this`listit
      ensures Newest(head, old(|states|), entry, out)
      ensures states[..old(|states|)] == old(states) && listit[..old(|states|)] == old(listit)
      decreases head, 0
    {
      ghost var lo := |states|;
      var start, exits := Build(head.loop);
      ghost var g1 := states;
      entry := NewState(SPLIT, NO_CLASS, To(start), Null);
      ghost var g2 := states;
      ThreadPrefix(g1, g2, Dangling(head.loop, lo));
      var open := Singleton(Slot(entry, true));
      DanglingDistinct(head, lo);
      out := Join(exits, open, Dangling(head.loop, lo), [Slot(entry, true)]);
      OptionBuilt(g1, g2, states, head, lo);
    }

    ghost function Marked(): set<nat>
      reads this`listit, this`listgen
    {
      set i: nat | i < |listit| && listit[i] == listgen
    }

    ghost function Unmarked(): set<nat>
      reads this`listit, this`listgen
    {
      set i: nat | i < |listit| && listit[i] != listgen
    }

    /** The list holds, once each, the non-silent states marked in this generation (apart from `stale` marks). */
    ghost predicate Lists(list: StateList, stale: set<nat>)
      reads this`states, this`listit, this`listgen, list, list.mem
    {
      |listit| == |states| == list.mem.Length && list.ct <= list.mem.Length &&
      ListsExactly(states, list.Contents(), Marked(), stale)
    }

    /** rgx_add_state: mark a state and everything silently reachable from it, listing the non-silent ones. */
    method AddState(list: StateList, s: nat, ghost stale: set<nat>)
      requires Total(states) && s < |states| && Lists(list, stale) && stale <= Marked()
      requires HasMatch(states, Marked() - stale) ==> matched
      modifies this`listit, this`matched, list, list.mem
      ensures Lists(list, stale) && old(list.Contents()) <= list.Contents()
      ensures Spread(states, ignoreCase, old(Marked()), Marked(), s)
      ensures forall i :: 0 <= i < |listit| && listit[i] != listgen ==> listit[i] == old(listit[i])
      ensures matched == (old(matched) || HasMatch(states, Marked() - stale))
      decreases Unmarked()
    {
      ghost var before, unmarked := Marked(), Unmarked();
      if listit[s] == listgen {
        SpreadLeaf(states, ignoreCase, before, s);
        assert before + {s} == before;
        return;
      }
      listit := listit[s := listgen];
      assert Marked() == before + {s};
      assert Unmarked() == unmarked - {s};
      if states[s].c == SPLIT {
        ListsSilent(states, list.Contents(), before, stale, s);
        AddState(list, states[s].out.state, stale);
        ghost var between := Marked();
        AddState(list, states[s].outAlt.state, stale);
        SpreadSplit(states, ignoreCase, before, between, Marked(), s);
        return;
      } else if states[s].c == NONE {
        ListsSilent(states, list.Contents(), before, stale, s);
        AddState(list, states[s].out.state, stale);
        SpreadNone(states, ignoreCase, before, Marked(), s);
        return;
      }
      SpreadLeaf(states, ignoreCase, before, s);
      ListsOneMore(states, list.Contents(), before, stale, s);
      Append(list, s);
    }

    /** The last lines of rgx_add_state: a state that is not silent goes on the list. */
    method Append(list: StateList, s: nat)
      requires s < |states| && list.ct < list.mem.Length
      modifies this`matched, list, list.mem
      ensures list.ct <= list.mem.Length && list.Contents() == old(list.Contents()) + [s]
      ensures matched == (old(matched) || states[s].c == MATCH)
    {
      list.mem[list.ct] := s;
      list.ct := list.ct + 1;
      if states[s].c == MATCH {
        matched := true;
      }
    }

    /** The body of rgx_step's loop: follow one state of the current list if it can be left on `c`. */
    method StepFrom(next: StateList, s: nat, c: CChar, ghost all: seq<nat>, ghost i: nat)
      requires i < |all| && s == all[i] && s < |states| && !IsEpsilon(states[s])
      requires Total(states) && Sweeping(next, all[..i], c)
      modifies this`listit, this`matched, next, next.mem
      ensures Sweeping(next, all[..i + 1], c)
    {
      var pass := Test(states[s], c, ignoreCase);
      ghost var before := Marked();
      if pass {
        assert states[s].c != MATCH;
        assert before - {} == before;
        AddState(next, states[s].out.state, {});
        assert Marked() - {} == Marked();
        Followed(states, ignoreCase, all, i, c, before, Marked());
      } else {
        NotFollowed(states, ignoreCase, all, i, c, before);
      }
    }

    /** rgx_step: from the states reached by `w`, list those reached by `w` and one more character. */
    method Step(cur: StateList, next: StateList, c: CChar, ghost armed: bool, ghost w: CString)
      requires Total(states) && Running(cur, next, armed, w)
      modifies this`listit, this`listgen, this`matched, next, next.mem
      ensures Running(next, cur, armed, w + [c]) && listgen == old(listgen) + 1
      ensures matched <==> exists t :: t in next.Contents() && states[t].c == MATCH
    {
      listgen := listgen + 1;
      matched := false;
      next.ct := 0;
      var i := 0;
      ghost var all := cur.Contents();
      while i < cur.ct
        invariant i <= cur.ct && all == cur.Contents() && cur.ct == old(cur.ct)
        invariant listgen == old(listgen) + 1
        invariant Sweeping(next, all[..i], c)
      {
        var s := cur.mem[i];
        assert s == all[i] && s in all;
        StepFrom(next, s, c, all, i);
        i := i + 1;
      }
      assert all[..i] == all;
      StepsAreReads(all, armed, w, c);
    }

    /** Midway through a step: the states `us` of the current list have been dealt with. */
    ghost predicate Sweeping(next: StateList, us: seq<nat>, c: CChar)
      reads this, next, next.mem
    {
      Lists(next, {}) && Swept(states, ignoreCase, Marked(), us, c) && matched == HasMatch(states, Marked()) &&
      forall j :: 0 <= j < |listit| ==> listit[j] <= listgen
    }

    /** rgx_reset_all: forget which states were visited. */
    method ResetAll()
      modifies this`listit
      ensures |listit| == old(|listit|) && Uniform(listit, 0)
    {
      var i := 0;
      while i < |listit|
        invariant i <= |listit| == old(|listit|)
        invariant forall j :: 0 <= j < i ==> listit[j] == 0
      {
        listit := listit[i := 0];
        i := i + 1;
      }
    }

    /** What the current list holds once `w` has been read. */
    ghost predicate Holding(cur: StateList, armed: bool, w: CString)
      reads this`states, this`start, this`ignoreCase, cur, cur.mem
    {
      cur.ct <= cur.mem.Length &&
      forall t: nat :: t in cur.Contents() <==>
        armed && t < |states| && !IsEpsilon(states[t]) && CanReach(states, ignoreCase, start, w, t)
    }

    /** rgx_matches: the answer is right for every non-empty input, provided the marks are not stale. */
    method Matches(input: CString) returns (res: bool)
      requires Valid()
      modifies this`listit, this`listgen, this`matched
      ensures Valid()
      ensures res <==> old(Armed()) && input != [] && InLanguage(ast, input, ignoreCase)
      ensures listgen == old(listgen) + |input| && Uniform(listit, 0)
    {
      CompiledTotal(states, ast);
      var cur, next := Begin();
      ghost var armed := old(Armed());
      ghost var last := Sweep(cur, next, input, armed);
      res := matched;
      EndIsListed(last, armed, input);
      ResetAll();
    }

    /** The loop of rgx_matches: the two lists change places after each character. */
    method Sweep(first: StateList, second: StateList, input: CString, ghost armed: bool) returns (ghost last: StateList)
      requires Total(states) && Running(first, second, armed, []) && !matched
      modifies this`listit, this`listgen, this`matched, first, second, first.mem, second.mem
      ensures |listit| == |states| && Holding(last, armed, input) && listgen == old(listgen) + |input|
      ensures matched <==> input != [] && exists t :: t in last.Contents() && states[t].c == MATCH
    {
      var cur, next := first, second;
      var i := 0;
      while i < |input|
        invariant i <= |input| && {cur, next} == {first, second}
        invariant Running(cur, next, armed, input[..i]) && listgen == old(listgen) + i
        invariant matched <==> i > 0 && exists t :: t in cur.Contents() && states[t].c == MATCH
      {
        Step(cur, next, input[i], armed, input[..i]);
        assert input[..i] + [input[i]] == input[..i + 1];
        cur, next := next, cur;
        i := i + 1;
      }
      assert input[..i] == input;
      last := cur;
    }

    ghost predicate Running(cur: StateList, next: StateList, armed: bool, w: CString)
      reads this, cur, cur.mem
    {
      cur != next && cur.mem != next.mem && next.mem.Length == cur.mem.Length == |states| == |listit| &&
      (forall j :: 0 <= j < |listit| ==> listit[j] <= listgen) && Holding(cur, armed, w)
    }

    /** The opening lines of rgx_matches: two empty lists, and the closure of the start state in the first. */
    method Begin() returns (cur: StateList, next: StateList)
      requires Valid() && Total(states)
      modifies this`listit, this`matched
      ensures fresh({cur, next, cur.mem, next.mem})
      ensures Running(cur, next, old(Armed()), []) && !matched
    {
      cur := new StateList(|states|);
      next := new StateList(|states|);
      ghost var stale := Marked();
      AddState(cur, start, stale);
      FirstList(cur, stale, old(Armed()));
      matched := false;
    }

    /** The first closure, or the empty list when every state looks visited. */
    lemma FirstList(cur: StateList, stale: set<nat>, armed: bool)
      requires |listit| == |states| && start < |states| && Lists(cur, stale)
      requires armed ==> stale == {}
      requires !armed ==> forall t: nat :: t < |states| ==> t in stale
      requires Spread(states, ignoreCase, stale, Marked(), start)
      ensures Holding(cur, armed, [])
    {
      if armed {
        GrownByClosure(states, ignoreCase, {}, Marked(), start);
      }
    }

    /** Stepping from the states reached by `w` gives those reached by `w + [c]`. */
    lemma StepsAreReads(us: seq<nat>, armed: bool, w: CString, c: CChar)
      requires forall u: nat :: u in us <==>
        armed && u < |states| && !IsEpsilon(states[u]) && CanReach(states, ignoreCase, start, w, u)
      ensures forall t: nat :: StepsTo(states, ignoreCase, us, c, t) <==>
        armed && CanReach(states, ignoreCase, start, w + [c], t)
    {
      forall t: nat
        ensures StepsTo(states, ignoreCase, us, c, t) <==> armed && CanReach(states, ignoreCase, start, w + [c], t)
      {
        ReachOneMore(states, ignoreCase, start, w, c, t);
        if u: nat :| u in us && StepsFrom(states, ignoreCase, u, c, t) {
          assert ReachesOver(states, ignoreCase, start, w, c, u, t);
        }
        if u: nat :| armed && ReachesOver(states, ignoreCase, start, w, c, u, t) {
          assert u in us && StepsFrom(states, ignoreCase, u, c, t);
        }
      }
    }

    /** A MATCH state is listed exactly when the input is a word of the pattern. */
    lemma EndIsListed(cur: StateList, armed: bool, w: CString)
      requires Built() && Holding(cur, armed, w)
      ensures (exists t :: t in cur.Contents() && states[t].c == MATCH) <==> armed && InLanguage(ast, w, ignoreCase)
    {
      var k := |states| - 1;
      Spells(states, ast, k, w, ignoreCase);
      CompiledLeads(states, ast, 0, k);
      assert forall t :: 0 <= t < |states| && states[t].c == MATCH ==> t == k;
      assert k in cur.Contents() <==> armed && InLanguage(ast, w, ignoreCase);
    }
  }
}
