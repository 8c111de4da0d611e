/** The grammar of patterns in bytes, on its own: which texts stand for which trees, and that the parser agrees. */
module RegexTexts {
  import opened Wrappers
  import opened RegexSyntax
  import opened RegexParser
  import opened RegexPrinter

  // ---------------------------------------------------------------- the grammar

  /** Terms separated by bars (124). */
  ghost predicate PatternText(text: CString, ast: Ast)
    decreases |text|, 2, ast
  {
    if ast.Or? then
      exists i :: 0 <= i < |text| && text[i] == 124 && TermText(text[..i], ast.first) &&
        PatternText(text[i + 1..], ast.second)
    else
      TermText(text, ast)
  }

  /** Factors after each other; only the first one may begin with an operator, which then stands for itself. */
  ghost predicate TermText(text: CString, ast: Ast)
    decreases |text|, 1, ast
  {
    match ast
    case Blank => text == []
    case Sequence(a, b) =>
      exists i :: 0 <= i < |text| && TermText(text[..i], a) && FactorText(text[i..], b) &&
        (i == 0 || text[i] !in {42, 43, 63})
    case _ => false
  }

  /** A leaf, a factor and an operator (42, 43, 63), or a pattern in parentheses (40, 41). */
  ghost predicate FactorText(text: CString, ast: Ast)
    decreases |text|, 0, ast
  {
    match ast
    case Base(c) => CharText(text, c)
    case Class(cls) => NamedText(text, cls) || BracketText(text, cls)
    case Repetition(a) => Ended(text, 42) && FactorText(text[..|text| - 1], a)
    case AtLeastOne(a) => Ended(text, 43) && FactorText(text[..|text| - 1], a)
    case OneOrNone(a) => Ended(text, 63) && FactorText(text[..|text| - 1], a)
    case _ => |text| >= 2 && text[0] == 40 && Ended(text, 41) && PatternText(text[1..|text| - 1], ast)
  }

  predicate Ended(text: CString, c: int) { text != [] && text[|text| - 1] == c }

  /** An ordinary byte, the dot (46) for any, or a byte after the escape (92). */
  predicate CharText(text: CString, c: int) {
    (text == [46] && c == ANY) ||
    (|text| == 1 && text[0] == c && c !in {40, 41, 46, 91, 92, 124}) ||
    (|text| == 2 && text[0] == 92 && text[1] == c && c !in {68, 83, 87, 100, 115, 119})
  }

  /** The escapes d, s and w, and their complements D, S and W. */
  predicate NamedText(text: CString, cls: CharClass) {
    |text| == 2 && text[0] == 92 &&
    ((text[1] in {68, 100} && cls == CharClass(text[1] == 68, [ClassItem(48, 57)])) ||
     (text[1] in {83, 115} && cls == CharClass(text[1] == 83, Singles([32, 9, 10, 11, 12, 13]))) ||
     (text[1] in {87, 119} &&
      cls == CharClass(text[1] == 87,
                       [ClassItem(97, 122), ClassItem(65, 90), ClassItem(48, 57), ClassItem(95, -1)])))
  }

  function Singles(cs: seq<int>): seq<ClassItem> {
    seq(|cs|, i requires 0 <= i < |cs| => ClassItem(cs[i], -1))
  }

  /** Entries between brackets (91, 93), after a caret (94) if they are negated. */
  predicate BracketText(text: CString, cls: CharClass) {
    |text| >= 2 && text[0] == 91 && Ended(text, 93) && InnerText(text[1..|text| - 1], cls)
  }

  predicate InnerText(text: CString, cls: CharClass) {
    text != [] &&
    if text[0] == 94 then cls.negate && |text| >= 2 && EntryText(text[1], text[2..], cls.items)
    else !cls.negate && EntryText(text[0], text[1..], cls.items)
  }

  /** The entries that begin with `c`: a range if a dash (45) and any byte follow. */
  predicate EntryText(c: int, text: CString, items: seq<ClassItem>)
    decreases |text|, 1
  {
    items != [] &&
    if text == [] then items == [ClassItem(c, -1)]
    else if text[0] == 45 then
      |text| >= 2 && items[0] == ClassItem(c, text[1]) &&
      if |text| == 2 then |items| == 1 else NextText(text[2..], items[1..])
    else items[0] == ClassItem(c, -1) && NextText(text, items[1..])
  }

  /** The entries that begin with the first character of a text, which may be escaped. */
  predicate NextText(text: CString, items: seq<ClassItem>)
    decreases |text|, 0
  {
    text != [] &&
    if text[0] == 92 then |text| >= 2 && EntryText(text[1], text[2..], items)
    else text[0] != 93 && EntryText(text[0], text[1..], items)
  }

  // ---------------------------------------------------------------- the parser reads what the grammar says

  lemma {:induction false} EntryReads(done: seq<ClassItem>, c: int, text: CString, items: seq<ClassItem>,
                                      rest: CString, e: bool, o: bool)
    requires EntryText(c, text, items) && c != 0
    ensures var (all, last, q) := ItemsFrom(done, c, Cursor(text + ([93] + rest), e, o));
      Finished(all, last) == done + items && q == Cursor([93] + rest, e, o)
    decreases |text|, 1
  {
    var close: CString := [93] + rest;
    if text == [] {
      assert text + close == close;
    } else if text[0] == 45 {
      RangeReads(done, c, text, items, rest, e, o);
    } else {
      var more := done + [items[0]];
      NextReads(more, text, items[1..], rest, e, o);
      assert more + items[1..] == done + items;
    }
  }

  lemma {:induction false} RangeReads(done: seq<ClassItem>, c: int, text: CString, items: seq<ClassItem>,
                                      rest: CString, e: bool, o: bool)
    requires EntryText(c, text, items) && c != 0 && text != [] && text[0] == 45
    ensures var (all, last, q) := ItemsFrom(done, c, Cursor(text + ([93] + rest), e, o));
      Finished(all, last) == done + items && q == Cursor([93] + rest, e, o)
    decreases |text|, 0
  {
    var close: CString := [93] + rest;
    RangeOpens(done, c, text, rest, e, o);
    var more := done + [ClassItem(c, text[1])];
    if |text| == 2 {
      assert text[2..] + close == close && items == [items[0]];
    } else {
      NextReads(more, text[2..], items[1..], rest, e, o);
      assert more + items[1..] == done + items;
    }
  }

  lemma RangeOpens(done: seq<ClassItem>, c: int, text: CString, rest: CString, e: bool, o: bool)
    requires |text| >= 2 && text[0] == 45
    ensures var s := Cursor(text[2..] + ([93] + rest), e, o);
      var more := done + [ClassItem(c, text[1])];
      ItemsFrom(done, c, Cursor(text + ([93] + rest), e, o)) ==
        if Peek(s) == RIGHT then (more, 0, s) else var (_, d, t) := ClassNext(s); ItemsFrom(more, d, t)
  {
    var after := text[2..] + ([93] + rest);
    assert text + ([93] + rest) == [DASH] + ([text[1]] + after);
    RangeStep(done, c, text[1], after, e, o);
  }

  lemma {:induction false} NextReads(done: seq<ClassItem>, text: CString, items: seq<ClassItem>, rest: CString,
                                     e: bool, o: bool)
    requires NextText(text, items)
    ensures (text + ([93] + rest))[0] == text[0] != 93
    ensures var (escape, n, p) := ClassNext(Cursor(text + ([93] + rest), e, o));
      (text[0] != 45 ==> n != DASH || escape) &&
      var (all, last, q) := ItemsFrom(done, n, p);
      Finished(all, last) == done + items && q == Cursor([93] + rest, e, o)
    decreases |text|, 0
  {
    var close: CString := [93] + rest;
    if text[0] == 92 {
      var after := text[2..] + close;
      assert text + close == [ESCAPE] + ([text[1]] + after);
      Front(ESCAPE, [text[1]] + after, e, o);
      Front(text[1], after, e, o);
      EntryReads(done, text[1], text[2..], items, rest, e, o);
    } else {
      var after := text[1..] + close;
      assert text + close == [text[0]] + after;
      Front(text[0], after, e, o);
      EntryReads(done, text[0], text[1..], items, rest, e, o);
    }
  }

  lemma BracketReads(text: CString, cls: CharClass, rest: CString, e: bool, o: bool)
    requires BracketText(text, cls)
    ensures BaseAt(Cursor(text + rest, e, o)) == (Class(cls), Cursor(rest, e, o))
  {
    var inner := text[1..|text| - 1];
    var close: CString := [93] + rest;
    assert text + rest == [LEFT] + (inner + close);
    Front(LEFT, inner + close, e, o);
    InnerReads(inner, cls, rest, e, o);
    Front(RIGHT, rest, e, o);
  }

  lemma InnerReads(inner: CString, cls: CharClass, rest: CString, e: bool, o: bool)
    requires InnerText(inner, cls)
    ensures ClassAt(Cursor(inner + ([93] + rest), e, o)) == (cls, Cursor([93] + rest, e, o))
  {
    var close: CString := [93] + rest;
    var after := inner[1..] + close;
    assert inner + close == [inner[0]] + after;
    Front(inner[0], after, e, o);
    if inner[0] == 94 {
      assert after == [inner[1]] + (inner[2..] + close);
      Front(inner[1], inner[2..] + close, e, o);
      EntryReads([], inner[1], inner[2..], cls.items, rest, e, o);
    } else {
      EntryReads([], inner[0], inner[1..], cls.items, rest, e, o);
    }
    assert [] + cls.items == cls.items;
  }

  lemma LeafReads(text: CString, ast: Ast, rest: CString, e: bool, o: bool)
    requires ast.Base? || ast.Class?
    requires FactorText(text, ast)
    ensures BaseAt(Cursor(text + rest, e, o)) == (ast, Cursor(rest, e, o))
  {
    if ast.Class? && !NamedText(text, ast.cls) {
      BracketReads(text, ast.cls, rest, e, o);
    } else if |text| == 1 {
      assert text + rest == [text[0]] + rest;
      Front(text[0], rest, e, o);
    } else {
      assert text + rest == [ESCAPE] + ([text[1]] + rest);
      Front(ESCAPE, [text[1]] + rest, e, o);
      Front(text[1], rest, e, o);
      if ast.Class? {
        assert Singles([32, 9, 10, 11, 12, 13]) == SPACES;
      }
    }
  }

  /** A factor begins with nothing that ends a term. */
  lemma {:induction false} FactorBegins(text: CString, ast: Ast)
    requires FactorText(text, ast)
    ensures text != [] && text[0] !in {BAR, CLOSE}
    decreases |text|
  {
    if ast.Repetition? || ast.AtLeastOne? || ast.OneOrNone? {
      FactorBegins(text[..|text| - 1], ast.loop);
    }
  }

  lemma {:induction false} FactorReads(text: CString, ast: Ast, rest: CString, e: bool, o: bool)
    requires FactorText(text, ast)
    ensures FactorAt(Cursor(text + rest, e, o)) == FactorFrom(ast, Cursor(rest, e, o))
    decreases |text|, 1
  {
    if ast.Base? || ast.Class? {
      LeafReads(text, ast, rest, e, o);
    } else if ast.Repetition? || ast.AtLeastOne? || ast.OneOrNone? {
      var op := text[|text| - 1];
      assert text + rest == text[..|text| - 1] + ([op] + rest);
      FactorReads(text[..|text| - 1], ast.loop, [op] + rest, e, o);
      Front(op, rest, e, o);
    } else {
      GroupReads(text, ast, rest, e, o);
    }
  }

  lemma {:induction false} GroupReads(text: CString, ast: Ast, rest: CString, e: bool, o: bool)
    requires |text| >= 2 && text[0] == 40 && Ended(text, 41) && PatternText(text[1..|text| - 1], ast)
    ensures BaseAt(Cursor(text + rest, e, o)) == (ast, Cursor(rest, e, o))
    decreases |text|, 0
  {
    var inner := text[1..|text| - 1];
    var close: CString := [CLOSE] + rest;
    assert text + rest == [OPEN] + (inner + close);
    Front(OPEN, inner + close, e, o);
    PatternReads(inner, ast, close, e, o);
    Front(CLOSE, rest, e, o);
  }

  lemma {:induction false} TermReads(text: CString, ast: Ast, rest: CString, e: bool, o: bool)
    requires TermText(text, ast) && (rest == [] || !IsPostfix(rest[0]))
    ensures TermAt(Cursor(text + rest, e, o)) == TermFrom(ast, Cursor(rest, e, o))
    decreases |text|, 2, ast
  {
    if ast.Blank? {
      assert text + rest == rest;
    } else {
      var first, second := TermSplit(text, ast);
      assert text + rest == first + (second + rest);
      if first != [] {
        TermReads(first, ast.first, second + rest, e, o);
      } else {
        assert first + (second + rest) == second + rest;
      }
      FactorReads(second, ast.second, rest, e, o);
      TermTurn(ast.first, ast.second, second + rest, rest, e, o);
    }
  }

  lemma TermSplit(text: CString, ast: Ast) returns (first: CString, second: CString)
    requires TermText(text, ast) && ast.Sequence?
    ensures text == first + second && TermText(first, ast.first) && FactorText(second, ast.second)
    ensures second != [] && second[0] !in {BAR, CLOSE}
    ensures if first == [] then ast.first == Blank else !IsPostfix(second[0])
  {
    var i :| 0 <= i < |text| && TermText(text[..i], ast.first) && FactorText(text[i..], ast.second) &&
      (i == 0 || text[i] !in {42, 43, 63});
    first, second := text[..i], text[i..];
    FactorBegins(second, ast.second);
  }

  /** One turn of the term loop. */
  lemma TermTurn(acc: Ast, factor: Ast, tail: CString, rest: CString, e: bool, o: bool)
    requires tail != [] && tail[0] != BAR && tail[0] != CLOSE && (rest == [] || !IsPostfix(rest[0]))
    requires FactorAt(Cursor(tail, e, o)) == FactorFrom(factor, Cursor(rest, e, o))
    ensures TermFrom(acc, Cursor(tail, e, o)) == TermFrom(Sequence(acc, factor), Cursor(rest, e, o))
  {
    assert FactorFrom(factor, Cursor(rest, e, o)) == (factor, Cursor(rest, e, o));
  }

  lemma {:induction false} WholeTermReads(text: CString, ast: Ast, rest: CString, e: bool, o: bool)
    requires TermText(text, ast) && (rest == [] || rest[0] == CLOSE || rest[0] == BAR)
    ensures TermAt(Cursor(text + rest, e, o)) == (ast, Cursor(rest, e, o))
    decreases |text|, 3
  {
    TermReads(text, ast, rest, e, o);
  }

  lemma PatternSplit(text: CString, ast: Ast) returns (first: CString, second: CString)
    requires PatternText(text, ast) && ast.Or?
    ensures text == first + ([124] + second) && TermText(first, ast.first) && PatternText(second, ast.second)
  {
    var i :| 0 <= i < |text| && text[i] == 124 && TermText(text[..i], ast.first) &&
      PatternText(text[i + 1..], ast.second);
    first, second := text[..i], text[i + 1..];
    SplitAt(text, i);
  }

  lemma Regroup(text: CString, first: CString, second: CString, rest: CString)
    requires text == first + ([BAR] + second)
    ensures text + rest == first + ([BAR] + (second + rest)) && |second + rest| < |text + rest|
  {
  }

  lemma SplitAt(text: CString, i: nat)
    requires i < |text|
    ensures text == text[..i] + ([text[i]] + text[i + 1..])
  {
  }

  lemma {:induction false} PatternReads(text: CString, ast: Ast, rest: CString, e: bool, o: bool)
    requires PatternText(text, ast) && (rest == [] || rest[0] == CLOSE)
    ensures RegexAt(Cursor(text + rest, e, o)) == (ast, Cursor(rest, e, o))
    decreases |text|, 4
  {
    if ast.Or? {
      var first, second := PatternSplit(text, ast);
      WholeTermReads(first, ast.first, [BAR] + (second + rest), e, o);
      PatternReads(second, ast.second, rest, e, o);
      SidesRead(text, first, ast.first, second, ast.second, rest, e, o);
    } else {
      WholeTermReads(text, ast, rest, e, o);
      AloneParses(Cursor(text + rest, e, o), ast, Cursor(rest, e, o));
    }
  }

  lemma SidesRead(text: CString, first: CString, a: Ast, second: CString, b: Ast, rest: CString, e: bool, o: bool)
    requires text == first + ([BAR] + second)
    requires var bar: CString := [BAR] + (second + rest);
      TermAt(Cursor(first + bar, e, o)) == (a, Cursor(bar, e, o))
    requires RegexAt(Cursor(second + rest, e, o)) == (b, Cursor(rest, e, o))
    ensures RegexAt(Cursor(text + rest, e, o)) == (Or(a, b), Cursor(rest, e, o))
  {
    Regroup(text, first, second, rest);
    OrParses(Cursor(text + rest, e, o), a, second + rest, b, Cursor(rest, e, o));
  }

  // ---------------------------------------------------------------- what the parser reads is in the grammar

  predicate Clear(p: Cursor) { !p.error && !p.overrun }

  /** From `p` to `q` the parser consumed `text`, and what is clear now was so before. */
  predicate Takes(p: Cursor, text: CString, q: Cursor) {
    p.input == text + q.input && (Clear(q) ==> Clear(p))
  }

  lemma TakesOn(p: Cursor, t: CString, m: Cursor, u: CString, q: Cursor)
    requires Takes(p, t, m) && Takes(m, u, q)
    ensures Takes(p, t + u, q)
  {
  }

  lemma TakesNone(p: Cursor)
    ensures Takes(p, [], p)
  {
  }

  lemma EatenTakes(p: Cursor, c: int) returns (text: CString)
    ensures Takes(p, text, Eaten(p, c))
    ensures Clear(Eaten(p, c)) ==> text == [c] && c == Peek(p) && p.input != []
  {
    if Peek(p) != c || p.input == [] {
      text := [];
    } else {
      text := [c];
    }
  }

  lemma NextTakes(p: Cursor) returns (text: CString)
    ensures var (escape, n, q) := ClassNext(p);
      Takes(p, text, q) && (Clear(q) ==> IsNext(n, escape, text) && n == if escape then text[1] else Peek(p))
  {
    var c := Peek(p);
    var q := Eaten(p, c);
    text := EatenTakes(p, c);
    if c == ESCAPE {
      var more := EatenTakes(q, Peek(q));
      TakesOn(p, text, q, more, Eaten(q, Peek(q)));
      text := text + more;
    }
  }

  /** A class character as it is written. */
  predicate IsNext(n: int, escape: bool, text: CString) {
    -128 <= n < 128 && n != 0 && (escape || n != 92) && text == if escape then [92, n] else [n]
  }

  ghost predicate EntriesAdded(done: seq<ClassItem>, c: int, text: CString, all: seq<ClassItem>) {
    exists items :: all == done + items && EntryText(c, text, items)
  }

  /** From a pending `c`, the entries up to the closing bracket. */
  lemma {:induction false} ItemsDerive(done: seq<ClassItem>, c: int, p: Cursor) returns (text: CString)
    ensures var (all, last, q) := ItemsFrom(done, c, p);
      Takes(p, text, q) &&
      (Clear(q) && q.input != [] && c != 0 ==> Peek(q) == RIGHT && EntriesAdded(done, c, text, Finished(all, last)))
    decreases |p.input|, 1
  {
    if p.input == [] || Peek(p) == RIGHT {
      text := [];
      assert EntryText(c, text, [ClassItem(c, -1)]);
    } else {
      var (escape, n, m) := ClassNext(p);
      var next := NextTakes(p);
      if n == DASH && !escape {
        text := RangeDerives(done, c, m);
        TakesOn(p, next, m, text, AfterDash(done, c, m).2);
        text := next + text;
      } else {
        text := CharDerives(done, c, p, next);
      }
    }
  }

  lemma {:induction false} CharDerives(done: seq<ClassItem>, c: int, p: Cursor, next: CString) returns (text: CString)
    requires p.input != [] && Peek(p) != RIGHT
    requires var (escape, n, m) := ClassNext(p);
      (escape || n != DASH) && Takes(p, next, m) &&
      (Clear(m) ==> IsNext(n, escape, next) && n == if escape then next[1] else Peek(p))
    ensures var (_, n, m) := ClassNext(p);
      var (all, last, q) := ItemsFrom(done + [ClassItem(c, -1)], n, m);
      Takes(p, text, q) &&
      (Clear(q) && q.input != [] && c != 0 ==> Peek(q) == RIGHT && EntriesAdded(done, c, text, Finished(all, last)))
    decreases |p.input|, 0
  {
    var (escape, n, m) := ClassNext(p);
    var more := ItemsDerive(done + [ClassItem(c, -1)], n, m);
    var (all, last, q) := ItemsFrom(done + [ClassItem(c, -1)], n, m);
    TakesOn(p, next, m, more, q);
    text := next + more;
    if Clear(q) && q.input != [] && c != 0 {
      CharAdded(done, c, n, escape, next, more, Finished(all, last));
    }
  }

  /** What the parser makes of a range after its dash. */
  function AfterDash(done: seq<ClassItem>, c: int, m: Cursor): (seq<ClassItem>, int, Cursor) {
    var b := Peek(m);
    var s, more := Eaten(m, b), done + [ClassItem(c, b)];
    if Peek(s) == RIGHT then (more, 0, s) else var (_, d, t) := ClassNext(s); ItemsFrom(more, d, t)
  }

  lemma CharAdded(done: seq<ClassItem>, c: int, n: int, escape: bool, next: CString, text: CString,
                  all: seq<ClassItem>)
    requires IsNext(n, escape, next) && (escape || n !in {93, 45})
    requires EntriesAdded(done + [ClassItem(c, -1)], n, text, all)
    ensures EntriesAdded(done, c, next + text, all)
  {
    var items :| all == done + [ClassItem(c, -1)] + items && EntryText(n, text, items);
    NextOnto(n, escape, next, text, items);
    var now := [ClassItem(c, -1)] + items;
    assert now[1..] == items && all == done + now;
    assert EntryText(c, next + text, now);
  }

  lemma NextOnto(n: int, escape: bool, next: CString, text: CString, items: seq<ClassItem>)
    requires IsNext(n, escape, next) && (escape || n != 93) && EntryText(n, text, items)
    ensures NextText(next + text, items) && (next + text)[0] == next[0]
  {
    if escape {
      assert (next + text)[2..] == text && (next + text)[1] == n;
    } else {
      assert (next + text)[1..] == text;
    }
  }

  /** After the dash of a range. */
  lemma {:induction false} RangeDerives(done: seq<ClassItem>, c: int, m: Cursor) returns (text: CString)
    ensures var (all, last, q) := AfterDash(done, c, m);
      Takes(m, text, q) &&
      (Clear(q) && q.input != [] && c != 0 ==>
        Peek(q) == RIGHT && EntriesAdded(done, c, [DASH] + text, Finished(all, last)))
    decreases |m.input|, 3
  {
    var b := Peek(m);
    var s := Eaten(m, b);
    text := EatenTakes(m, b);
    if Peek(s) == RIGHT {
      if Clear(s) {
        assert EntryText(c, [DASH] + text, [ClassItem(c, b)]);
      }
    } else {
      var more := AfterRange(done + [ClassItem(c, b)], s);
      var (all, last, q) := AfterDash(done, c, m);
      TakesOn(m, text, s, more, q);
      text := text + more;
      if Clear(q) && q.input != [] && c != 0 {
        RangeAdded(done, c, b, more, Finished(all, last));
      }
    }
  }

  lemma {:induction false} AfterRange(done: seq<ClassItem>, s: Cursor) returns (text: CString)
    requires Peek(s) != RIGHT
    ensures var (_, d, t) := ClassNext(s);
      var (all, last, q) := ItemsFrom(done, d, t);
      Takes(s, text, q) &&
      (Clear(q) && q.input != [] ==> Peek(q) == RIGHT && NextAdded(done, text, Finished(all, last)))
    decreases |s.input|, 2
  {
    var (escape, d, t) := ClassNext(s);
    var (all, last, q) := ItemsFrom(done, d, t);
    var next := NextTakes(s);
    var more := ItemsDerive(done, d, t);
    TakesOn(s, next, t, more, q);
    text := next + more;
    if Clear(q) && q.input != [] {
      var items :| Finished(all, last) == done + items && EntryText(d, more, items);
      NextOnto(d, escape, next, more, items);
    }
  }

  ghost predicate NextAdded(done: seq<ClassItem>, text: CString, all: seq<ClassItem>) {
    exists items :: all == done + items && NextText(text, items)
  }

  lemma RangeAdded(done: seq<ClassItem>, c: int, b: CChar, text: CString, all: seq<ClassItem>)
    requires NextAdded(done + [ClassItem(c, b)], text, all)
    ensures EntriesAdded(done, c, [DASH] + ([b] + text), all)
  {
    var items :| all == done + [ClassItem(c, b)] + items && NextText(text, items);
    var now := [ClassItem(c, b)] + items;
    assert now[1..] == items && all == done + now;
    assert ([DASH] + ([b] + text))[2..] == text;
    assert EntryText(c, [DASH] + ([b] + text), now);
  }

  lemma ClassDerives(p: Cursor) returns (text: CString)
    ensures var (cls, q) := ClassAt(p);
      Takes(p, text, q) && (Clear(q) && q.input != [] ==> Peek(q) == RIGHT && InnerText(text, cls))
  {
    var c := Peek(p);
    var m := Eaten(p, c);
    text := EatenTakes(p, c);
    if c == CARET {
      var more := EntriesDerive(m);
      TakesOn(p, text, m, more, ClassAt(p).1);
      text := text + more;
      if Clear(ClassAt(p).1) && ClassAt(p).1.input != [] {
        assert text[1..] == more && text[2..] == more[1..];
      }
    } else {
      text := EntriesDerive(p);
    }
  }

  /** A class from its first entry on. */
  lemma EntriesDerive(p: Cursor) returns (text: CString)
    ensures var (all, last, q) := ItemsFrom([], Peek(p), Eaten(p, Peek(p)));
      Takes(p, text, q) &&
      (Clear(q) && q.input != [] ==>
        Peek(q) == RIGHT && text != [] && text[0] == Peek(p) && EntryText(text[0], text[1..], Finished(all, last)))
  {
    var c := Peek(p);
    var m := Eaten(p, c);
    var (all, last, q) := ItemsFrom([], c, m);
    text := EatenTakes(p, c);
    var more := ItemsDerive([], c, m);
    TakesOn(p, text, m, more, q);
    if Clear(q) && q.input != [] {
      var items :| Finished(all, last) == [] + items && EntryText(c, more, items);
      assert [] + items == items && (text + more)[1..] == more;
    }
    text := text + more;
  }

  lemma EscapeDerives(p: Cursor) returns (text: CString)
    requires Peek(p) == ESCAPE
    ensures var (ast, q) := BaseAt(p); Takes(p, text, q) && (Clear(q) ==> FactorText(text, ast))
  {
    var m := Eaten(p, ESCAPE);
    var e := Peek(m);
    var (ast, q) := BaseAt(p);
    text := EatenTakes(p, ESCAPE);
    var more := EatenTakes(m, e);
    TakesOn(p, text, m, more, q);
    text := text + more;
    if Clear(q) {
      assert text == [92, e] && Singles([32, 9, 10, 11, 12, 13]) == SPACES;
    }
  }

  lemma BracketDerives(p: Cursor) returns (text: CString)
    requires Peek(p) == LEFT
    ensures var (ast, q) := BaseAt(p); Takes(p, text, q) && (Clear(q) ==> FactorText(text, ast))
  {
    var m := Eaten(p, LEFT);
    var (cls, s) := ClassAt(m);
    var left := EatenTakes(p, LEFT);
    var inner := ClassDerives(m);
    var right := EatenTakes(s, RIGHT);
    text := Enclosed(p, left, m, inner, s, right, Eaten(s, RIGHT));
    if Clear(Eaten(s, RIGHT)) {
      assert text[1..|text| - 1] == inner;
    }
  }

  lemma Enclosed(p: Cursor, left: CString, m: Cursor, inner: CString, s: Cursor, right: CString, q: Cursor)
    returns (text: CString)
    requires Takes(p, left, m) && Takes(m, inner, s) && Takes(s, right, q)
    ensures Takes(p, text, q) && text == left + inner + right
  {
    TakesOn(p, left, m, inner, s);
    TakesOn(p, left + inner, s, right, q);
    text := left + inner + right;
  }

  lemma {:induction false} GroupDerives(p: Cursor) returns (text: CString)
    requires Peek(p) == OPEN
    ensures var (ast, q) := BaseAt(p); Takes(p, text, q) && (Clear(q) ==> FactorText(text, ast))
    decreases |p.input|, 0
  {
    var m := Eaten(p, OPEN);
    var (ast, s) := RegexAt(m);
    var left := EatenTakes(p, OPEN);
    var inner := RegexDerives(m);
    var right := EatenTakes(s, CLOSE);
    text := Enclosed(p, left, m, inner, s, right, Eaten(s, CLOSE));
    if Clear(Eaten(s, CLOSE)) {
      assert text[1..|text| - 1] == inner;
    }
  }

  lemma {:induction false} BaseDerives(p: Cursor) returns (text: CString)
    requires p.input != [] && Peek(p) != BAR && Peek(p) != CLOSE
    ensures var (ast, q) := BaseAt(p); Takes(p, text, q) && (Clear(q) ==> FactorText(text, ast))
    decreases |p.input|, 1
  {
    if Peek(p) == OPEN {
      text := GroupDerives(p);
    } else if Peek(p) == ESCAPE {
      text := EscapeDerives(p);
    } else if Peek(p) == LEFT {
      text := BracketDerives(p);
    } else {
      text := EatenTakes(p, Peek(p));
    }
  }

  lemma {:induction false} PostfixDerives(base: Ast, p: Cursor, before: CString) returns (text: CString)
    ensures var (ast, q) := FactorFrom(base, p);
      Takes(p, text, q) && (q.input == [] || !IsPostfix(Peek(q))) &&
      (FactorText(before, base) ==> FactorText(before + text, ast))
    decreases |p.input|
  {
    if p.input != [] && IsPostfix(Peek(p)) {
      var c := Peek(p);
      var m := Eaten(p, c);
      var op: CString := [c];
      assert p.input == op + m.input;
      OneMoreOperator(base, c, before);
      text := PostfixDerives(Postfix(c, base), m, before + op);
      assert before + op + text == before + (op + text);
      TakesOn(p, op, m, text, FactorFrom(base, p).1);
      text := op + text;
    } else {
      text := [];
      assert before + [] == before;
    }
  }

  lemma OneMoreOperator(base: Ast, c: CChar, before: CString)
    requires IsPostfix(c)
    ensures FactorText(before, base) ==> FactorText(before + [c], Postfix(c, base))
  {
    assert (before + [c])[..|before + [c]| - 1] == before;
  }

  lemma {:induction false} FactorDerives(p: Cursor) returns (text: CString)
    requires p.input != [] && Peek(p) != BAR && Peek(p) != CLOSE
    ensures var (ast, q) := FactorAt(p);
      Takes(p, text, q) && (q.input == [] || !IsPostfix(Peek(q))) && (Clear(q) ==> FactorText(text, ast))
    decreases |p.input|, 2
  {
    var (base, m) := BaseAt(p);
    text := BaseDerives(p);
    var more := PostfixDerives(base, m, text);
    TakesOn(p, text, m, more, FactorFrom(base, m).1);
    text := text + more;
  }

  lemma {:induction false} TermDerives(acc: Ast, p: Cursor, before: CString) returns (text: CString)
    requires before == [] || p.input == [] || !IsPostfix(Peek(p))
    ensures var (ast, q) := TermFrom(acc, p);
      Takes(p, text, q) && (q.input == [] || Peek(q) == BAR || Peek(q) == CLOSE) &&
      (Clear(q) && TermText(before, acc) ==> TermText(before + text, ast))
    decreases |p.input|, 3
  {
    if p.input == [] || Peek(p) == BAR || Peek(p) == CLOSE {
      text := [];
      assert before + [] == before;
    } else {
      var (factor, m) := FactorAt(p);
      var first := FactorDerives(p);
      var more := TermDerives(Sequence(acc, factor), m, before + first);
      text := first + more;
      TakesOn(p, first, m, more, TermFrom(acc, p).1);
      Reassociated(before, first, more);
      if Clear(m) && TermText(before, acc) {
        FactorFirst(p, first, m, factor);
        OneMoreFactor(acc, factor, before, first);
      }
    }
  }

  lemma Reassociated(a: CString, b: CString, c: CString)
    ensures a + b + c == a + (b + c)
  {
  }

  lemma FactorFirst(p: Cursor, text: CString, q: Cursor, factor: Ast)
    requires Takes(p, text, q) && FactorText(text, factor)
    ensures text != [] && p.input != [] && text[0] == Peek(p)
  {
    FactorBegins(text, factor);
  }

  lemma OneMoreFactor(acc: Ast, factor: Ast, before: CString, text: CString)
    requires TermText(before, acc) && FactorText(text, factor)
    requires before == [] || text == [] || !IsPostfix(text[0])
    ensures TermText(before + text, Sequence(acc, factor))
  {
    FactorBegins(text, factor);
    var all := before + text;
    assert all[..|before|] == before && all[|before|..] == text;
  }

  lemma {:induction false} RegexDerives(p: Cursor) returns (text: CString)
    ensures var (ast, q) := RegexAt(p);
      Takes(p, text, q) && (q.input == [] || Peek(q) == CLOSE) && (Clear(q) ==> PatternText(text, ast))
    decreases |p.input|, 6
  {
    var (term, m) := TermFrom(Blank, p);
    text := TermDerives(Blank, p, []);
    assert [] + text == text;
    if m.input != [] && Peek(m) == BAR {
      text := BarDerives(p, term, m, text);
    }
  }

  lemma {:induction false} BarDerives(p: Cursor, term: Ast, m: Cursor, first: CString) returns (text: CString)
    requires TermAt(p) == (term, m) && m.input != [] && Peek(m) == BAR
    requires Takes(p, first, m) && (Clear(m) ==> TermText(first, term))
    ensures var (ast, q) := RegexAt(p);
      Takes(p, text, q) && (q.input == [] || Peek(q) == CLOSE) && (Clear(q) ==> PatternText(text, ast))
    decreases |m.input|, 5
  {
    var s := Eaten(m, BAR);
    var bar: CString := [BAR];
    assert m.input == bar + s.input;
    var second := RegexDerives(s);
    var (rest, q) := RegexAt(s);
    text := Enclosed(p, first, m, bar, s, second, q);
    if Clear(q) {
      OrJoined(first, term, second, rest);
    }
  }

  lemma OrJoined(first: CString, a: Ast, second: CString, b: Ast)
    requires TermText(first, a) && PatternText(second, b)
    ensures PatternText(first + [124] + second, Or(a, b))
  {
    var all := first + [124] + second;
    assert all[..|first|] == first && all[|first|] == 124 && all[|first| + 1..] == second;
  }

  // ---------------------------------------------------------------- the parser and the grammar

  /** A pattern parses to a tree, with all of its text consumed and no error, exactly if the grammar says that the text
      stands for the tree. */
  lemma GrammarExactly(text: CString, ast: Ast)
    ensures Parsed(text) == (ast, Cursor([], false, false)) <==> PatternText(text, ast)
  {
    if PatternText(text, ast) {
      PatternReads(text, ast, [], false, false);
      assert text + [] == text;
    }
    var taken := RegexDerives(Cursor(text, false, false));
    if Parsed(text) == (ast, Cursor([], false, false)) {
      assert taken + [] == taken;
    }
  }

  /** So no text stands for two trees. */
  lemma Unambiguous(text: CString, a: Ast, b: Ast)
    requires PatternText(text, a) && PatternText(text, b)
    ensures a == b
  {
    GrammarExactly(text, a);
    GrammarExactly(text, b);
  }

  lemma FactorAlone(text: CString, factor: Ast)
    requires FactorText(text, factor)
    ensures Parsed(text) == (Sequence(Blank, factor), Cursor([], false, false))
  {
    FactorIsTerm(text, factor);
    GrammarExactly(text, Sequence(Blank, factor));
  }

  lemma FactorIsTerm(text: CString, factor: Ast)
    requires FactorText(text, factor)
    ensures TermText(text, Sequence(Blank, factor)) && PatternText(text, Sequence(Blank, factor))
  {
    FactorBegins(text, factor);
    assert text[..0] == [] && text[0..] == text && TermText([], Blank);
  }

  /** What the operators make of ordinary bytes. */
  lemma OperatorsRead(x: CChar, y: CChar)
    requires {x, y} !! {40, 41, 42, 43, 46, 63, 91, 92, 124}
    ensures var end := Cursor([], false, false);
      Parsed([x]) == (Sequence(Blank, Base(x)), end) && Parsed([46]) == (Sequence(Blank, Base(ANY)), end) &&
      Parsed([x, 42]) == (Sequence(Blank, Repetition(Base(x))), end) &&
      Parsed([x, 43]) == (Sequence(Blank, AtLeastOne(Base(x))), end) &&
      Parsed([x, 63]) == (Sequence(Blank, OneOrNone(Base(x))), end) &&
      Parsed([x, 124, y]) == (Or(Sequence(Blank, Base(x)), Sequence(Blank, Base(y))), end) &&
      Parsed([40, x, 41]) == (Sequence(Blank, Sequence(Blank, Base(x))), end)
  {
    FactorAlone([x], Base(x));
    FactorAlone([46], Base(ANY));
    OperatorReads(x, 42);
    OperatorReads(x, 43);
    OperatorReads(x, 63);
    BarReads(x, y);
    GroupOfOne(x);
  }

  lemma BarReads(x: CChar, y: CChar)
    requires {x, y} !! {40, 41, 42, 43, 46, 63, 91, 92, 124}
    ensures Parsed([x, 124, y]) == (Or(Sequence(Blank, Base(x)), Sequence(Blank, Base(y))), Cursor([], false, false))
  {
    var a, b := Sequence(Blank, Base(x)), Sequence(Blank, Base(y));
    FactorIsTerm([x], Base(x));
    FactorIsTerm([y], Base(y));
    OrJoined([x], a, [y], b);
    assert [x] + [124] + [y] == [x, 124, y];
    GrammarExactly([x, 124, y], Or(a, b));
  }

  lemma GroupOfOne(x: CChar)
    requires x !in {40, 41, 42, 43, 46, 63, 91, 92, 124}
    ensures Parsed([40, x, 41]) == (Sequence(Blank, Sequence(Blank, Base(x))), Cursor([], false, false))
  {
    FactorIsTerm([x], Base(x));
    assert [40, x, 41][1..2] == [x];
    FactorAlone([40, x, 41], Sequence(Blank, Base(x)));
  }

  lemma OperatorReads(x: CChar, op: CChar)
    requires x !in {40, 41, 42, 43, 46, 63, 91, 92, 124} && op in {42, 43, 63}
    ensures Parsed([x, op]) == (Sequence(Blank, Postfix(op, Base(x))), Cursor([], false, false))
  {
    assert [x, op][..1] == [x];
    FactorAlone([x, op], Postfix(op, Base(x)));
  }

  /** Any byte but the six letters stands for itself after a backslash. */
  lemma EscapedByte(e: CChar)
    requires e !in {68, 83, 87, 100, 115, 119}
    ensures Parsed([92, e]) == (Sequence(Blank, Base(e)), Cursor([], false, false))
  {
    FactorAlone([92, e], Base(e));
  }

  /** The bytes that the escapes d, s, w stand for, and D, S, W for all others. */
  predicate Named(e: CChar, c: CChar)
    decreases 128 - e
  {
    if e in {68, 83, 87} then !Named(e + 32, c)
    else if e == 100 then 48 <= c <= 57
    else if e == 115 then c == 32 || 9 <= c <= 13
    else 97 <= c <= 122 || 65 <= c <= 90 || 48 <= c <= 57 || c == 95
  }

  lemma EscapedLetter(e: CChar, w: CString, ignoreCase: bool)
    requires e in {68, 83, 87, 100, 115, 119}
    ensures Parsed([92, e]).1 == Cursor([], false, false)
    ensures InLanguage(Parsed([92, e]).0, w, ignoreCase) <==> |w| == 1 && Named(e, w[0])
  {
    var cls := Predefined(e).value;
    assert Singles([32, 9, 10, 11, 12, 13]) == SPACES;
    FactorAlone([92, e], Class(cls));
    assert w[0..] == w && w[..0] == [];
    forall i | 0 <= i <= |w| && InLanguage(Blank, w[..i], ignoreCase) ensures i == 0 {
      assert |w[..i]| == i;
    }
    assert InLanguage(Parsed([92, e]).0, w, ignoreCase) <==> InLanguage(Class(cls), w, ignoreCase);
    if |w| == 1 {
      NamedHas(e, w[0]);
    }
  }

  lemma NamedHas(e: CChar, c: CChar)
    requires e in {68, 83, 87, 100, 115, 119}
    ensures Predefined(e).value.Has(c) <==> Named(e, c)
  {
    var items := Predefined(e).value.items;
    if e in {68, 100} {
      assert items[0].Has(c) <==> 48 <= c <= 57;
    } else if e in {83, 115} {
      assert items[0].Has(c) <==> c == 32;
      assert forall i :: 1 <= i < 6 ==> (items[i].Has(c) <==> c == i + 8);
      assert 9 <= c <= 13 ==> items[c - 8].Has(c);
    } else {
      assert items[0].Has(c) <==> 97 <= c <= 122;
      assert items[1].Has(c) <==> 65 <= c <= 90;
      assert items[2].Has(c) <==> 48 <= c <= 57;
      assert items[3].Has(c) <==> c == 95;
    }
  }
}
