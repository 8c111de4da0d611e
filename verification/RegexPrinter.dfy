/** Writing a pattern back as text: parsing inverts printing, and every parsed pattern can be printed. */
module RegexPrinter {
  import opened Wrappers
  import opened RegexSyntax
  import opened RegexParser

  // ---------------------------------------------------------------- the shape of parsed patterns

  /** A left-nested sequence of factors that starts with a blank. */
  predicate IsTerm(ast: Ast)
    decreases ast, 0
  {
    match ast
    case Blank => true
    case Sequence(a, b) => IsTerm(a) && IsFactor(b)
    case _ => false
  }

  /** A leaf, a factor under a postfix operator, or a parenthesised pattern. */
  predicate IsFactor(ast: Ast)
    decreases ast, 0
  {
    match ast
    case Base(_) => true
    case Class(_) => true
    case Repetition(a) => IsFactor(a)
    case AtLeastOne(a) => IsFactor(a)
    case OneOrNone(a) => IsFactor(a)
    case Blank => true
    case Sequence(a, b) => IsTerm(a) && IsFactor(b)
    case Or(a, b) => IsTerm(a) && IsPattern(b)
  }

  /** Terms separated by bars. */
  predicate IsPattern(ast: Ast)
    decreases ast, 1
  {
    if ast.Or? then IsTerm(ast.first) && IsPattern(ast.second) else IsTerm(ast)
  }

  /** Leaves with a textual form: characters, any, the six named classes, and bracket classes. */
  predicate Writable(ast: Ast) {
    match ast
    case Or(a, b) => Writable(a) && Writable(b)
    case Sequence(a, b) => Writable(a) && Writable(b)
    case Base(c) => -128 <= c < 128 && c != 0
    case Class(cls) => ClassLetter(cls).Some? || Bracketed(cls)
    case Repetition(a) => Writable(a)
    case AtLeastOne(a) => Writable(a)
    case OneOrNone(a) => Writable(a)
    case Blank => true
  }

  function ClassLetter(cls: CharClass): (r: Option<CChar>)
    ensures r.Some? ==> Predefined(r.value) == Some(cls)
  {
    if cls == CharClass(false, DIGITS) then Some('d' as int)
    else if cls == CharClass(true, DIGITS) then Some('D' as int)
    else if cls == CharClass(false, SPACES) then Some('s' as int)
    else if cls == CharClass(true, SPACES) then Some('S' as int)
    else if cls == CharClass(false, WORDS) then Some('w' as int)
    else if cls == CharClass(true, WORDS) then Some('W' as int)
    else None
  }

  /** A character, or a range; with an end above 127 it stands for its first character alone, but keeps that end. */
  predicate PlainItem(item: ClassItem) {
    -128 <= item.a < 128 && item.a != 0 && -128 <= item.b < 128 && item.b != 0
  }

  predicate PlainItems(items: seq<ClassItem>) {
    forall i :: 0 <= i < |items| ==> PlainItem(items[i])
  }

  /** What can be written between brackets; a leading caret would negate. */
  predicate Bracketed(cls: CharClass) {
    cls.items != [] && PlainItems(cls.items) && (cls.negate || cls.items[0].a != CARET)
  }

  // ---------------------------------------------------------------- printing

  predicate NeedsEscape(c: int) {
    c in {BAR, OPEN, CLOSE, STAR, PLUS, QUERY, ESCAPE, DOT, LEFT}
  }

  /** The end of a range, if it is one, in front of `tail`. */
  function RangeText(item: ClassItem, tail: CString): CString
    requires PlainItem(item)
  {
    if item.b == -1 then tail else [DASH] + ([item.b] + tail)
  }

  /** All items but the first of a class, whose special characters are escaped, in front of `tail`. */
  function ItemsText(items: seq<ClassItem>, tail: CString): CString
    requires PlainItems(items)
  {
    if items == [] then tail
    else
      var after := RangeText(items[0], ItemsText(items[1..], tail));
      if items[0].a in {RIGHT, DASH, ESCAPE} then [ESCAPE] + ([items[0].a] + after) else [items[0].a] + after
  }

  /** A class and its closing bracket. The first character is never taken for an escape. */
  function ClassText(cls: CharClass, tail: CString): CString
    requires Bracketed(cls)
  {
    var body := [cls.items[0].a] + AfterChar(cls.items[0], cls.items[1..], tail);
    if cls.negate then [CARET] + body else body
  }

  /** What comes after the character of an item. */
  function AfterChar(item: ClassItem, items: seq<ClassItem>, tail: CString): CString
    requires PlainItem(item) && PlainItems(items)
  {
    RangeText(item, ItemsText(items, [RIGHT] + tail))
  }

  function PrintPattern(ast: Ast): CString
    requires IsPattern(ast) && Writable(ast)
    decreases ast, 1
  {
    if ast.Or? then PrintTerm(ast.first) + [BAR] + PrintPattern(ast.second) else PrintTerm(ast)
  }

  function PrintTerm(ast: Ast): CString
    requires IsTerm(ast) && Writable(ast)
    decreases ast, 0
  {
    if ast.Blank? then [] else PrintTerm(ast.first) + PrintFactor(ast.second)
  }

  function PrintFactor(ast: Ast): CString
    requires IsFactor(ast) && Writable(ast)
    decreases ast, 2
  {
    match ast
    case Base(c) => if c == ANY then [DOT] else if NeedsEscape(c) then [ESCAPE, c] else [c]
    case Class(cls) => if ClassLetter(cls).Some? then [ESCAPE, ClassLetter(cls).value] else [LEFT] + ClassText(cls, [])
    case Repetition(a) => PrintFactor(a) + [STAR]
    case AtLeastOne(a) => PrintFactor(a) + [PLUS]
    case OneOrNone(a) => PrintFactor(a) + [QUERY]
    case _ => [OPEN] + PrintPattern(ast) + [CLOSE]
  }

  // ---------------------------------------------------------------- parsing what was printed

  /** No printed factor can be mistaken for the end of a term or for a postfix operator. */
  lemma {:induction false} FactorStart(ast: Ast)
    requires IsFactor(ast) && Writable(ast)
    ensures var text := PrintFactor(ast);
      text != [] && text[0] != BAR && text[0] != CLOSE && !IsPostfix(text[0])
  {
    match ast
    case Repetition(a) => FactorStart(a);
    case AtLeastOne(a) => FactorStart(a);
    case OneOrNone(a) => FactorStart(a);
    case _ =>
  }

  /** The items that the parser has when a class ends with `last` pending. */
  function Finished(items: seq<ClassItem>, last: int): seq<ClassItem> {
    if last != 0 then items + [ClassItem(last, -1)] else items
  }

  lemma Front(x: CChar, tail: CString, e: bool, o: bool)
    ensures var p := Cursor([x] + tail, e, o); Peek(p) == x && Eaten(p, x) == Cursor(tail, e, o)
  {
    assert ([x] + tail)[1..] == tail;
  }

  lemma CharParses(items: seq<ClassItem>, tail: CString, e: bool, o: bool)
    requires PlainItems(items) && items != []
    ensures var text := ItemsText(items, tail);
      text != [] && text[0] != RIGHT &&
      var (escape, n, q) := ClassNext(Cursor(text, e, o));
      n == items[0].a && (n == DASH ==> escape) && q == Cursor(RangeText(items[0], ItemsText(items[1..], tail)), e, o)
  {
    var after := RangeText(items[0], ItemsText(items[1..], tail));
    Front(items[0].a, after, e, o);
    Front(ESCAPE, [items[0].a] + after, e, o);
  }

  /** A range, read after its first character. */
  lemma RangeStep(done: seq<ClassItem>, c: int, b: CChar, tail: CString, e: bool, o: bool)
    ensures var p, s := Cursor([DASH] + ([b] + tail), e, o), Cursor(tail, e, o);
      var more := done + [ClassItem(c, b)];
      ItemsFrom(done, c, p) ==
        if Peek(s) == RIGHT then (more, 0, s) else var (_, d, t) := ClassNext(s); ItemsFrom(more, d, t)
  {
    Front(DASH, [b] + tail, e, o);
    Front(b, tail, e, o);
  }

  /** Printed items are read back, one after the other. */
  lemma {:induction false} ItemsParse(done: seq<ClassItem>, item: ClassItem, items: seq<ClassItem>, rest: CString,
                                      e: bool, o: bool)
    requires PlainItem(item) && PlainItems(items)
    ensures var (all, last, q) := ItemsFrom(done, item.a, Cursor(AfterChar(item, items, rest), e, o));
      Finished(all, last) == done + [item] + items && q == Cursor([RIGHT] + rest, e, o)
    decreases |items|
  {
    var tail := ItemsText(items, [RIGHT] + rest);
    if item.b != -1 {
      RangeStep(done, item.a, item.b, tail, e, o);
    }
    assert item == ClassItem(item.a, item.b);
    if items == [] {
      assert done + [item] + items == done + [item];
    } else {
      CharParses(items, [RIGHT] + rest, e, o);
      ItemsParse(done + [item], items[0], items[1..], rest, e, o);
      JoinItems(done + [item], items);
    }
  }

  lemma JoinItems(done: seq<ClassItem>, items: seq<ClassItem>)
    requires items != []
    ensures done + [items[0]] + items[1..] == done + items
  {
  }

  /** So is a whole class, with its negation and every range. */
  lemma ClassParses(cls: CharClass, rest: CString, e: bool, o: bool)
    requires Bracketed(cls)
    ensures ClassAt(Cursor(ClassText(cls, rest), e, o)) == (cls, Cursor([RIGHT] + rest, e, o))
  {
    var first, more := cls.items[0], cls.items[1..];
    var after := AfterChar(first, more, rest);
    ItemsParse([], first, more, rest, e, o);
    assert [] + [first] + more == cls.items;
    Front(first.a, after, e, o);
    Front(CARET, [first.a] + after, e, o);
  }

  lemma {:induction false} ItemsTail(items: seq<ClassItem>, s: CString, t: CString)
    requires PlainItems(items)
    ensures ItemsText(items, s) + t == ItemsText(items, s + t)
  {
    if items != [] {
      ItemsTail(items[1..], s, t);
      RangeTail(items[0], ItemsText(items[1..], s), t);
      var after := RangeText(items[0], ItemsText(items[1..], s));
      FrontTail(items[0].a, after, t);
      FrontTail(ESCAPE, [items[0].a] + after, t);
    }
  }

  lemma FrontTail(x: CChar, s: CString, t: CString)
    ensures ([x] + s) + t == [x] + (s + t)
  {
  }

  lemma RangeTail(item: ClassItem, s: CString, t: CString)
    requires PlainItem(item)
    ensures RangeText(item, s) + t == RangeText(item, s + t)
  {
    if item.b != -1 {
      FrontTail(item.b, s, t);
      FrontTail(DASH, [item.b] + s, t);
    }
  }

  lemma ClassTail(cls: CharClass, rest: CString)
    requires Bracketed(cls)
    ensures [LEFT] + ClassText(cls, []) + rest == [LEFT] + ClassText(cls, rest)
  {
    var first, more := cls.items[0], cls.items[1..];
    FrontTail(RIGHT, [], rest);
    ItemsTail(more, [RIGHT] + [], rest);
    assert [] + rest == rest;
    RangeTail(first, ItemsText(more, [RIGHT] + []), rest);
    var after := AfterChar(first, more, []);
    FrontTail(first.a, after, rest);
    FrontTail(CARET, [first.a] + after, rest);
    FrontTail(LEFT, ClassText(cls, []), rest);
  }

  lemma LeafParses(ast: Ast, rest: CString, e: bool, o: bool)
    requires ast.Base? || ast.Class?
    requires Writable(ast)
    ensures BaseAt(Cursor(PrintFactor(ast) + rest, e, o)) == (ast, Cursor(rest, e, o))
  {
    if ast.Class? && ClassLetter(ast.cls).None? {
      BracketParses(ast.cls, rest, e, o);
    } else {
      var text := PrintFactor(ast);
      if |text| == 2 {
        assert text + rest == [ESCAPE] + ([text[1]] + rest);
        Front(ESCAPE, [text[1]] + rest, e, o);
        Front(text[1], rest, e, o);
      } else {
        assert text + rest == [text[0]] + rest;
        Front(text[0], rest, e, o);
      }
    }
  }

  lemma BracketParses(cls: CharClass, rest: CString, e: bool, o: bool)
    requires Bracketed(cls)
    ensures BaseAt(Cursor([LEFT] + ClassText(cls, []) + rest, e, o)) == (Class(cls), Cursor(rest, e, o))
  {
    ClassTail(cls, rest);
    Front(LEFT, ClassText(cls, rest), e, o);
    ClassParses(cls, rest, e, o);
    Front(RIGHT, rest, e, o);
  }

  lemma {:induction false} FactorParses(ast: Ast, rest: CString, e: bool, o: bool)
    requires IsFactor(ast) && Writable(ast)
    ensures FactorAt(Cursor(PrintFactor(ast) + rest, e, o)) == FactorFrom(ast, Cursor(rest, e, o))
    decreases ast, 2
  {
    match ast
    case Base(_) => LeafParses(ast, rest, e, o);
    case Class(_) => LeafParses(ast, rest, e, o);
    case Repetition(a) => PostfixParses(a, STAR, rest, e, o);
    case AtLeastOne(a) => PostfixParses(a, PLUS, rest, e, o);
    case OneOrNone(a) => PostfixParses(a, QUERY, rest, e, o);
    case _ => GroupParses(ast, rest, e, o);
  }

  lemma {:induction false} PostfixParses(a: Ast, op: CChar, rest: CString, e: bool, o: bool)
    requires IsFactor(a) && Writable(a) && IsPostfix(op)
    ensures FactorAt(Cursor(PrintFactor(a) + [op] + rest, e, o)) == FactorFrom(Postfix(op, a), Cursor(rest, e, o))
    decreases a, 3
  {
    var tail := [op] + rest;
    assert PrintFactor(a) + [op] + rest == PrintFactor(a) + tail;
    FactorParses(a, tail, e, o);
    assert tail[1..] == rest;
  }

  lemma {:induction false} GroupParses(ast: Ast, rest: CString, e: bool, o: bool)
    requires IsPattern(ast) && IsFactor(ast) && Writable(ast)
    ensures BaseAt(Cursor([OPEN] + PrintPattern(ast) + [CLOSE] + rest, e, o)) == (ast, Cursor(rest, e, o))
    decreases ast, 1, 2
  {
    var text := [OPEN] + PrintPattern(ast) + [CLOSE] + rest;
    var tail := [CLOSE] + rest;
    assert text[1..] == PrintPattern(ast) + tail;
    PatternParses(ast, tail, e, o);
    assert tail[1..] == rest;
  }

  lemma {:induction false} TermParses(ast: Ast, rest: CString, e: bool, o: bool)
    requires IsTerm(ast) && Writable(ast)
    requires rest == [] || !IsPostfix(rest[0])
    ensures TermAt(Cursor(PrintTerm(ast) + rest, e, o)) == TermFrom(ast, Cursor(rest, e, o))
    decreases ast, 0
  {
    if ast.Blank? {
      assert PrintTerm(ast) + rest == rest;
    } else {
      LastFactor(ast, rest);
      TermParses(ast.first, PrintFactor(ast.second) + rest, e, o);
      TermStep(ast.first, ast.second, rest, e, o);
    }
  }

  lemma LastFactor(ast: Ast, rest: CString)
    requires IsTerm(ast) && Writable(ast) && ast.Sequence?
    ensures var tail := PrintFactor(ast.second) + rest;
      PrintTerm(ast) + rest == PrintTerm(ast.first) + tail && tail != [] && !IsPostfix(tail[0])
  {
    FactorStart(ast.second);
  }

  /** One more turn of the term loop. */
  lemma {:induction false} TermStep(acc: Ast, factor: Ast, rest: CString, e: bool, o: bool)
    requires IsFactor(factor) && Writable(factor)
    requires rest == [] || !IsPostfix(rest[0])
    ensures TermFrom(acc, Cursor(PrintFactor(factor) + rest, e, o)) ==
            TermFrom(Sequence(acc, factor), Cursor(rest, e, o))
    decreases factor, 3
  {
    FactorStart(factor);
    FactorParses(factor, rest, e, o);
    assert FactorAt(Cursor(PrintFactor(factor) + rest, e, o)) == (factor, Cursor(rest, e, o));
  }

  /** A term is over at the end of the text, and before a bar or a closing parenthesis. */
  lemma {:induction false} WholeTermParses(ast: Ast, rest: CString, e: bool, o: bool)
    requires IsTerm(ast) && Writable(ast)
    requires rest == [] || rest[0] == CLOSE || rest[0] == BAR
    ensures TermAt(Cursor(PrintTerm(ast) + rest, e, o)) == (ast, Cursor(rest, e, o))
    decreases ast, 1, 0
  {
    TermParses(ast, rest, e, o);
  }

  lemma OrParses(p: Cursor, first: Ast, tail: CString, second: Ast, q: Cursor)
    requires TermAt(p) == (first, Cursor([BAR] + tail, p.error, p.overrun)) && |tail| < |p.input|
    requires RegexAt(Cursor(tail, p.error, p.overrun)) == (second, q)
    ensures RegexAt(p) == (Or(first, second), q)
  {
    Front(BAR, tail, p.error, p.overrun);
  }

  lemma AloneParses(p: Cursor, term: Ast, q: Cursor)
    requires TermAt(p) == (term, q) && (q.input == [] || q.input[0] != BAR)
    ensures RegexAt(p) == (term, q)
  {
  }

  lemma {:induction false} PatternParses(ast: Ast, rest: CString, e: bool, o: bool)
    requires IsPattern(ast) && Writable(ast)
    requires rest == [] || rest[0] == CLOSE
    ensures RegexAt(Cursor(PrintPattern(ast) + rest, e, o)) == (ast, Cursor(rest, e, o))
    decreases ast, 1, 1
  {
    var p := Cursor(PrintPattern(ast) + rest, e, o);
    if ast.Or? {
      var tail := PrintPattern(ast.second) + rest;
      assert p.input == PrintTerm(ast.first) + ([BAR] + tail);
      WholeTermParses(ast.first, [BAR] + tail, e, o);
      PatternParses(ast.second, rest, e, o);
      OrParses(p, ast.first, tail, ast.second, Cursor(rest, e, o));
    } else {
      WholeTermParses(ast, rest, e, o);
      AloneParses(p, ast, Cursor(rest, e, o));
    }
  }

  /** Parsing a printed pattern gives it back, consumes the whole text and reports no error. */
  lemma RoundTrip(ast: Ast)
    requires IsPattern(ast) && Writable(ast)
    ensures Parsed(PrintPattern(ast)) == (ast, Cursor([], false, false))
  {
    assert PrintPattern(ast) + [] == PrintPattern(ast);
    PatternParses(ast, [], false, false);
  }

  // ---------------------------------------------------------------- what every parse yields

  predicate IsSuffix(rest: CString, all: CString) {
    |rest| <= |all| && rest == all[|all| - |rest|..]
  }

  /** Between `p` and `q` only text was consumed; from clean text come clean leaves, and, short of an overrun, leaves
      that can be written back. */
  predicate Yields(p: Cursor, ast: Ast, q: Cursor) {
    Moves(p, q) && (Clean(p.input) ==> NoSentinel(ast)) && (!q.overrun ==> Writable(ast))
  }

  predicate Moves(p: Cursor, q: Cursor) {
    IsSuffix(q.input, p.input) && (p.overrun ==> q.overrun)
  }

  lemma MovesOn(p: Cursor, q: Cursor, r: Cursor)
    requires Moves(p, q) && Moves(q, r)
    ensures Moves(p, r)
    ensures Clean(p.input) ==> Clean(q.input)
  {
  }

  lemma EatenMoves(p: Cursor, c: int)
    ensures Moves(p, Eaten(p, c))
    ensures Clean(p.input) ==> Clean(Eaten(p, c).input)
  {
  }

  lemma {:induction false} RegexYields(p: Cursor)
    ensures var (ast, q) := RegexAt(p); Yields(p, ast, q) && IsPattern(ast)
    decreases |p.input|, 4
  {
    var (term, q) := TermAt(p);
    TermYields(Blank, p);
    if q.input != [] && Peek(q) == BAR {
      var r := Eaten(q, BAR);
      EatenMoves(q, BAR);
      RegexYields(r);
      MovesOn(p, q, r);
      MovesOn(q, r, RegexAt(r).1);
      MovesOn(p, r, RegexAt(r).1);
    }
  }

  lemma {:induction false} TermYields(acc: Ast, p: Cursor)
    requires IsTerm(acc)
    ensures var (ast, q) := TermFrom(acc, p);
      Moves(p, q) && IsTerm(ast) &&
      (Clean(p.input) && NoSentinel(acc) ==> NoSentinel(ast)) &&
      (!q.overrun && Writable(acc) ==> Writable(ast))
    decreases |p.input|, 2
  {
    if !(p.input == [] || Peek(p) == BAR || Peek(p) == CLOSE) {
      var (factor, q) := FactorAt(p);
      FactorYields(p);
      TermYields(Sequence(acc, factor), q);
      MovesOn(p, q, TermFrom(Sequence(acc, factor), q).1);
    }
  }

  lemma {:induction false} FactorYields(p: Cursor)
    ensures var (ast, q) := FactorAt(p); Yields(p, ast, q) && IsFactor(ast)
    decreases |p.input|, 1
  {
    var (base, q) := BaseAt(p);
    BaseYields(p);
    OperatorsYield(base, q);
    MovesOn(p, q, FactorFrom(base, q).1);
  }

  lemma {:induction false} OperatorsYield(base: Ast, p: Cursor)
    requires IsFactor(base)
    ensures var (ast, q) := FactorFrom(base, p);
      Moves(p, q) && IsFactor(ast) && (NoSentinel(base) ==> NoSentinel(ast)) && (Writable(base) ==> Writable(ast))
    decreases |p.input|
  {
    if p.input != [] && IsPostfix(Peek(p)) {
      var q := Eaten(p, Peek(p));
      OperatorsYield(Postfix(Peek(p), base), q);
      MovesOn(p, q, FactorFrom(Postfix(Peek(p), base), q).1);
    }
  }

  lemma {:induction false} BaseYields(p: Cursor)
    ensures var (ast, q) := BaseAt(p); Yields(p, ast, q) && IsFactor(ast)
    decreases |p.input|, 0, 1
  {
    var c := Peek(p);
    EatenMoves(p, c);
    if c == OPEN {
      GroupYields(p);
    } else if c == ESCAPE {
      EscapeYields(p);
    } else if c == LEFT {
      BracketYields(p);
    }
  }

  lemma {:induction false} GroupYields(p: Cursor)
    requires Peek(p) == OPEN
    ensures var (ast, q) := BaseAt(p); Yields(p, ast, q) && IsFactor(ast)
    decreases |p.input|, 0, 0
  {
    var q := Eaten(p, OPEN);
    var (inner, s) := RegexAt(q);
    EatenMoves(p, OPEN);
    RegexYields(q);
    PatternIsFactor(inner);
    EatenMoves(s, CLOSE);
    MovesOn(p, q, s);
    MovesOn(p, s, Eaten(s, CLOSE));
  }

  lemma EscapeYields(p: Cursor)
    requires Peek(p) == ESCAPE
    ensures var (ast, q) := BaseAt(p); Yields(p, ast, q) && IsFactor(ast)
  {
  }

  lemma BracketYields(p: Cursor)
    requires Peek(p) == LEFT
    ensures var (ast, q) := BaseAt(p); Yields(p, ast, q) && IsFactor(ast)
  {
    var q := Eaten(p, LEFT);
    var s := ClassAt(q).1;
    EatenMoves(p, LEFT);
    ClassMoves(q);
    EatenMoves(s, RIGHT);
    MovesOn(p, q, s);
    MovesOn(p, s, Eaten(s, RIGHT));
    if !s.overrun {
      ClassYields(q);
    }
  }

  /** A class that was read can be written back. */
  lemma ClassYields(p: Cursor)
    requires !ClassAt(p).1.overrun
    ensures Bracketed(ClassAt(p).0)
  {
    var c := Peek(p);
    var q := Eaten(p, c);
    if c == CARET {
      FirstYields(q, Peek(q));
    } else {
      FirstYields(p, c);
    }
  }

  lemma FirstYields(p: Cursor, c: int)
    requires c == Peek(p) && !ItemsFrom([], c, Eaten(p, c)).2.overrun
    ensures var (all, last, _) := ItemsFrom([], c, Eaten(p, c)); PlainFrom([], c, Finished(all, last))
  {
    var q := Eaten(p, c);
    ItemsMove([], c, q);
    assert Moves(q, ItemsFrom([], c, q).2) && p.input != [];
    ItemsYield([], c, q);
  }

  /** All items are plain, and the first is one that starts with the first of those to come. */
  predicate PlainFrom(items: seq<ClassItem>, c: int, all: seq<ClassItem>) {
    PlainItems(all) && all != [] && all[0].a == if items == [] then c else items[0].a
  }

  lemma {:induction false} ItemsYield(items: seq<ClassItem>, c: int, p: Cursor)
    requires PlainItems(items) && -128 <= c < 128 && c != 0 && !ItemsFrom(items, c, p).2.overrun
    ensures var (all, last, q) := ItemsFrom(items, c, p); PlainFrom(items, c, Finished(all, last))
    decreases |p.input|, 1
  {
    if !(p.input == [] || Peek(p) == RIGHT) {
      var (escape, n, q) := ClassNext(p);
      NextYields(p);
      if n == DASH && !escape {
        RangeYields(items, c, p, q);
      } else {
        var more := items + [ClassItem(c, -1)];
        ItemsMove(more, n, q);
        ItemsYield(more, n, q);
        FirstKept(items, c, -1, n, ItemsFrom(more, n, q));
      }
    }
  }

  lemma FirstKept(items: seq<ClassItem>, c: int, b: int, n: int, r: (seq<ClassItem>, int, Cursor))
    requires PlainFrom(items + [ClassItem(c, b)], n, Finished(r.0, r.1))
    ensures PlainFrom(items, c, Finished(r.0, r.1))
  {
  }

  lemma {:induction false} RangeYields(items: seq<ClassItem>, c: int, p: Cursor, q: Cursor)
    requires PlainItems(items) && -128 <= c < 128 && c != 0 && !ItemsFrom(items, c, p).2.overrun
    requires p.input != [] && Peek(p) != RIGHT && ClassNext(p) == (false, DASH, q)
    ensures var (all, last, t) := ItemsFrom(items, c, p); PlainFrom(items, c, Finished(all, last))
    decreases |p.input|, 0
  {
    var more := items + [ClassItem(c, Peek(q))];
    var s := Eaten(q, Peek(q));
    EatenMoves(q, Peek(q));
    if Peek(s) == RIGHT {
      assert ItemsFrom(items, c, p) == (more, 0, s);
    } else {
      var (_, d, t) := ClassNext(s);
      NextMoves(s);
      ItemsMove(more, d, t);
      NextYields(s);
      assert PlainItems(more);
      ItemsYield(more, d, t);
      FirstKept(items, c, Peek(q), d, ItemsFrom(more, d, t));
    }
  }

  lemma NextYields(p: Cursor)
    ensures var (_, n, q) := ClassNext(p); !q.overrun ==> -128 <= n < 128 && n != 0
  {
    var c := Peek(p);
    EatenMoves(p, c);
    EatenMoves(Eaten(p, c), Peek(Eaten(p, c)));
  }

  lemma PatternIsFactor(ast: Ast)
    requires IsPattern(ast)
    ensures IsFactor(ast)
  {
  }

  lemma ClassMoves(p: Cursor)
    ensures Moves(p, ClassAt(p).1)
  {
    var c := Peek(p);
    var q := Eaten(p, c);
    EatenMoves(p, c);
    EatenMoves(q, Peek(q));
    var first := if c == CARET then Peek(q) else c;
    var r := if c == CARET then Eaten(q, Peek(q)) else q;
    MovesOn(p, q, r);
    ItemsMove([], first, r);
    MovesOn(p, r, ItemsFrom([], first, r).2);
  }

  lemma NextMoves(p: Cursor)
    ensures Moves(p, ClassNext(p).2)
  {
  }

  lemma {:induction false} ItemsMove(items: seq<ClassItem>, c: int, p: Cursor)
    ensures Moves(p, ItemsFrom(items, c, p).2)
    decreases |p.input|
  {
    if !(p.input == [] || Peek(p) == RIGHT) {
      var (escape, n, q) := ClassNext(p);
      NextMoves(p);
      if n == DASH && !escape {
        var more := items + [ClassItem(c, Peek(q))];
        var s := Eaten(q, Peek(q));
        EatenMoves(q, Peek(q));
        MovesOn(p, q, s);
        if Peek(s) != RIGHT {
          var (_, d, t) := ClassNext(s);
          NextMoves(s);
          MovesOn(p, s, t);
          ItemsMove(more, d, t);
          MovesOn(p, t, ItemsFrom(more, d, t).2);
        }
      } else {
        ItemsMove(items + [ClassItem(c, -1)], n, q);
        MovesOn(p, q, ItemsFrom(items + [ClassItem(c, -1)], n, q).2);
      }
    }
  }

  /** Every pattern parses to a tree of the printable shape, with no sentinel leaf if its bytes are clean. */
  lemma ParsedShape(pattern: CString)
    ensures IsPattern(Parsed(pattern).0)
    ensures Clean(pattern) ==> NoSentinel(Parsed(pattern).0)
    ensures !Parsed(pattern).1.overrun ==> Writable(Parsed(pattern).0)
  {
    RegexYields(Cursor(pattern, false, false));
  }

  /** Printing normalises a pattern without changing what it parses to. */
  lemma Reprint(pattern: CString)
    requires !Parsed(pattern).1.overrun
    ensures var ast := Parsed(pattern).0;
      IsPattern(ast) && Writable(ast) && Parsed(PrintPattern(ast)) == (ast, Cursor([], false, false))
  {
    ParsedShape(pattern);
    RoundTrip(Parsed(pattern).0);
  }
}
