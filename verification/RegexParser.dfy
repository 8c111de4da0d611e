/** The recursive-descent parser of regex.c: what it makes of a pattern, and the methods that compute it. */
module RegexParser {
  import opened Wrappers
  import opened RegexSyntax

  /** The parser's state. `overrun` records that the terminating NUL itself was consumed: from then on the
      C program reads beyond its buffer and nothing is claimed about it. */
  datatype Cursor = Cursor(input: CString, error: bool, overrun: bool)

  const BAR := '|' as int
  const OPEN := '(' as int
  const CLOSE := ')' as int
  const STAR := '*' as int
  const PLUS := '+' as int
  const QUERY := '?' as int
  const ESCAPE := '\\' as int
  const DOT := '.' as int
  const LEFT := '[' as int
  const RIGHT := ']' as int
  const CARET := '^' as int
  const DASH := '-' as int

  function Peek(p: Cursor): int {
    if p.input == [] then 0 else p.input[0]
  }

  function Eaten(p: Cursor, wanted: int): Cursor {
    if Peek(p) != wanted then p.(error := true)
    else if p.input == [] then p.(overrun := true)
    else p.(input := p.input[1..])
  }

  predicate IsPostfix(c: int) { c == STAR || c == PLUS || c == QUERY }

  function Postfix(c: int, base: Ast): Ast {
    if c == STAR then Repetition(base) else if c == PLUS then AtLeastOne(base) else OneOrNone(base)
  }

  const DIGITS := [ClassItem('0' as int, '9' as int)]
  const SPACES := [ClassItem(32, -1), ClassItem(9, -1), ClassItem(10, -1),
                   ClassItem(11, -1), ClassItem(12, -1), ClassItem(13, -1)]
  const WORDS := [ClassItem('a' as int, 'z' as int), ClassItem('A' as int, 'Z' as int),
                  ClassItem('0' as int, '9' as int), ClassItem('_' as int, -1)]

  /** The classes \d \D \s \S \w \W. */
  function Predefined(c: int): Option<CharClass> {
    if c == 'd' as int then Some(CharClass(false, DIGITS))
    else if c == 'D' as int then Some(CharClass(true, DIGITS))
    else if c == 's' as int then Some(CharClass(false, SPACES))
    else if c == 'S' as int then Some(CharClass(true, SPACES))
    else if c == 'w' as int then Some(CharClass(false, WORDS))
    else if c == 'W' as int then Some(CharClass(true, WORDS))
    else None
  }

  // ---------------------------------------------------------------- the grammar as functions

  function RegexAt(p: Cursor): (r: (Ast, Cursor))
    ensures |r.1.input| <= |p.input|
    decreases |p.input|, 4
  {
    var (term, q) := TermAt(p);
    if q.input != [] && Peek(q) == BAR then
      var (rest, s) := RegexAt(Eaten(q, BAR));
      (Or(term, rest), s)
    else
      (term, q)
  }

  function TermAt(p: Cursor): (r: (Ast, Cursor))
    ensures |r.1.input| <= |p.input|
    decreases |p.input|, 3
  {
    TermFrom(Blank, p)
  }

  function TermFrom(acc: Ast, p: Cursor): (r: (Ast, Cursor))
    ensures |r.1.input| <= |p.input|
    decreases |p.input|, 2
  {
    if p.input == [] || Peek(p) == BAR || Peek(p) == CLOSE then
      (acc, p)
    else
      var (factor, q) := FactorAt(p);
      TermFrom(Sequence(acc, factor), q)
  }

  function FactorAt(p: Cursor): (r: (Ast, Cursor))
    ensures |r.1.input| <= |p.input|
    ensures p.input != [] ==> |r.1.input| < |p.input|
    decreases |p.input|, 1
  {
    var (base, q) := BaseAt(p);
    FactorFrom(base, q)
  }

  function FactorFrom(base: Ast, p: Cursor): (r: (Ast, Cursor))
    ensures |r.1.input| <= |p.input|
    decreases |p.input|, 0
  {
    if p.input != [] && IsPostfix(Peek(p)) then
      FactorFrom(Postfix(Peek(p), base), Eaten(p, Peek(p)))
    else
      (base, p)
  }

  function BaseAt(p: Cursor): (r: (Ast, Cursor))
    ensures |r.1.input| <= |p.input|
    ensures p.input != [] ==> |r.1.input| < |p.input|
    decreases |p.input|, 0
  {
    var c := Peek(p);
    var q := Eaten(p, c);
    if c == OPEN then
      var (inner, s) := RegexAt(q);
      (inner, Eaten(s, CLOSE))
    else if c == ESCAPE then
      var e := Peek(q);
      (match Predefined(e) case Some(cls) => Class(cls) case None => Base(e), Eaten(q, e))
    else if c == LEFT then
      var (cls, s) := ClassAt(q);
      (Class(cls), Eaten(s, RIGHT))
    else
      (Base(if c == DOT then ANY else c), q)
  }

  function ClassAt(p: Cursor): (r: (CharClass, Cursor))
    ensures |r.1.input| <= |p.input|
  {
    var c := Peek(p);
    var q := Eaten(p, c);
    var negate := c == CARET;
    var (items, last, s) := ItemsFrom([], if negate then Peek(q) else c, if negate then Eaten(q, Peek(q)) else q);
    (CharClass(negate, if last != 0 then items + [ClassItem(last, -1)] else items), s)
  }

  /** A class character: the escaped flag, the character, and what follows. */
  function ClassNext(p: Cursor): (r: (bool, int, Cursor))
    ensures |r.2.input| <= |p.input|
    ensures p.input != [] ==> |r.2.input| < |p.input|
  {
    var c := Peek(p);
    var q := Eaten(p, c);
    if c != ESCAPE then (false, c, q) else (true, Peek(q), Eaten(q, Peek(q)))
  }

  function ItemsFrom(items: seq<ClassItem>, c: int, p: Cursor): (r: (seq<ClassItem>, int, Cursor))
    ensures |r.2.input| <= |p.input|
    decreases |p.input|
  {
    if p.input == [] || Peek(p) == RIGHT then
      (items, c, p)
    else
      var (escape, n, q) := ClassNext(p);
      if n == DASH && !escape then
        var more := items + [ClassItem(c, Peek(q))];
        var s := Eaten(q, Peek(q));
        if Peek(s) == RIGHT then
          (more, 0, s)
        else
          var (_, d, t) := ClassNext(s);
          ItemsFrom(more, d, t)
      else
        ItemsFrom(items + [ClassItem(c, -1)], n, q)
  }

  /** The whole pattern, as rgx_compile hands it to the parser. */
  function Parsed(pattern: CString): (Ast, Cursor) {
    RegexAt(Cursor(pattern, false, false))
  }

  /** No byte of the pattern coincides with the codes NONE and CHRCLS. */
  predicate Clean(s: CString) {
    forall i :: 0 <= i < |s| ==> s[i] != NONE && s[i] != CHRCLS
  }

  // ---------------------------------------------------------------- the parser

  /** rgx_compiler: the part of the pattern still to be read, and its error flag. */
  class Compiler {
    var input: CString
    var error: bool
    var overrun: bool

    constructor (pattern: CString)
      ensures At() == Cursor(pattern, false, false)
    {
      input, error, overrun := pattern, false, false;
    }

    function At(): Cursor
      reads this
    {
      Cursor(input, error, overrun)
    }

    method HasMore() returns (b: bool)
      ensures b == (At().input != [])
    {
      b := |input| > 0;
    }

    method Eat(wanted: int)
      modifies this
      ensures At() == Eaten(old(At()), wanted)
    {
      if Peek(At()) == wanted {
        if input == [] {
          overrun := true;
        } else {
          input := input[1..];
        }
      } else {
        error := true;
      }
    }

    method Next() returns (c: int)
      modifies this
      ensures c == Peek(old(At())) && At() == Eaten(old(At()), c)
    {
      c := Peek(At());
      Eat(c);
    }

    /** rgxc_regex. */
    method Regex() returns (ast: Ast)
      modifies this
      ensures (ast, At()) == RegexAt(old(At()))
      decreases |input|, 3
    {
      var term := Term();
      var more := HasMore();
      if more && Peek(At()) == BAR {
        Eat(BAR);
        var rest := Regex();
        return Or(term, rest);
      }
      return term;
    }

    /** rgxc_term. */
    method Term() returns (ast: Ast)
      modifies this
      ensures (ast, At()) == TermAt(old(At()))
      decreases |input|, 2
    {
      ast := Blank;
      while input != [] && Peek(At()) != BAR && Peek(At()) != CLOSE
        invariant TermFrom(ast, At()) == TermAt(old(At()))
        invariant |input| <= old(|input|)
        decreases |input|
      {
        var next := Factor();
        ast := Sequence(ast, next);
      }
    }

    /** rgxc_factor. */
    method Factor() returns (ast: Ast)
      modifies this
      ensures (ast, At()) == FactorAt(old(At()))
      decreases |input|, 1
    {
      ast := BaseNode();
      while input != [] && IsPostfix(Peek(At()))
        invariant FactorFrom(ast, At()) == FactorAt(old(At()))
        decreases |input|
      {
        var next := Peek(At());
        Eat(next);
        ast := Postfix(next, ast);
      }
    }

    /** rgxc_base. */
    method BaseNode() returns (ast: Ast)
      modifies this
      ensures (ast, At()) == BaseAt(old(At()))
      decreases |input|, 0
    {
      var first := Peek(At());
      if first == OPEN {
        Eat(OPEN);
        ast := Regex();
        Eat(CLOSE);
      } else if first == ESCAPE {
        Eat(ESCAPE);
        var c := Next();
        match Predefined(c)
        case Some(cls) => ast := Class(cls);
        case None => ast := Base(c);
      } else if first == LEFT {
        Eat(LEFT);
        var cls := ClassNode();
        Eat(RIGHT);
        ast := Class(cls);
      } else {
        var c := Next();
        ast := Base(if c == DOT then ANY else c);
      }
    }

    /** rgxc_class_next. */
    method NextInClass() returns (escape: bool, c: int)
      modifies this
      ensures (escape, c, At()) == ClassNext(old(At()))
    {
      escape := false;
      c := Next();
      if c == ESCAPE {
        escape := true;
        c := Next();
      }
    }

    /** rgxc_class. */
    method ClassNode() returns (cls: CharClass)
      modifies this
      ensures (cls, At()) == ClassAt(old(At()))
    {
      var negate := false;
      var c := Next();
      if c == CARET {
        negate := true;
        c := Next();
      }
      var items: seq<ClassItem> := [];
      ghost var start := ItemsFrom([], c, At());
      while input != [] && Peek(At()) != RIGHT
        invariant ItemsFrom(items, c, At()) == start
        decreases |input|
      {
        var escape, n := NextInClass();
        if n == DASH && !escape {
          n := Next();
          items := items + [ClassItem(c, n)];
          if Peek(At()) == RIGHT {
            c := 0;
            break;
          }
          var _, d := NextInClass();
          c := d;
          continue;
        }
        items := items + [ClassItem(c, -1)];
        c := n;
      }
      assert start == (items, c, At());
      cls := CharClass(negate, if c != 0 then items + [ClassItem(c, -1)] else items);
    }
  }
}
