/** Abstract syntax of the patterns of src/core/regex.c and the language each pattern denotes. */
module RegexSyntax {

  /** A non-NUL C `char` on a platform where `char` is signed. */
  type CChar = c: int | -128 <= c < 128 && c != 0 witness 1

  /** A NUL-terminated C string, without its terminator. */
  type CString = seq<CChar>

  const EMPTY: CString := []

  // State and literal codes. Plain characters use their own (signed) code.
  const SPLIT := 256
  const MATCH := 257
  const NONE := -1
  const CHRCLS := -2
  const ANY := -3

  /** One entry of a character class: the range a..b, or the single character a when b < 0. */
  datatype ClassItem = ClassItem(a: int, b: int) {
    predicate Has(c: int) {
      if b < 0 then c == a else a <= c <= b
    }
  }

  datatype CharClass = CharClass(negate: bool, items: seq<ClassItem>) {
    /** Membership: listed by some entry, or by none when the class is negated. */
    ghost predicate Has(c: int) {
      negate != exists i :: 0 <= i < |items| && items[i].Has(c)
    }
  }

  datatype Ast =
    | Or(first: Ast, second: Ast)
    | Sequence(first: Ast, second: Ast)
    | Base(c: int)
    | Class(cls: CharClass)
    | Repetition(loop: Ast)
    | AtLeastOne(loop: Ast)
    | OneOrNone(loop: Ast)
    | Blank

  /** A literal byte -1 or -2 would be taken for the codes NONE and CHRCLS, and no literal exceeds a char. */
  predicate NoSentinel(ast: Ast) {
    match ast
    case Or(a, b) => NoSentinel(a) && NoSentinel(b)
    case Sequence(a, b) => NoSentinel(a) && NoSentinel(b)
    case Base(c) => -128 <= c < 128 && c != NONE && c != CHRCLS
    case Repetition(a) => NoSentinel(a)
    case AtLeastOne(a) => NoSentinel(a)
    case OneOrNone(a) => NoSentinel(a)
    case _ => true
  }

  predicate IsUpper(c: int) { 'A' as int <= c <= 'Z' as int }

  predicate IsLower(c: int) { 'a' as int <= c <= 'z' as int }

  predicate IsLetter(c: int) { IsUpper(c) || IsLower(c) }

  function Fold(c: int): int {
    if IsUpper(c) then c + 32 else c
  }

  /** What a literal code accepts: anything, the character itself, or its other case on request. */
  predicate Accepts(code: int, c: CChar, ignoreCase: bool) {
    code == ANY || code == c || (ignoreCase && IsLetter(code) && Fold(code) == Fold(c))
  }

  function Rank(ast: Ast): nat {
    match ast
    case Or(a, b) => 1 + Rank(a) + Rank(b)
    case Sequence(a, b) => 1 + Rank(a) + Rank(b)
    case Repetition(a) => 1 + Rank(a)
    case AtLeastOne(a) => 2 + Rank(a)
    case OneOrNone(a) => 1 + Rank(a)
    case _ => 0
  }

  /** The language of a pattern: `w` is one of its words. */
  ghost predicate InLanguage(ast: Ast, w: CString, ignoreCase: bool)
    decreases |w|, Rank(ast)
  {
    match ast
    case Or(a, b) => InLanguage(a, w, ignoreCase) || InLanguage(b, w, ignoreCase)
    case Sequence(a, b) =>
      exists i :: 0 <= i <= |w| && InLanguage(a, w[..i], ignoreCase) && InLanguage(b, w[i..], ignoreCase)
    case Base(c) => |w| == 1 && Accepts(c, w[0], ignoreCase)
    case Class(cls) => |w| == 1 && cls.Has(w[0])
    case Repetition(a) =>
      w == [] ||
      exists i :: 1 <= i <= |w| && InLanguage(a, w[..i], ignoreCase) && InLanguage(ast, w[i..], ignoreCase)
    case AtLeastOne(a) =>
      exists i :: 0 <= i <= |w| && InLanguage(a, w[..i], ignoreCase) && InLanguage(Repetition(a), w[i..], ignoreCase)
    case OneOrNone(a) => w == [] || InLanguage(a, w, ignoreCase)
    case Blank => w == []
  }

  // ---------------------------------------------------------------- other case

  /** The words are equal up to case. */
  ghost predicate SameFold(v: CString, w: CString) {
    |v| == |w| && forall i :: 0 <= i < |v| ==> Fold(v[i]) == Fold(w[i])
  }

  /** The class holds both cases of a letter or none. */
  ghost predicate HasBothCases(cls: CharClass) {
    forall c {:trigger cls.Has(c)} :: IsUpper(c) ==> (cls.Has(c) <==> cls.Has(c + 32))
  }

  ghost predicate BothCases(ast: Ast) {
    match ast
    case Or(a, b) => BothCases(a) && BothCases(b)
    case Sequence(a, b) => BothCases(a) && BothCases(b)
    case Class(cls) => HasBothCases(cls)
    case Repetition(a) => BothCases(a)
    case AtLeastOne(a) => BothCases(a)
    case OneOrNone(a) => BothCases(a)
    case _ => true
  }

  /** The ignore-case flag is not looked at for classes: `[a-z]` has the word "a" and not "A". */
  lemma ClassKeepsCase()
    ensures var ast := Class(CharClass(false, [ClassItem('a' as int, 'z' as int)]));
            InLanguage(ast, ['a' as int], true) && !InLanguage(ast, ['A' as int], true)
  {
    var cls := CharClass(false, [ClassItem('a' as int, 'z' as int)]);
    assert cls.items[0].Has('a' as int);
    assert !cls.items[0].Has('A' as int);
  }

  lemma ClassFolds(cls: CharClass, c: CChar, d: CChar)
    requires HasBothCases(cls) && Fold(c) == Fold(d)
    ensures cls.Has(c) <==> cls.Has(d)
  {
    if c < d {
      assert IsUpper(c) && d == c + 32;
    } else if d < c {
      assert IsUpper(d) && c == d + 32;
    }
  }

  lemma {:induction false} FoldedWord(ast: Ast, v: CString, w: CString)
    requires SameFold(v, w) && BothCases(ast) && InLanguage(ast, v, true)
    ensures InLanguage(ast, w, true)
    decreases |v|, Rank(ast)
  {
    match ast
    case Or(a, b) =>
      if InLanguage(a, v, true) {
        FoldedWord(a, v, w);
      } else {
        FoldedWord(b, v, w);
      }
    case Sequence(a, b) =>
      var i :| 0 <= i <= |v| && InLanguage(a, v[..i], true) && InLanguage(b, v[i..], true);
      FoldedWord(a, v[..i], w[..i]);
      FoldedWord(b, v[i..], w[i..]);
    case Base(c) =>
    case Class(cls) => ClassFolds(cls, v[0], w[0]);
    case Repetition(a) =>
      if v != [] {
        var i :| 1 <= i <= |v| && InLanguage(a, v[..i], true) && InLanguage(ast, v[i..], true);
        FoldedWord(a, v[..i], w[..i]);
        FoldedWord(ast, v[i..], w[i..]);
      }
    case AtLeastOne(a) =>
      var i :| 0 <= i <= |v| && InLanguage(a, v[..i], true) && InLanguage(Repetition(a), v[i..], true);
      FoldedWord(a, v[..i], w[..i]);
      FoldedWord(Repetition(a), v[i..], w[i..]);
    case OneOrNone(a) =>
      if v != [] {
        FoldedWord(a, v, w);
      }
    case Blank =>
  }

  /** Under the flag, words that are equal up to case are accepted alike if each class holds both cases of its
      letters. */
  lemma CaseIgnored(ast: Ast, v: CString, w: CString)
    requires SameFold(v, w) && BothCases(ast)
    ensures InLanguage(ast, v, true) <==> InLanguage(ast, w, true)
  {
    if InLanguage(ast, v, true) {
      FoldedWord(ast, v, w);
    }
    if InLanguage(ast, w, true) {
      FoldedWord(ast, w, v);
    }
  }

  /** For a pattern that is a class, exactly then. */
  lemma CaseIgnoredExactly(cls: CharClass)
    ensures HasBothCases(cls) <==>
              forall v: CString, w: CString :: SameFold(v, w) ==>
                (InLanguage(Class(cls), v, true) <==> InLanguage(Class(cls), w, true))
  {
    if HasBothCases(cls) {
      forall v: CString, w: CString | SameFold(v, w)
        ensures InLanguage(Class(cls), v, true) <==> InLanguage(Class(cls), w, true)
      {
        CaseIgnored(Class(cls), v, w);
      }
    } else {
      var c: CChar :| IsUpper(c) && cls.Has(c) != cls.Has(c + 32);
      var d: CChar := c + 32;
      assert SameFold([c], [d]) && InLanguage(Class(cls), [c], true) != InLanguage(Class(cls), [d], true);
    }
  }
}
