/** The regex engine from end to end, and over a whole sequence of calls. */
module RegexTheorems {
  import opened RegexSyntax
  import opened RegexParser
  import opened RegexPrinter
  import opened RegexTexts
  import opened RegexEngine

  /** The calls before number `i` left the marks usable: there were none, or one had a non-empty input. */
  predicate Usable(inputs: seq<CString>, i: nat)
    requires i <= |inputs|
  {
    i == 0 || exists j :: 0 <= j < i && inputs[j] != []
  }

  /** The answer owed to call number `i`. */
  ghost predicate Owed(ast: Ast, inputs: seq<CString>, i: nat, ignoreCase: bool)
    requires i < |inputs|
  {
    Usable(inputs, i) && inputs[i] != [] && InLanguage(ast, inputs[i], ignoreCase)
  }

  /** A client that compiles a pattern once and asks about many inputs, as an export list does: exactly which
      answers are right. A pattern of clean bytes has no sentinel leaf. */
  method Ask(pattern: CString, inputs: seq<CString>, ignoreCase: bool) returns (answers: seq<bool>)
    requires NoSentinel(Parsed(pattern).0) && !Parsed(pattern).1.overrun
    ensures |answers| == |inputs|
    ensures forall i :: 0 <= i < |inputs| ==> (answers[i] <==> Owed(Parsed(pattern).0, inputs, i, ignoreCase))
  {
    var regex := new Regex.Compile(pattern);
    regex.ignoreCase := ignoreCase;
    ghost var ast := regex.ast;
    answers := [];
    var i := 0;
    while i < |inputs|
      invariant i <= |inputs| && |answers| == i
      invariant regex.Valid() && regex.ast == ast && regex.ignoreCase == ignoreCase
      invariant regex.Armed() <==> Usable(inputs, i)
      invariant regex.listgen != 0 <==> exists j :: 0 <= j < i && inputs[j] != []
      invariant forall k :: 0 <= k < i ==> (answers[k] <==> Owed(ast, inputs, k, ignoreCase))
    {
      var answer := regex.Matches(inputs[i]);
      answers := answers + [answer];
      assert answer <==> Owed(ast, inputs, i, ignoreCase);
      StillUsable(inputs, i);
      assert regex.listit[regex.start] == 0;
      i := i + 1;
    }
  }

  /** The same in terms of the text alone: the tree is the one that the grammar gives it. */
  method AskText(text: CString, ghost ast: Ast, inputs: seq<CString>, ignoreCase: bool) returns (answers: seq<bool>)
    requires PatternText(text, ast) && NoSentinel(ast)
    ensures |answers| == |inputs|
    ensures forall i :: 0 <= i < |inputs| ==> (answers[i] <==> Owed(ast, inputs, i, ignoreCase))
  {
    GrammarExactly(text, ast);
    answers := Ask(text, inputs, ignoreCase);
  }

  lemma StillUsable(inputs: seq<CString>, i: nat)
    requires i < |inputs|
    ensures Usable(inputs, i + 1) <==> (exists j :: 0 <= j < i && inputs[j] != []) || inputs[i] != []
    ensures (exists j :: 0 <= j < i + 1 && inputs[j] != []) <==>
      (exists j :: 0 <= j < i && inputs[j] != []) || inputs[i] != []
  {
  }

  /** A tree of the parser's shape, written as text and compiled, decides the tree's own language. */
  method Decide(ast: Ast, input: CString) returns (r: bool)
    requires IsPattern(ast) && Writable(ast) && NoSentinel(ast)
    ensures r <==> input != [] && InLanguage(ast, input, false)
  {
    RoundTrip(ast);
    var regex := new Regex.Compile(PrintPattern(ast));
    r := regex.Matches(input);
  }

  /** Words the engine misses: the empty word always, and any word right after an empty first call. */
  lemma WordsMissed()
    ensures var a: CString := [97];
      Clean(a) && InLanguage(Parsed(a).0, a, false) && InLanguage(Parsed([]).0, [], false) &&
      !Usable([[], a], 1)
  {
    var a: CString := [97];
    var ast := Sequence(Blank, Base(97));
    assert Writable(ast.second) && PrintFactor(ast.second) == a;
    assert PrintPattern(ast) == a;
    RoundTrip(ast);
    assert a[..0] == [] && a[0..] == a;
    assert InLanguage(Blank, a[..0], false) && InLanguage(Base(97), a[0..], false);
  }
}
