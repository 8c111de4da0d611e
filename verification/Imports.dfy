/** Collecting the files a program imports, directly and indirectly. */
module Imports {
  import opened Wrappers

  /** A canonical path. */
  datatype Path = Path(name: string)

  datatype Kind = TImport | TExport | TCStr | TLParen | TOther(code: nat)

  /** For an import the text is the name imported. */
  datatype Token = Token(kind: Kind, text: string)

  datatype Event = Imports(name: string) | Exports(text: string, kind: Option<Kind>)

  /** The files that exist, and realpath for a name used in one of them. */
  datatype FileSystem = FileSystem(files: map<Path, seq<Token>>, resolve: (Path, string) -> Option<Path>)

  ghost predicate Existing(fs: FileSystem) {
    forall p, name :: fs.resolve(p, name).Some? ==> fs.resolve(p, name).value in fs.files
  }

  /** What one file says. The token after `export` is consumed even where it is none of the expected ones. */
  function Events(ts: seq<Token>): seq<Event> { EventsFrom(ts, 0) }

  function EventsFrom(ts: seq<Token>, i: nat): seq<Event>
    decreases |ts| - i
  {
    if i >= |ts| then []
    else match ts[i].kind
      case TImport => [Imports(ts[i].text)] + EventsFrom(ts, i + 1)
      case TExport =>
        if i + 1 == |ts| then []
        else if ts[i + 1].kind == TCStr then [Exports(ts[i + 1].text, None)] + EventsFrom(ts, i + 2)
        else if ts[i + 1].kind != TLParen then EventsFrom(ts, i + 2)
        else if i + 5 <= |ts| then [Exports(ts[i + 4].text, Some(ts[i + 2].kind))] + EventsFrom(ts, i + 5)
        else []
      case _ => EventsFrom(ts, i + 1)
  }

  // ---------------------------------------------------------------- which imports are heard

  /** Where the scan goes on after the token at `i` and what it consumes. */
  function Next(ts: seq<Token>, i: nat): (j: nat)
    requires i < |ts|
    ensures i < j
  {
    if ts[i].kind != TExport then i + 1
    else if i + 1 == |ts| || ts[i + 1].kind != TLParen then i + 2
    else i + 5
  }

  /** No import stands in a place that an `export` read from `i` on consumes. */
  ghost predicate NoneConsumed(ts: seq<Token>, i: nat)
    decreases |ts| - i
  {
    i < |ts| ==>
      (forall k :: i < k < Next(ts, i) && k < |ts| ==> ts[k].kind != TImport) && NoneConsumed(ts, Next(ts, i))
  }

  /** The imports among the tokens from `i` up to `end`, in order. */
  function Written(ts: seq<Token>, i: nat, end: nat): seq<string>
    requires end <= |ts|
    decreases end - i
  {
    if i >= end then [] else
      var rest := Written(ts, i + 1, end);
      if ts[i].kind == TImport then [ts[i].text] + rest else rest
  }

  /** The imports among the events, in order. */
  function Heard(es: seq<Event>): seq<string> {
    if es == [] then [] else (if es[0].Imports? then [es[0].name] else []) + Heard(es[1..])
  }

  lemma {:induction false} WrittenSplit(ts: seq<Token>, i: nat, mid: nat, end: nat)
    requires i <= mid <= end <= |ts|
    ensures Written(ts, i, end) == Written(ts, i, mid) + Written(ts, mid, end)
    decreases mid - i
  {
    if i < mid {
      WrittenSplit(ts, i + 1, mid, end);
    }
  }

  lemma {:induction false} WrittenNone(ts: seq<Token>, i: nat, end: nat)
    requires i <= end <= |ts|
    ensures Written(ts, i, end) == [] <==> forall k :: i <= k < end ==> ts[k].kind != TImport
    decreases end - i
  {
    if i < end {
      WrittenNone(ts, i + 1, end);
    }
  }

  lemma HeardNext(ts: seq<Token>, i: nat)
    requires i < |ts|
    ensures Heard(EventsFrom(ts, i)) ==
            (if ts[i].kind == TImport then [ts[i].text] else []) + Heard(EventsFrom(ts, Next(ts, i)))
  {
    var rest := EventsFrom(ts, Next(ts, i));
    if ts[i].kind == TExport && i + 1 < |ts| && ts[i + 1].kind == TLParen && i + 5 > |ts| {
      assert rest == [];
    }
    var es := EventsFrom(ts, i);
    if es != rest {
      assert es == [es[0]] + rest;
      assert es[1..] == rest;
    }
  }

  /** The scan hears every import of the file, in order, exactly if none stands where an `export` consumes it. */
  lemma {:induction false} HeardExactly(ts: seq<Token>, i: nat)
    ensures Heard(EventsFrom(ts, i)) == Written(ts, i, |ts|) <==> NoneConsumed(ts, i)
    ensures |Heard(EventsFrom(ts, i))| <= |Written(ts, i, |ts|)|
    decreases |ts| - i
  {
    if i < |ts| {
      var j := Next(ts, i);
      HeardNext(ts, i);
      HeardExactly(ts, j);
      var mid := if j <= |ts| then j else |ts|;
      WrittenSplit(ts, i + 1, mid, |ts|);
      WrittenNone(ts, i + 1, mid);
      assert Written(ts, mid, |ts|) == Written(ts, j, |ts|);
      var head := if ts[i].kind == TImport then [ts[i].text] else [];
      assert Written(ts, i, |ts|) == head + (Written(ts, i + 1, mid) + Written(ts, j, |ts|));
      if Written(ts, i + 1, mid) == [] {
        assert Written(ts, i, |ts|) == head + Written(ts, j, |ts|);
        if Heard(EventsFrom(ts, i)) == Written(ts, i, |ts|) {
          assert Heard(EventsFrom(ts, j)) == Heard(EventsFrom(ts, i))[|head|..] == Written(ts, i, |ts|)[|head|..];
        }
      }
    }
  }

  /** An import right after `export` is never heard: the file it names is not even looked for. */
  lemma ImportConsumed(fs: FileSystem, p: Path, q: Path, name: string)
    requires p in fs.files && fs.files[p] == [Token(TExport, "export"), Token(TImport, name)]
    requires fs.resolve(p, name) == Some(q)
    ensures Events(fs.files[p]) == [] && !Edge(fs, p, q) && Written(fs.files[p], 0, 2) == [name]
  {
    var ts := fs.files[p];
    assert Written(ts, 0, 2) == Written(ts, 1, 2) == [name] + Written(ts, 2, 2);
    assert Events(ts) == EventsFrom(ts, 0) == EventsFrom(ts, 2);
  }

  /** It is enough that no import stands within four tokens after an export. */
  lemma {:induction false} FarEnough(ts: seq<Token>, i: nat)
    requires forall j, k :: 0 <= j < k < |ts| && k <= j + 4 && ts[j].kind == TExport ==> ts[k].kind != TImport
    ensures NoneConsumed(ts, i)
    decreases |ts| - i
  {
    if i < |ts| {
      FarEnough(ts, Next(ts, i));
    }
  }

  // ---------------------------------------------------------------- which exports are recorded

  /** What is written at place `k`: an `export` and a string, or an `export`, a parenthesis, the kind of declaration,
      one more token and a string. */
  function WrittenAt(ts: seq<Token>, k: nat): Option<Event>
    requires k < |ts|
  {
    if ts[k].kind != TExport then None
    else if k + 1 < |ts| && ts[k + 1].kind == TCStr then Some(Exports(ts[k + 1].text, None))
    else if k + 4 < |ts| && ts[k + 1].kind == TLParen && ts[k + 4].kind == TCStr then
      Some(Exports(ts[k + 4].text, Some(ts[k + 2].kind)))
    else None
  }

  /** The exports written from `i` up to `end`, each with its place. */
  function WrittenExports(ts: seq<Token>, i: nat, end: nat): seq<(nat, Event)>
    requires end <= |ts|
    decreases end - i
  {
    if i >= end then [] else
      var rest := WrittenExports(ts, i + 1, end);
      if WrittenAt(ts, i).Some? then [(i, WrittenAt(ts, i).value)] + rest else rest
  }

  function Placed(i: nat, e: Option<Event>): seq<(nat, Event)> {
    if e.Some? then [(i, e.value)] else []
  }

  /** What the scan records when it reads an `export` at `i`: in the long form it does not look whether a string ends
      it. */
  function RecordAt(ts: seq<Token>, i: nat): Option<Event>
    requires i < |ts|
  {
    if ts[i].kind == TExport && i + 4 < |ts| && ts[i + 1].kind == TLParen then
      Some(Exports(ts[i + 4].text, Some(ts[i + 2].kind)))
    else WrittenAt(ts, i)
  }

  /** The exports that the scan records, each with its place. */
  function RecordedExports(ts: seq<Token>, i: nat): seq<(nat, Event)>
    decreases |ts| - i
  {
    if i >= |ts| then [] else
      var rest := RecordedExports(ts, Next(ts, i));
      if RecordAt(ts, i).Some? then [(i, RecordAt(ts, i).value)] + rest else rest
  }

  function Unplaced(ps: seq<(nat, Event)>): seq<Event> {
    if ps == [] then [] else [ps[0].1] + Unplaced(ps[1..])
  }

  /** The export records among the events. */
  function ExportsOf(es: seq<Event>): seq<Event> {
    if es == [] then [] else (if es[0].Exports? then [es[0]] else []) + ExportsOf(es[1..])
  }

  lemma {:induction false} WildcardsAre(es: seq<Event>, n: nat)
    requires n <= |es|
    ensures ExportsOf(es) == WildcardsUpTo(es, n) + ExportsOf(es[n..])
  {
    if n == 0 {
      assert es[0..] == es;
    } else {
      WildcardsAre(es, n - 1);
      assert es[n - 1..][1..] == es[n..];
    }
  }

  /** The events of a file are what is recorded, imports aside. */
  lemma {:induction false} RecordedAre(ts: seq<Token>, i: nat)
    ensures ExportsOf(EventsFrom(ts, i)) == Unplaced(RecordedExports(ts, i))
    decreases |ts| - i
  {
    if i < |ts| {
      RecordedAre(ts, Next(ts, i));
      EventsNext(ts, i);
      var rest := EventsFrom(ts, Next(ts, i));
      var all := RecordedExports(ts, i);
      if RecordAt(ts, i).Some? {
        assert EventsFrom(ts, i)[1..] == rest && all[1..] == RecordedExports(ts, Next(ts, i));
      } else if ts[i].kind == TImport {
        assert EventsFrom(ts, i)[1..] == rest;
        assert all == RecordedExports(ts, Next(ts, i));
      } else {
        assert all == RecordedExports(ts, Next(ts, i));
      }
    }
  }

  lemma EventsNext(ts: seq<Token>, i: nat)
    requires i < |ts|
    ensures EventsFrom(ts, i) ==
      (if ts[i].kind == TImport then [Imports(ts[i].text)]
       else if RecordAt(ts, i).Some? then [RecordAt(ts, i).value] else []) + EventsFrom(ts, Next(ts, i))
  {
    if ts[i].kind == TExport && i + 1 < |ts| && ts[i + 1].kind == TLParen && i + 5 > |ts| {
      assert EventsFrom(ts, Next(ts, i)) == [];
    }
  }

  /** Every `export` that is read in its long form ends in a string, and none that says something stands in a place that
      another one consumes. */
  ghost predicate Proper(ts: seq<Token>, i: nat)
    decreases |ts| - i
  {
    i < |ts| ==>
      RecordAt(ts, i) == WrittenAt(ts, i) && NoneWritten(ts, i + 1, Next(ts, i)) && Proper(ts, Next(ts, i))
  }

  ghost predicate NoneWritten(ts: seq<Token>, i: nat, end: nat) {
    forall k :: i <= k < end && k < |ts| ==> WrittenAt(ts, k) == None
  }

  lemma {:induction false} ExportsSplit(ts: seq<Token>, i: nat, mid: nat, end: nat)
    requires i <= mid <= end <= |ts|
    ensures WrittenExports(ts, i, end) == WrittenExports(ts, i, mid) + WrittenExports(ts, mid, end)
    decreases mid - i
  {
    if i < mid {
      ExportsSplit(ts, i + 1, mid, end);
    }
  }

  lemma {:induction false} ExportsBetween(ts: seq<Token>, i: nat, end: nat)
    requires i <= end <= |ts|
    ensures WrittenExports(ts, i, end) == [] <==> NoneWritten(ts, i, end)
    ensures WrittenExports(ts, i, end) != [] ==> i <= WrittenExports(ts, i, end)[0].0 < end
    decreases end - i
  {
    if i < end {
      ExportsBetween(ts, i + 1, end);
    }
  }

  lemma {:induction false} RecordedFrom(ts: seq<Token>, i: nat)
    ensures RecordedExports(ts, i) != [] ==> i <= RecordedExports(ts, i)[0].0
    decreases |ts| - i
  {
    if i < |ts| {
      RecordedFrom(ts, Next(ts, i));
    }
  }

  /** The scan records the exports of a file, place by place, exactly if the file is proper. */
  lemma {:induction false} RecordedExactly(ts: seq<Token>, i: nat)
    ensures RecordedExports(ts, i) == WrittenExports(ts, i, |ts|) <==> Proper(ts, i)
    decreases |ts| - i
  {
    if i < |ts| {
      var j := Next(ts, i);
      var mid := if j <= |ts| then j else |ts|;
      RecordedExactly(ts, j);
      RecordedFrom(ts, j);
      TurnAt(ts, i, j, mid);
      OneTurn(Placed(i, RecordAt(ts, i)), RecordedExports(ts, j), Placed(i, WrittenAt(ts, i)),
              WrittenExports(ts, i + 1, mid), WrittenExports(ts, j, |ts|), i, j);
      PlacedAlike(i, RecordAt(ts, i), WrittenAt(ts, i));
    }
  }

  /** One turn of the scan: what it records and what is written. */
  lemma TurnAt(ts: seq<Token>, i: nat, j: nat, mid: nat)
    requires i < |ts| && j == Next(ts, i) && mid == if j <= |ts| then j else |ts|
    ensures RecordedExports(ts, i) == Placed(i, RecordAt(ts, i)) + RecordedExports(ts, j)
    ensures var m, v := WrittenExports(ts, i + 1, mid), WrittenExports(ts, j, |ts|);
      WrittenExports(ts, i, |ts|) == Placed(i, WrittenAt(ts, i)) + (m + v) &&
      (m == [] <==> NoneWritten(ts, i + 1, j)) && (m != [] ==> i < m[0].0 < j) && (m + v != [] ==> i < (m + v)[0].0)
  {
    ExportsSplit(ts, i + 1, mid, |ts|);
    ExportsBetween(ts, i + 1, mid);
    ExportsBetween(ts, i + 1, |ts|);
    assert WrittenExports(ts, mid, |ts|) == WrittenExports(ts, j, |ts|);
    assert NoneWritten(ts, i + 1, mid) <==> NoneWritten(ts, i + 1, j);
  }

  lemma PlacedAlike(i: nat, d: Option<Event>, e: Option<Event>)
    ensures Placed(i, d) == Placed(i, e) <==> d == e
  {
    if d.Some? && e.Some? {
      assert Placed(i, d)[0].1 == d.value && Placed(i, e)[0].1 == e.value;
    }
  }

  /** Lists that begin at place `i`, one of them with more between `i` and `j`. */
  lemma OneTurn(h: seq<(nat, Event)>, r: seq<(nat, Event)>, w: seq<(nat, Event)>, m: seq<(nat, Event)>,
                v: seq<(nat, Event)>, i: nat, j: nat)
    requires |h| <= 1 && |w| <= 1 && i < j && (h != [] ==> h[0].0 == i) && (w != [] ==> h == w)
    requires (r != [] ==> j <= r[0].0) && (m != [] ==> i < m[0].0 < j) && (m + v != [] ==> i < (m + v)[0].0)
    ensures h + r == w + (m + v) <==> h == w && m == [] && r == v
  {
    if h != w {
      assert (h + r)[0] == h[0] && w + (m + v) == m + v;
    } else {
      assert (h + r)[|h|..] == r && (w + (m + v))[|w|..] == m + v;
      if m == [] {
        assert m + v == v;
      } else {
        assert (m + v)[0] == m[0];
      }
    }
  }

  /** So a proper file's record is what is written in it. */
  lemma RecordIsWritten(ts: seq<Token>)
    requires Proper(ts, 0)
    ensures Wildcards(Events(ts)) == Unplaced(WrittenExports(ts, 0, |ts|))
  {
    RecordedExactly(ts, 0);
    RecordedAre(ts, 0);
    WildcardsAre(Events(ts), |Events(ts)|);
    assert Events(ts)[|Events(ts)|..] == [];
  }

  /** `export '*'` lets every declaration out, `export (func) 'api_*'` those of one kind. */
  lemma ExportForms(word: string, pattern: string, open: string, kind: Token, close: Token)
    ensures Wildcards(Events([Token(TExport, word), Token(TCStr, pattern)])) == [Exports(pattern, None)]
    ensures Wildcards(Events([Token(TExport, word), Token(TLParen, open), kind, close, Token(TCStr, pattern)])) ==
            [Exports(pattern, Some(kind.kind))]
  {
    var short := [Token(TExport, word), Token(TCStr, pattern)];
    var long := [Token(TExport, word), Token(TLParen, open), kind, close, Token(TCStr, pattern)];
    assert EventsFrom(short, 0) == [Exports(pattern, None)] + EventsFrom(short, 2) == [Exports(pattern, None)];
    EventsNext(long, 0);
    assert EventsFrom(long, 5) == [];
    assert Events(long) == [Exports(pattern, Some(kind.kind))];
    OneWildcard(Exports(pattern, None));
    OneWildcard(Exports(pattern, Some(kind.kind)));
  }

  lemma OneWildcard(e: Event)
    requires e.Exports?
    ensures Wildcards([e]) == [e]
  {
    assert WildcardsUpTo([e], 1) == WildcardsUpTo([e], 0) + [e];
  }

  // ---------------------------------------------------------------- the import graph

  /** The event is an import, in file `p`, of an existing file `q`. */
  predicate Names(fs: FileSystem, p: Path, e: Event, q: Path) {
    e.Imports? && fs.resolve(p, e.name) == Some(q)
  }

  ghost predicate Edge(fs: FileSystem, p: Path, q: Path) {
    p in fs.files && exists k :: 0 <= k < |Events(fs.files[p])| && Names(fs, p, Events(fs.files[p])[k], q)
  }

  ghost predicate IsPath(fs: FileSystem, path: seq<Path>) {
    path != [] && forall j, k :: 0 <= j < k < |path| && k == j + 1 ==> Edge(fs, path[j], path[k])
  }

  ghost predicate Reaches(fs: FileSystem, p: Path, q: Path) {
    exists path :: IsPath(fs, path) && path[0] == p && path[|path| - 1] == q
  }

  predicate Resolves(fs: FileSystem, p: Path, e: Event) {
    e.Imports? ==> fs.resolve(p, e.name).Some?
  }

  /** Every import in the file names a file that exists. */
  ghost predicate AllResolve(fs: FileSystem, p: Path) {
    p in fs.files ==> forall k :: 0 <= k < |Events(fs.files[p])| ==> Resolves(fs, p, Events(fs.files[p])[k])
  }

  lemma ReachesSelf(fs: FileSystem, p: Path)
    ensures Reaches(fs, p, p)
  {
    assert IsPath(fs, [p]);
  }

  lemma ReachesOn(fs: FileSystem, p: Path, q: Path, r: Path)
    requires Reaches(fs, p, q) && Edge(fs, q, r)
    ensures Reaches(fs, p, r)
  {
    var path :| IsPath(fs, path) && path[0] == p && path[|path| - 1] == q;
    var longer := path + [r];
    forall j, k | 0 <= j < k < |longer| && k == j + 1 ensures Edge(fs, longer[j], longer[k]) {}
    assert IsPath(fs, longer) && longer[0] == p && longer[|longer| - 1] == r;
  }

  ghost predicate ClosedSet(fs: FileSystem, s: iset<Path>) {
    forall p, q :: p in s && Edge(fs, p, q) ==> q in s
  }

  /** `q` belongs to every set of files that has `p` and all that its members import. */
  ghost predicate Needs(fs: FileSystem, p: Path, q: Path) {
    forall s: iset<Path> {:trigger ClosedSet(fs, s)} :: ClosedSet(fs, s) && p in s ==> q in s
  }

  lemma {:induction false} PathStays(fs: FileSystem, s: iset<Path>, path: seq<Path>, n: nat)
    requires IsPath(fs, path) && path[0] in s && n < |path| && ClosedSet(fs, s)
    ensures path[n] in s
  {
    if n > 0 {
      PathStays(fs, s, path, n - 1);
      assert Edge(fs, path[n - 1], path[n]);
    }
  }

  /** What is reached is what is in every closed set. */
  lemma ReachesExactly(fs: FileSystem, p: Path, q: Path)
    ensures Reaches(fs, p, q) <==> Needs(fs, p, q)
  {
    if Reaches(fs, p, q) {
      var path :| IsPath(fs, path) && path[0] == p && path[|path| - 1] == q;
      forall s: iset<Path> | ClosedSet(fs, s) && p in s ensures q in s { PathStays(fs, s, path, |path| - 1); }
    }
    if Needs(fs, p, q) {
      var s := iset r | Reaches(fs, p, r);
      ReachesSelf(fs, p);
      forall a, b | a in s && Edge(fs, a, b) ensures b in s { ReachesOn(fs, p, a, b); }
      assert ClosedSet(fs, s);
    }
  }

  // ---------------------------------------------------------------- what the worklist keeps

  ghost predicate Distinct(work: seq<Path>) {
    forall i, j :: 0 <= i < j < |work| ==> work[i] != work[j]
  }

  ghost predicate OnList(work: seq<Path>, p: Path) {
    exists i :: 0 <= i < |work| && work[i] == p
  }

  /** The known files are on the list, each once, and the program reaches them. */
  ghost predicate Listed(fs: FileSystem, root: Path, work: seq<Path>, known: set<Path>) {
    |work| == |known| && Distinct(work) && root in known &&
    (forall i :: 0 <= i < |work| ==> work[i] in known) &&
    (forall p :: p in known ==> p in fs.files && Needs(fs, root, p))
  }

  /** The import resolves, to a file that is known. */
  ghost predicate Followed(fs: FileSystem, p: Path, e: Event, known: set<Path>) {
    Resolves(fs, p, e) && (e.Imports? ==> fs.resolve(p, e.name).value in known)
  }

  /** The first `n` events of `p` have been followed. */
  ghost predicate Handled(fs: FileSystem, known: set<Path>, p: Path, n: nat) {
    p in fs.files && n <= |Events(fs.files[p])| &&
    forall k :: 0 <= k < n ==> Followed(fs, p, Events(fs.files[p])[k], known)
  }

  ghost predicate HandledWhole(fs: FileSystem, known: set<Path>, p: Path) {
    p in fs.files && Handled(fs, known, p, |Events(fs.files[p])|)
  }

  ghost predicate Recorded(fs: FileSystem, exports: map<Path, seq<Event>>, p: Path) {
    p in fs.files && p in exports && exports[p] == Wildcards(Events(fs.files[p]))
  }

  /** The first `n` files of the list have been read. */
  ghost predicate Scanned(fs: FileSystem, work: seq<Path>, known: set<Path>, n: nat) {
    n <= |work| &&
    forall i {:trigger HandledWhole(fs, known, work[i])} :: 0 <= i < n ==> HandledWhole(fs, known, work[i])
  }

  /** The first `n` files of the list, and no others, have an export record. */
  ghost predicate Exported(fs: FileSystem, work: seq<Path>, exports: map<Path, seq<Event>>, n: nat) {
    n <= |work| &&
    (forall i {:trigger Recorded(fs, exports, work[i])} :: 0 <= i < n ==> Recorded(fs, exports, work[i])) &&
    forall p :: p in exports ==> OnList(work[..n], p)
  }

  lemma HandledGrows(fs: FileSystem, known: set<Path>, more: set<Path>, p: Path, n: nat)
    requires Handled(fs, known, p, n) && known <= more
    ensures Handled(fs, more, p, n)
  {
  }

  lemma ScannedGrows(fs: FileSystem, work: seq<Path>, known: set<Path>, n: nat, q: Path)
    requires Scanned(fs, work, known, n)
    ensures Scanned(fs, work + [q], known + {q}, n)
  {
    forall i | 0 <= i < n ensures HandledWhole(fs, known + {q}, (work + [q])[i]) {
      assert HandledWhole(fs, known, work[i]);
      HandledGrows(fs, known, known + {q}, work[i], |Events(fs.files[work[i]])|);
    }
  }

  lemma ListedGrows(fs: FileSystem, root: Path, work: seq<Path>, known: set<Path>, q: Path)
    requires Listed(fs, root, work, known) && q !in known && q in fs.files && Needs(fs, root, q)
    ensures Listed(fs, root, work + [q], known + {q})
  {
  }

  lemma ExportedNext(fs: FileSystem, list: seq<Path>, work: seq<Path>, exports: map<Path, seq<Event>>, n: nat,
                     ec: seq<Event>)
    requires n < |list| && list <= work && Distinct(work) && Exported(fs, list, exports, n) && work[n] in fs.files
    requires ec == Wildcards(Events(fs.files[work[n]]))
    ensures Exported(fs, work, exports[work[n] := ec], n + 1)
  {
    var next := exports[work[n] := ec];
    forall i | 0 <= i < n + 1 ensures Recorded(fs, next, work[i]) {
      if i < n {
        assert Recorded(fs, exports, list[i]) && list[i] == work[i];
      }
    }
    forall p | p in next ensures OnList(work[..n + 1], p) {
      if p == work[n] {
        assert work[..n + 1][n] == p;
      } else {
        var i :| 0 <= i < n && list[..n][i] == p;
        assert work[..n + 1][i] == p;
      }
    }
  }

  /** A list without repetitions, as long as there are known files, has them all. */
  lemma {:induction false} ListsAll(work: seq<Path>, known: set<Path>, p: Path)
    requires Distinct(work) && |work| == |known| && p in known
    requires forall i :: 0 <= i < |work| ==> work[i] in known
    ensures OnList(work, p)
    decreases |work|
  {
    if work == [] {
      assert false;
    } else {
      var last, rest := work[|work| - 1], work[..|work| - 1];
      if last != p {
        assert forall i :: 0 <= i < |rest| ==> rest[i] == work[i];
        ListsAll(rest, known - {last}, p);
        var i :| 0 <= i < |rest| && rest[i] == p;
        assert work[i] == p;
      }
    }
  }

  /** There are no more known files than files. */
  lemma {:induction false} Fits(a: set<Path>, b: set<Path>)
    requires a <= b
    ensures |a| <= |b|
    decreases |a|
  {
    if a != {} {
      var x :| x in a;
      Fits(a - {x}, b - {x});
    }
  }

  lemma ListedFits(fs: FileSystem, root: Path, work: seq<Path>, known: set<Path>)
    requires Listed(fs, root, work, known)
    ensures |work| <= |fs.files|
  {
    Fits(known, fs.files.Keys);
  }

  /** When the list is used up, what is known is what the program reaches. */
  lemma Closed(fs: FileSystem, root: Path, work: seq<Path>, known: set<Path>, exports: map<Path, seq<Event>>)
    requires Listed(fs, root, work, known) && Scanned(fs, work, known, |work|) && Exported(fs, work, exports, |work|)
    ensures forall p :: Reaches(fs, root, p) ==> AllResolve(fs, p)
    ensures forall p :: p in known <==> Reaches(fs, root, p)
    ensures forall p :: p in exports <==> p in known
    ensures forall p :: p in known ==> Recorded(fs, exports, p)
    ensures forall p :: OnList(work, p) <==> p in known
  {
    assert work[..|work|] == work;
    forall p | p in known ensures OnList(work, p) { ListsAll(work, known, p); }
    forall p | p in known
      ensures Recorded(fs, exports, p) && AllResolve(fs, p)
      ensures forall q :: Edge(fs, p, q) ==> q in known
    {
      var i :| 0 <= i < |work| && work[i] == p;
      assert HandledWhole(fs, known, work[i]) && Recorded(fs, exports, work[i]);
      forall q | Edge(fs, p, q) ensures q in known {
        var k :| 0 <= k < |Events(fs.files[p])| && Names(fs, p, Events(fs.files[p])[k], q);
        assert Followed(fs, p, Events(fs.files[p])[k], known);
      }
      forall k | 0 <= k < |Events(fs.files[p])| ensures Resolves(fs, p, Events(fs.files[p])[k]) {
        assert Followed(fs, p, Events(fs.files[p])[k], known);
      }
    }
    var s := iset p | p in known;
    assert ClosedSet(fs, s);
    forall p ensures p in known <==> Reaches(fs, root, p) { ReachesExactly(fs, root, p); }
  }

  // ---------------------------------------------------------------- the worklist

  class Importer {
    const fs: FileSystem
    const root: Path
    var work: seq<Path>
    var offset: nat
    var allImports: set<Path>
    var exports: map<Path, seq<Event>>
    /** The files seen so far. */
    ghost var known: set<Path>

    constructor (fs: FileSystem, root: Path)
      ensures this.fs == fs && this.root == root
      ensures work == [root] && offset == 0 && allImports == {} && exports == map[] && known == {root}
    {
      this.fs, this.root := fs, root;
      work, offset, allImports, exports, known := [root], 0, {}, map[], {root};
    }

    ghost predicate Valid(n: nat)
      reads this
    {
      Existing(fs) && root !in allImports && (forall p :: p in known <==> p == root || p in allImports) &&
      Listed(fs, root, work, known) && Scanned(fs, work, known, n)
    }

    /** imp_generate_imports up to the collecting of the text; false is the fatal error. */
    method Collect() returns (ok: bool)
      requires Existing(fs) && root in fs.files
      requires work == [root] && offset == 0 && allImports == {} && exports == map[] && known == {root}
      modifies this
      ensures ok <==> forall p :: Reaches(fs, root, p) ==> AllResolve(fs, p)
      ensures ok ==> forall p :: p in allImports <==> Reaches(fs, root, p) && p != root
      ensures ok ==> forall p :: p in exports <==> Reaches(fs, root, p)
      ensures ok ==> forall p :: Reaches(fs, root, p) ==> Recorded(fs, exports, p)
      ensures ok ==> offset == |work| && Distinct(work) && forall p :: OnList(work, p) <==> Reaches(fs, root, p)
    {
      assert work[0] == root;
      while offset < |work|
        invariant offset <= |work| && Valid(offset) && Exported(fs, work, exports, offset)
        decreases |fs.files| - offset
      {
        ListedFits(fs, root, work, known);
        var file := work[offset];
        offset := offset + 1;
        ok := ScanFile(file);
        if !ok {
          ReachesExactly(fs, root, file);
          return false;
        }
      }
      Closed(fs, root, work, known, exports);
      return true;
    }

    method ScanFile(file: Path) returns (ok: bool)
      requires 0 < offset <= |work| && work[offset - 1] == file && Valid(offset - 1)
      requires Exported(fs, work, exports, offset - 1)
      modifies this`work, this`allImports, this`exports, this`known
      ensures ok ==> offset <= |work| && Valid(offset) && Exported(fs, work, exports, offset)
      ensures !ok ==> Needs(fs, root, file) && !AllResolve(fs, file)
    {
      assert file in known;
      var ec: seq<Event>;
      ok, ec := ReadFile(file);
      if ok {
        ExportedNext(fs, old(work), work, exports, offset - 1, ec);
        exports := exports[file := ec];
      }
    }

    method ReadFile(file: Path) returns (ok: bool, ec: seq<Event>)
      requires 0 < offset <= |work| && work[offset - 1] == file && Valid(offset - 1) && file in fs.files
      modifies this`work, this`allImports, this`known
      ensures ok ==> old(work) <= work && Valid(offset) && ec == Wildcards(Events(fs.files[file]))
      ensures !ok ==> Needs(fs, root, file) && !AllResolve(fs, file)
    {
      var ts := fs.files[file];
      ec := [];
      var i: nat := 0;
      ghost var n: nat := 0;
      ProgressStart(fs, known, file);
      while i < |ts|
        invariant i <= |ts| && old(work) <= work && Valid(offset - 1) && Progress(fs, known, file, i, n, ec)
      {
        ok, i, n, ec := ReadToken(file, i, n, ec);
        if !ok {
          return;
        }
      }
      ProgressEnd(fs, known, file, i, n, ec);
      ok := true;
    }

    method ReadToken(file: Path, i: nat, ghost n: nat, ec: seq<Event>)
      returns (ok: bool, next: nat, ghost m: nat, more: seq<Event>)
      requires 0 < offset <= |work| && work[offset - 1] == file && Valid(offset - 1)
      requires Progress(fs, known, file, i, n, ec) && i < |fs.files[file]|
      modifies this`work, this`allImports, this`known
      ensures ok ==> old(work) <= work && Valid(offset - 1) && Progress(fs, known, file, next, m, more)
      ensures ok ==> i < next <= |fs.files[file]|
      ensures !ok ==> Needs(fs, root, file) && !AllResolve(fs, file)
    {
      ok, next, m, more := true, i + 1, n, ec;
      var ts := fs.files[file];
      if ts[i].kind == TImport {
        ok := Follow(file, ts[i].text, i, n, ec);
        m := n + 1;
      } else if ts[i].kind == TExport {
        var found: seq<Event>;
        found, next := ReadExport(ts, i + 1);
        SkipWildcards(fs, known, file, i, n, ec, found, next);
        more, m := ec + found, n + |found|;
      }
    }

    /** One import: resolve it, and list what is new. */
    method Follow(file: Path, name: string, ghost i: nat, ghost n: nat, ghost ec: seq<Event>) returns (ok: bool)
      requires 0 < offset <= |work| && work[offset - 1] == file && Valid(offset - 1)
      requires Progress(fs, known, file, i, n, ec) && i < |fs.files[file]| && fs.files[file][i] == Token(TImport, name)
      modifies this`work, this`allImports, this`known
      ensures ok ==> old(work) <= work && Valid(offset - 1) && Progress(fs, known, file, i + 1, n + 1, ec)
      ensures !ok ==> Needs(fs, root, file) && !AllResolve(fs, file)
    {
      ImportNext(fs, known, file, i, n, ec);
      ghost var before, list := known, work;
      var r := fs.resolve(file, name);
      if r.None? {
        assert !Resolves(fs, file, Events(fs.files[file])[n]) && file in known;
        return false;
      }
      FollowStep(fs, root, work, known, offset - 1, n, r.value);
      if r.value !in allImports && r.value != root {
        work := work + [r.value];
        allImports := allImports + {r.value};
      }
      known := known + {r.value};
      assert work == Extended(list, before, r.value);
      ImportDone(fs, known, file, i, n, ec);
      return true;
    }
  }

  function Extended(work: seq<Path>, known: set<Path>, q: Path): seq<Path> {
    if q in known then work else work + [q]
  }

  lemma FollowStep(fs: FileSystem, root: Path, work: seq<Path>, known: set<Path>, at: nat, n: nat, q: Path)
    requires Existing(fs) && Listed(fs, root, work, known) && Scanned(fs, work, known, at) && at < |work|
    requires Handled(fs, known, work[at], n) && n < |Events(fs.files[work[at]])|
    requires Names(fs, work[at], Events(fs.files[work[at]])[n], q)
    ensures var list := Extended(work, known, q);
            work <= list && Listed(fs, root, list, known + {q}) &&
            Scanned(fs, list, known + {q}, at) && Handled(fs, known + {q}, work[at], n + 1)
  {
    HandledGrows(fs, known, known + {q}, work[at], n);
    assert Followed(fs, work[at], Events(fs.files[work[at]])[n], known + {q});
    if q in known {
      assert known + {q} == known;
    } else {
      assert work[at] in known;
      assert Edge(fs, work[at], q);
      ListedGrows(fs, root, work, known, q);
      ScannedGrows(fs, work, known, at, q);
    }
  }

  /** After `export`: the wildcard that follows, if one does. */
  method ReadExport(ts: seq<Token>, i: nat) returns (found: seq<Event>, next: nat)
    requires 0 < i <= |ts| && ts[i - 1].kind == TExport
    ensures i <= next <= |ts| && EventsFrom(ts, i - 1) == found + EventsFrom(ts, next)
    ensures forall k :: 0 <= k < |found| ==> found[k].Exports?
    ensures |found| <= 1
  {
    if i == |ts| {
      return [], i;
    }
    if ts[i].kind == TCStr {
      return [Exports(ts[i].text, None)], i + 1;
    }
    if ts[i].kind != TLParen {
      return [], i + 1;
    }
    if i + 4 <= |ts| {
      return [Exports(ts[i + 3].text, Some(ts[i + 1].kind))], i + 4;
    }
    return [], |ts|;
  }

  // ---------------------------------------------------------------- within one file

  /** The first `i` tokens of `p` make its first `n` events; the imports among them are followed, the rest is in
      `ec`. */
  ghost predicate Progress(fs: FileSystem, known: set<Path>, p: Path, i: nat, n: nat, ec: seq<Event>) {
    Handled(fs, known, p, n) && Events(fs.files[p])[n..] == EventsFrom(fs.files[p], i) &&
    ec == WildcardsUpTo(Events(fs.files[p]), n)
  }

  lemma ProgressStart(fs: FileSystem, known: set<Path>, p: Path)
    requires p in fs.files
    ensures Progress(fs, known, p, 0, 0, [])
  {
  }

  lemma ProgressEnd(fs: FileSystem, known: set<Path>, p: Path, i: nat, n: nat, ec: seq<Event>)
    requires Progress(fs, known, p, i, n, ec) && |fs.files[p]| <= i
    ensures HandledWhole(fs, known, p) && ec == Wildcards(Events(fs.files[p]))
  {
  }

  lemma ImportNext(fs: FileSystem, known: set<Path>, p: Path, i: nat, n: nat, ec: seq<Event>)
    requires Progress(fs, known, p, i, n, ec) && i < |fs.files[p]| && fs.files[p][i].kind == TImport
    ensures Handled(fs, known, p, n) && n < |Events(fs.files[p])|
    ensures Events(fs.files[p])[n] == Imports(fs.files[p][i].text)
    ensures Events(fs.files[p])[n + 1..] == EventsFrom(fs.files[p], i + 1) &&
      ec == WildcardsUpTo(Events(fs.files[p]), n)
  {
  }

  lemma ImportDone(fs: FileSystem, known: set<Path>, p: Path, i: nat, n: nat, ec: seq<Event>)
    requires Handled(fs, known, p, n + 1) && Events(fs.files[p])[n].Imports?
    requires Events(fs.files[p])[n + 1..] == EventsFrom(fs.files[p], i + 1) &&
      ec == WildcardsUpTo(Events(fs.files[p]), n)
    ensures Progress(fs, known, p, i + 1, n + 1, ec)
  {
  }

  lemma SkipWildcards(fs: FileSystem, known: set<Path>, p: Path, i: nat, n: nat, ec: seq<Event>, found: seq<Event>,
                      next: nat)
    requires Progress(fs, known, p, i, n, ec) && |found| <= 1 && forall k :: 0 <= k < |found| ==> found[k].Exports?
    requires EventsFrom(fs.files[p], i) == found + EventsFrom(fs.files[p], next)
    ensures Progress(fs, known, p, next, n + |found|, ec + found)
  {
  }

  /** The wildcards recorded for a file. */
  function Wildcards(es: seq<Event>): seq<Event> { WildcardsUpTo(es, |es|) }

  function WildcardsUpTo(es: seq<Event>, n: nat): seq<Event>
    requires n <= |es|
  {
    if n == 0 then [] else WildcardsUpTo(es, n - 1) + if es[n - 1].Exports? then [es[n - 1]] else []
  }
}
