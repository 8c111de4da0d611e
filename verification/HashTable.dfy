/** The chained hash table, whose buckets and nodes are relinked in place. */
module HashTable {
  import opened Wrappers

  /** A C long converted to unsigned long, modulo the number of buckets. */
  function Slot(hash: int, size: nat): (b: nat)
    requires size > 0
    ensures b < size
  {
    (hash % 0x1_0000_0000_0000_0000) % size
  }

  /** A node; `next` is the address of another one. */
  datatype Cell<K, V> = Cell(hash: int, key: K, val: V, next: Option<nat>)

  /** A table, with the addresses on each bucket's list and the map it stands for. */
  datatype Table<K, V> = Table(cells: seq<Cell<K, V>>, buckets: seq<Option<nat>>, count: int,
                               chains: seq<seq<nat>>, contents: map<K, V>)

  /** The hash function that every call passes, and a representative for every class of keys that the equality
      function takes for equal. */
  datatype Keys<!K> = Keys(hash: K -> int, rep: K -> K)

  /** Equal keys have the same hash. */
  ghost predicate Respects<K(!new)>(h: Keys<K>) {
    forall a {:trigger h.rep(a)} :: h.hash(h.rep(a)) == h.hash(a)
  }

  /** The equality function. */
  ghost predicate Compares<K(!new)>(same: (K, K) -> bool, rep: K -> K) {
    forall a, b {:trigger same(a, b)} :: same(a, b) <==> rep(a) == rep(b)
  }

  ghost predicate Equivalence<K(!new)>(same: (K, K) -> bool) {
    (forall a :: same(a, a)) && (forall a, b :: same(a, b) ==> same(b, a)) &&
    forall a, b, c :: same(a, b) && same(b, c) ==> same(a, c)
  }

  ghost function Choice<K(!new)>(s: iset<K>): K
    requires s != iset{}
  {
    var x :| x in s; x
  }

  /** Every equivalence that implies equal hashes is the equality of some representatives. */
  lemma Representable<K(!new)>(hash: K -> int, same: (K, K) -> bool)
    requires Equivalence(same) && forall a, b :: same(a, b) ==> hash(a) == hash(b)
    ensures exists rep: K -> K :: Respects(Keys(hash, rep)) && Compares(same, rep)
  {
    var class_ := (a: K) => iset x | same(a, x);
    forall a ensures a in class_(a) && class_(a) != iset{} {}
    var rep := (a: K) => Choice(class_(a));
    forall a, b ensures same(a, b) <==> rep(a) == rep(b) {
      assert rep(a) in class_(a) && rep(b) in class_(b);
      if same(a, b) {
        assert class_(a) == class_(b);
      }
    }
    forall a ensures hash(rep(a)) == hash(a) {
      assert rep(a) in class_(a);
    }
    assert Respects(Keys(hash, rep)) && Compares(same, rep);
  }

  function At(chain: seq<nat>, i: nat): Option<nat> {
    if i < |chain| then Some(chain[i]) else None
  }

  // ---------------------------------------------------------------- the invariant

  /** `chain` is what one finds following `next` from `head`. */
  ghost predicate Linked<K, V>(cells: seq<Cell<K, V>>, head: Option<nat>, chain: seq<nat>) {
    head == At(chain, 0) && (forall i :: 0 <= i < |chain| ==> chain[i] < |cells|) &&
    forall i {:trigger cells[chain[i]]} :: 0 <= i < |chain| ==> cells[chain[i]].next == At(chain, i + 1)
  }

  /** The node is in the bucket of its hash and says what the map says. */
  ghost predicate NodeOk<K, V>(c: Cell<K, V>, h: Keys<K>, contents: map<K, V>, b: nat, size: nat)
    requires size > 0
  {
    c.hash == h.hash(c.key) && Slot(c.hash, size) == b && h.rep(c.key) in contents && contents[h.rep(c.key)] == c.val
  }

  ghost predicate ChainOk<K, V>(t: Table<K, V>, h: Keys<K>, b: nat)
    requires b < |t.buckets| == |t.chains|
  {
    Linked(t.cells, t.buckets[b], t.chains[b]) &&
    Homed(t.cells, t.chains[b], h, t.contents, b, |t.buckets|) && KeysDiffer(t.cells, t.chains[b], h.rep)
  }

  ghost predicate Homed<K, V>(cells: seq<Cell<K, V>>, chain: seq<nat>, h: Keys<K>, contents: map<K, V>, b: nat,
                              size: nat)
    requires size > 0
  {
    (forall i :: 0 <= i < |chain| ==> chain[i] < |cells|) &&
    forall i {:trigger cells[chain[i]]} :: 0 <= i < |chain| ==> NodeOk(cells[chain[i]], h, contents, b, size)
  }

  ghost predicate KeysDiffer<K, V>(cells: seq<Cell<K, V>>, chain: seq<nat>, rep: K -> K) {
    forall i, j {:trigger cells[chain[i]], cells[chain[j]]} ::
      0 <= i < j < |chain| && chain[i] < |cells| && chain[j] < |cells| ==>
      rep(cells[chain[i]].key) != rep(cells[chain[j]].key)
  }

  ghost predicate Present<K, V>(cells: seq<Cell<K, V>>, chain: seq<nat>, k: K, rep: K -> K) {
    exists i :: 0 <= i < |chain| && chain[i] < |cells| && rep(cells[chain[i]].key) == k
  }

  /** Every node sits in the bucket of its hash, keys are unique, and the nodes are the map. */
  ghost predicate Shaped<K(!new), V>(t: Table<K, V>, h: Keys<K>) {
    Respects(h) && 0 < |t.buckets| == |t.chains| &&
    (forall b :: 0 <= b < |t.buckets| ==> ChainOk(t, h, b)) &&
    forall k {:trigger Present(t.cells, t.chains[Slot(h.hash(k), |t.buckets|)], k, h.rep)} ::
      k in t.contents ==> Present(t.cells, t.chains[Slot(h.hash(k), |t.buckets|)], k, h.rep)
  }

  ghost predicate Inv<K(!new), V>(t: Table<K, V>, h: Keys<K>) {
    Shaped(t, h) && t.count == |t.contents|
  }

  /** Different places on the lists hold different nodes, with different keys. */
  lemma Apart<K(!new), V>(t: Table<K, V>, h: Keys<K>, a: nat, i: nat, b: nat, j: nat)
    requires Shaped(t, h) && a < |t.buckets| && b < |t.buckets| && i < |t.chains[a]| && j < |t.chains[b]|
    requires a != b || i != j
    ensures t.chains[a][i] < |t.cells| && t.chains[b][j] < |t.cells|
    ensures h.rep(t.cells[t.chains[a][i]].key) != h.rep(t.cells[t.chains[b][j]].key) && t.chains[a][i] != t.chains[b][j]
  {
    assert ChainOk(t, h, a) && ChainOk(t, h, b);
    assert NodeOk(t.cells[t.chains[a][i]], h, t.contents, a, |t.buckets|);
    assert NodeOk(t.cells[t.chains[b][j]], h, t.contents, b, |t.buckets|);
  }

  // ---------------------------------------------------------------- the three changes

  function Overwritten<K, V>(t: Table<K, V>, h: Keys<K>, n: nat, val: V): Table<K, V>
    requires n < |t.cells|
  {
    t.(cells := t.cells[n := t.cells[n].(val := val)], contents := t.contents[h.rep(t.cells[n].key) := val])
  }

  lemma OverwriteKeeps<K(!new), V>(t: Table<K, V>, h: Keys<K>, b: nat, i: nat, val: V)
    requires Shaped(t, h) && b < |t.buckets| && i < |t.chains[b]| && t.chains[b][i] < |t.cells|
    ensures Shaped(Overwritten(t, h, t.chains[b][i], val), h)
  {
    var n := t.chains[b][i];
    var u := Overwritten(t, h, n, val);
    assert ChainOk(t, h, b) && NodeOk(t.cells[n], h, t.contents, b, |t.buckets|);
    forall c | 0 <= c < |u.buckets| ensures ChainOk(u, h, c) {
      OverwriteKeepsChain(t, h, b, i, val, c);
    }
    forall k | k in u.contents ensures Present(u.cells, u.chains[Slot(h.hash(k), |u.buckets|)], k, h.rep) {
      assert Present(t.cells, t.chains[Slot(h.hash(k), |t.buckets|)], k, h.rep);
    }
  }

  lemma OverwriteKeepsChain<K(!new), V>(t: Table<K, V>, h: Keys<K>, b: nat, i: nat, val: V, c: nat)
    requires Shaped(t, h) && b < |t.buckets| && i < |t.chains[b]| && t.chains[b][i] < |t.cells| && c < |t.buckets|
    ensures ChainOk(Overwritten(t, h, t.chains[b][i], val), h, c)
  {
    var u := Overwritten(t, h, t.chains[b][i], val);
    assert ChainOk(t, h, c);
    assert Linked(u.cells, u.buckets[c], u.chains[c]);
    assert KeysDiffer(u.cells, u.chains[c], h.rep);
    forall j | 0 <= j < |u.chains[c]| ensures NodeOk(u.cells[u.chains[c][j]], h, u.contents, c, |u.buckets|) {
      assert NodeOk(t.cells[t.chains[c][j]], h, t.contents, c, |t.buckets|);
      if c != b || j != i {
        Apart(t, h, b, i, c, j);
      }
    }
  }

  /** A new node at the end of bucket `b`. */
  function Appended<K, V>(t: Table<K, V>, h: Keys<K>, b: nat, hash: int, key: K, val: V): Table<K, V>
    requires b < |t.buckets| == |t.chains|
    requires t.chains[b] != [] ==> t.chains[b][|t.chains[b]| - 1] < |t.cells|
  {
    var n := |t.cells|;
    var grown := t.cells + [Cell(hash, key, val, None)];
    var chain := t.chains[b];
    Table(if chain == [] then grown else grown[chain[|chain| - 1] := grown[chain[|chain| - 1]].(next := Some(n))],
          if chain == [] then t.buckets[b := Some(n)] else t.buckets,
          t.count + 1, t.chains[b := chain + [n]], t.contents[h.rep(key) := val])
  }

  lemma AppendKeeps<K(!new), V>(t: Table<K, V>, h: Keys<K>, key: K, val: V)
    requires Shaped(t, h) && h.rep(key) !in t.contents
    requires var b := Slot(h.hash(key), |t.buckets|); t.chains[b] != [] ==> t.chains[b][|t.chains[b]| - 1] < |t.cells|
    ensures Shaped(Appended(t, h, Slot(h.hash(key), |t.buckets|), h.hash(key), key, val), h)
  {
    var b := Slot(h.hash(key), |t.buckets|);
    var u := Appended(t, h, b, h.hash(key), key, val);
    forall c | 0 <= c < |u.buckets| ensures ChainOk(u, h, c) {
      AppendKeepsChain(t, h, key, val, c);
    }
    forall k | k in u.contents ensures Present(u.cells, u.chains[Slot(h.hash(k), |u.buckets|)], k, h.rep) {
      if k == h.rep(key) {
        assert u.cells[u.chains[b][|t.chains[b]|]].key == key;
      } else {
        var c := Slot(h.hash(k), |t.buckets|);
        assert ChainOk(t, h, c) && Present(t.cells, t.chains[c], k, h.rep);
        var i :| 0 <= i < |t.chains[c]| && h.rep(t.cells[t.chains[c][i]].key) == k;
        assert u.chains[c][i] == t.chains[c][i] && h.rep(u.cells[u.chains[c][i]].key) == k;
      }
    }
  }

  lemma AppendKeepsChain<K(!new), V>(t: Table<K, V>, h: Keys<K>, key: K, val: V, c: nat)
    requires Shaped(t, h) && h.rep(key) !in t.contents && c < |t.buckets|
    requires var b := Slot(h.hash(key), |t.buckets|); t.chains[b] != [] ==> t.chains[b][|t.chains[b]| - 1] < |t.cells|
    ensures ChainOk(Appended(t, h, Slot(h.hash(key), |t.buckets|), h.hash(key), key, val), h, c)
  {
    var b := Slot(h.hash(key), |t.buckets|);
    var u := Appended(t, h, b, h.hash(key), key, val);
    assert ChainOk(t, h, b) && ChainOk(t, h, c);
    forall i | 0 <= i < |u.chains[c]|
      ensures u.chains[c][i] < |u.cells| && u.cells[u.chains[c][i]].next == At(u.chains[c], i + 1)
      ensures NodeOk(u.cells[u.chains[c][i]], h, u.contents, c, |u.buckets|)
      ensures i < |t.chains[c]| ==>
        u.cells[u.chains[c][i]].key == t.cells[t.chains[c][i]].key && h.rep(u.cells[u.chains[c][i]].key) != h.rep(key)
    {
      if i < |t.chains[c]| {
        assert NodeOk(t.cells[t.chains[c][i]], h, t.contents, c, |t.buckets|);
        if t.chains[b] != [] && (c != b || i != |t.chains[b]| - 1) {
          Apart(t, h, b, |t.chains[b]| - 1, c, i);
        }
      }
    }
  }

  /** A list without its `i`-th entry. */
  function Spliced(chain: seq<nat>, i: nat): seq<nat>
    requires i < |chain|
  {
    seq(|chain| - 1, j requires 0 <= j < |chain| - 1 => chain[if j >= i then j + 1 else j])
  }

  /** The `i`-th node of bucket `b` is bypassed. */
  function Unlinked<K, V>(t: Table<K, V>, h: Keys<K>, b: nat, i: nat): Table<K, V>
    requires b < |t.buckets| == |t.chains| && i < |t.chains[b]|
    requires forall j :: 0 <= j < |t.chains[b]| ==> t.chains[b][j] < |t.cells|
  {
    var chain := t.chains[b];
    var n := t.cells[chain[i]];
    Table(if i > 0 then t.cells[chain[i - 1] := t.cells[chain[i - 1]].(next := n.next)] else t.cells,
          if i > 0 then t.buckets else t.buckets[b := n.next],
          t.count - 1, t.chains[b := Spliced(chain, i)], t.contents - {h.rep(n.key)})
  }

  lemma UnlinkKeeps<K(!new), V>(t: Table<K, V>, h: Keys<K>, b: nat, i: nat)
    requires Shaped(t, h) && b < |t.buckets| && i < |t.chains[b]|
    requires forall j :: 0 <= j < |t.chains[b]| ==> t.chains[b][j] < |t.cells|
    ensures Shaped(Unlinked(t, h, b, i), h)
  {
    var u := Unlinked(t, h, b, i);
    assert ChainOk(t, h, b) && NodeOk(t.cells[t.chains[b][i]], h, t.contents, b, |t.buckets|);
    forall c | 0 <= c < |u.buckets| ensures ChainOk(u, h, c) {
      UnlinkKeepsChain(t, h, b, i, c);
    }
    forall k | k in u.contents ensures Present(u.cells, u.chains[Slot(h.hash(k), |u.buckets|)], k, h.rep) {
      UnlinkKeepsKey(t, h, b, i, k);
    }
  }

  lemma UnlinkKeepsKey<K(!new), V>(t: Table<K, V>, h: Keys<K>, b: nat, i: nat, k: K)
    requires Shaped(t, h) && b < |t.buckets| && i < |t.chains[b]|
    requires forall j :: 0 <= j < |t.chains[b]| ==> t.chains[b][j] < |t.cells|
    requires k in Unlinked(t, h, b, i).contents
    ensures var u := Unlinked(t, h, b, i); Present(u.cells, u.chains[Slot(h.hash(k), |u.buckets|)], k, h.rep)
  {
    var u, c := Unlinked(t, h, b, i), Slot(h.hash(k), |t.buckets|);
    var j := KeyAt(t, h, k);
    assert k != h.rep(t.cells[t.chains[b][i]].key);
    var now := if c == b && j > i then j - 1 else j;
    assert Before(b, i, c, now) == j;
    UnlinkKeepsNode(t, h, b, i, c, now);
    assert h.rep(u.cells[u.chains[c][now]].key) == k;
  }

  lemma KeyAt<K(!new), V>(t: Table<K, V>, h: Keys<K>, k: K) returns (j: nat)
    requires Shaped(t, h) && k in t.contents
    ensures var chain := t.chains[Slot(h.hash(k), |t.buckets|)];
      j < |chain| && chain[j] < |t.cells| && h.rep(t.cells[chain[j]].key) == k
  {
    var chain := t.chains[Slot(h.hash(k), |t.buckets|)];
    assert Present(t.cells, chain, k, h.rep);
    j :| 0 <= j < |chain| && chain[j] < |t.cells| && h.rep(t.cells[chain[j]].key) == k;
  }

  lemma UnlinkKeepsChain<K(!new), V>(t: Table<K, V>, h: Keys<K>, b: nat, i: nat, c: nat)
    requires Shaped(t, h) && b < |t.buckets| && i < |t.chains[b]| && c < |t.buckets|
    requires forall j :: 0 <= j < |t.chains[b]| ==> t.chains[b][j] < |t.cells|
    ensures ChainOk(Unlinked(t, h, b, i), h, c)
  {
    var u := Unlinked(t, h, b, i);
    assert ChainOk(t, h, b) && ChainOk(t, h, c);
    forall j | 0 <= j < |u.chains[c]|
      ensures u.chains[c][j] < |u.cells| && u.cells[u.chains[c][j]].next == At(u.chains[c], j + 1)
      ensures NodeOk(u.cells[u.chains[c][j]], h, u.contents, c, |u.buckets|)
      ensures u.cells[u.chains[c][j]].key == t.cells[t.chains[c][Before(b, i, c, j)]].key
    {
      UnlinkKeepsNode(t, h, b, i, c, j);
    }
    assert Linked(u.cells, u.buckets[c], u.chains[c]);
    assert KeysDiffer(u.cells, u.chains[c], h.rep);
  }

  /** Where the `j`-th node of bucket `c` was before the `i`-th of bucket `b` went. */
  function Before(b: nat, i: nat, c: nat, j: nat): nat {
    if c == b && j >= i then j + 1 else j
  }

  lemma UnlinkKeepsNode<K(!new), V>(t: Table<K, V>, h: Keys<K>, b: nat, i: nat, c: nat, j: nat)
    requires Shaped(t, h) && b < |t.buckets| && i < |t.chains[b]| && c < |t.buckets|
    requires forall k :: 0 <= k < |t.chains[b]| ==> t.chains[b][k] < |t.cells|
    requires j < |Unlinked(t, h, b, i).chains[c]|
    ensures var u, was := Unlinked(t, h, b, i), Before(b, i, c, j);
            was < |t.chains[c]| && u.chains[c][j] == t.chains[c][was] < |u.cells| == |t.cells| &&
            u.cells[u.chains[c][j]].key == t.cells[t.chains[c][was]].key &&
            u.cells[u.chains[c][j]].next == At(u.chains[c], j + 1) &&
            NodeOk(u.cells[u.chains[c][j]], h, u.contents, c, |u.buckets|)
  {
    var u, was := Unlinked(t, h, b, i), Before(b, i, c, j);
    assert ChainOk(t, h, b) && ChainOk(t, h, c);
    assert u.chains[c][j] == t.chains[c][was];
    var cellWas, cell := t.cells[t.chains[c][was]], u.cells[u.chains[c][j]];
    Apart(t, h, b, i, c, was);
    if i > 0 && (c != b || was != i - 1) {
      Apart(t, h, b, i - 1, c, was);
    }
    assert cell == if i > 0 && c == b && was == i - 1 then cellWas.(next := t.cells[t.chains[b][i]].next) else cellWas;
    assert NodeOk(cellWas, h, t.contents, c, |t.buckets|);
    assert cell.next == At(u.chains[c], j + 1);
  }

  // ---------------------------------------------------------------- moving all nodes to new buckets

  /** Whether the `y`-th node of bucket `a` has been moved when the walk is at the `j`-th node of bucket `i`. */
  predicate Moved(a: nat, y: nat, i: nat, j: nat) { a < i || (a == i && y < j) }

  ghost predicate WasMoved<K, V>(t: Table<K, V>, i: nat, j: nat, n: nat) {
    exists a: nat, y: nat :: a < |t.chains| && y < |t.chains[a]| && Moved(a, y, i, j) && t.chains[a][y] == n
  }

  ghost predicate Has(chain: seq<nat>, n: nat) {
    exists x :: 0 <= x < |chain| && chain[x] == n
  }

  ghost predicate DistinctNodes(chain: seq<nat>) {
    forall x, y {:trigger chain[x], chain[y]} :: 0 <= x < y < |chain| ==> chain[x] != chain[y]
  }

  /** New bucket `c` holds moved nodes that belong there. */
  ghost predicate Filled<K, V>(t: Table<K, V>, cells: seq<Cell<K, V>>, head: Option<nat>, chain: seq<nat>,
                               c: nat, size: nat, i: nat, j: nat)
    requires size > 0
  {
    Linked(cells, head, chain) && DistinctNodes(chain) &&
    (forall x {:trigger WasMoved(t, i, j, chain[x])} :: 0 <= x < |chain| ==> WasMoved(t, i, j, chain[x])) &&
    forall x {:trigger cells[chain[x]]} :: 0 <= x < |chain| ==>
      chain[x] < |cells| && Slot(cells[chain[x]].hash, size) == c
  }

  /** Only `next` fields have changed, and not those of nodes still to be moved. */
  ghost predicate SameNodes<K, V>(t: Table<K, V>, cells: seq<Cell<K, V>>, i: nat, j: nat) {
    |cells| == |t.cells| &&
    (forall n :: 0 <= n < |cells| ==> cells[n] == t.cells[n].(next := cells[n].next)) &&
    forall a: nat, y: nat {:trigger Moved(a, y, i, j)} ::
      a < |t.chains| && y < |t.chains[a]| && !Moved(a, y, i, j) ==>
      t.chains[a][y] < |cells| && cells[t.chains[a][y]] == t.cells[t.chains[a][y]]
  }

  ghost predicate Moving<K, V>(t: Table<K, V>, cells: seq<Cell<K, V>>, buckets: seq<Option<nat>>, chains: seq<seq<nat>>,
                               i: nat, j: nat)
  {
    0 < |buckets| == |chains| && SameNodes(t, cells, i, j) &&
    (forall c :: 0 <= c < |buckets| ==> Filled(t, cells, buckets[c], chains[c], c, |buckets|, i, j)) &&
    forall a: nat, y: nat {:trigger Arrived(t, chains, t.chains[a][y])} ::
      a < |t.chains| && y < |t.chains[a]| && Moved(a, y, i, j) ==> Arrived(t, chains, t.chains[a][y])
  }

  ghost predicate Arrived<K, V>(t: Table<K, V>, chains: seq<seq<nat>>, n: nat) {
    0 < |chains| && n < |t.cells| && Has(chains[Slot(t.cells[n].hash, |chains|)], n)
  }

  /** The cells after node `n` has been put behind `chain`. */
  function Tailed<K, V>(cells: seq<Cell<K, V>>, chain: seq<nat>, n: nat): seq<Cell<K, V>>
    requires n < |cells| && (chain != [] ==> chain[|chain| - 1] < |cells|)
  {
    var linked := if chain == [] then cells
                  else var x := chain[|chain| - 1]; cells[x := cells[x].(next := Some(n))];
    linked[n := linked[n].(next := None)]
  }

  lemma NotMovedYet<K(!new), V>(t: Table<K, V>, h: Keys<K>, i: nat, j: nat, a: nat, y: nat, n: nat)
    requires Shaped(t, h) && a < |t.chains| && y < |t.chains[a]| && !Moved(a, y, i, j) && WasMoved(t, i, j, n)
    ensures n != t.chains[a][y]
  {
    var b: nat, z: nat :| b < |t.chains| && z < |t.chains[b]| && Moved(b, z, i, j) && t.chains[b][z] == n;
    Apart(t, h, a, y, b, z);
  }

  /** A moved node is not the one to move now, and stays moved. */
  lemma MovedElse<K(!new), V>(t: Table<K, V>, h: Keys<K>, i: nat, j: nat, n: nat)
    requires Shaped(t, h) && i < |t.chains| && j < |t.chains[i]| && WasMoved(t, i, j, n)
    ensures n != t.chains[i][j] && WasMoved(t, i, j + 1, n)
  {
    NotMovedYet(t, h, i, j, i, j, n);
    var a: nat, y: nat :| a < |t.chains| && y < |t.chains[a]| && Moved(a, y, i, j) && t.chains[a][y] == n;
    assert Moved(a, y, i, j + 1);
  }

  /** The buckets that do not get the node. */
  lemma MoveOther<K(!new), V>(t: Table<K, V>, h: Keys<K>, cells: seq<Cell<K, V>>, head: Option<nat>, chain: seq<nat>,
                        target: seq<nat>, i: nat, j: nat, b: nat, c: nat, size: nat)
    requires Shaped(t, h) && i < |t.chains| && j < |t.chains[i]| && t.chains[i][j] < |cells| && size > 0 && b != c
    requires Filled(t, cells, head, chain, c, size, i, j)
    requires target != [] ==> target[|target| - 1] < |cells| && Slot(cells[target[|target| - 1]].hash, size) == b
    ensures Filled(t, Tailed(cells, target, t.chains[i][j]), head, chain, c, size, i, j + 1)
  {
    var next := Tailed(cells, target, t.chains[i][j]);
    forall x | 0 <= x < |chain| ensures next[chain[x]] == cells[chain[x]] && WasMoved(t, i, j + 1, chain[x]) {
      assert WasMoved(t, i, j, chain[x]);
      MovedElse(t, h, i, j, chain[x]);
      assert Slot(cells[chain[x]].hash, size) == c;
    }
  }

  /** The bucket that gets the node. */
  lemma MoveHere<K(!new), V>(t: Table<K, V>, h: Keys<K>, cells: seq<Cell<K, V>>, head: Option<nat>, chain: seq<nat>,
                       i: nat, j: nat, b: nat, size: nat)
    requires Shaped(t, h) && i < |t.chains| && j < |t.chains[i]| && t.chains[i][j] < |cells| && size > 0
    requires Filled(t, cells, head, chain, b, size, i, j) && b == Slot(cells[t.chains[i][j]].hash, size)
    requires chain != [] ==> chain[|chain| - 1] < |cells|
    ensures var n := t.chains[i][j];
            Filled(t, Tailed(cells, chain, n), if chain == [] then Some(n) else head, chain + [n], b, size, i, j + 1)
  {
    var n := t.chains[i][j];
    var next, longer := Tailed(cells, chain, n), chain + [n];
    forall x | 0 <= x < |chain|
      ensures chain[x] != n && WasMoved(t, i, j + 1, chain[x])
      ensures chain[x] < |cells| && Slot(next[chain[x]].hash, size) == b
      ensures next[chain[x]].next == At(longer, x + 1)
    {
      assert WasMoved(t, i, j, chain[x]);
      MovedElse(t, h, i, j, chain[x]);
      assert cells[chain[x]].next == At(chain, x + 1);
    }
    assert Moved(i, j, i, j + 1) && WasMoved(t, i, j + 1, n);
    assert next[n].next == None;
    assert forall x :: 0 <= x < |chain| ==> longer[x] == chain[x];
  }

  lemma MoveKeeps<K(!new), V>(t: Table<K, V>, h: Keys<K>, cells: seq<Cell<K, V>>, buckets: seq<Option<nat>>,
                        chains: seq<seq<nat>>, i: nat, j: nat, b: nat)
    requires Shaped(t, h) && Moving(t, cells, buckets, chains, i, j) && i < |t.chains| && j < |t.chains[i]|
    requires t.chains[i][j] < |cells| && b == Slot(cells[t.chains[i][j]].hash, |buckets|)
    requires chains[b] != [] ==> chains[b][|chains[b]| - 1] < |cells|
    ensures var n := t.chains[i][j];
            Moving(t, Tailed(cells, chains[b], n), if chains[b] == [] then buckets[b := Some(n)] else buckets,
                   chains[b := chains[b] + [n]], i, j + 1)
  {
    var n := t.chains[i][j];
    var next, moved := Tailed(cells, chains[b], n), chains[b := chains[b] + [n]];
    forall c | 0 <= c < |buckets|
      ensures Filled(t, next, (if chains[b] == [] then buckets[b := Some(n)] else buckets)[c], moved[c], c,
                     |buckets|, i, j + 1)
    {
      assert Filled(t, cells, buckets[c], chains[c], c, |buckets|, i, j);
      if c == b {
        MoveHere(t, h, cells, buckets[b], chains[b], i, j, b, |buckets|);
      } else {
        assert Filled(t, cells, buckets[b], chains[b], b, |buckets|, i, j);
        MoveOther(t, h, cells, buckets[c], chains[c], chains[b], i, j, b, c, |buckets|);
      }
    }
    forall a: nat, y: nat | a < |t.chains| && y < |t.chains[a]| && !Moved(a, y, i, j + 1)
      ensures t.chains[a][y] < |next| && next[t.chains[a][y]] == t.cells[t.chains[a][y]]
    {
      Apart(t, h, a, y, i, j);
      assert !Moved(a, y, i, j);
      if chains[b] != [] {
        assert Filled(t, cells, buckets[b], chains[b], b, |buckets|, i, j);
        assert WasMoved(t, i, j, chains[b][|chains[b]| - 1]);
        NotMovedYet(t, h, i, j, a, y, chains[b][|chains[b]| - 1]);
      }
    }
    forall a: nat, y: nat | a < |t.chains| && y < |t.chains[a]| && Moved(a, y, i, j + 1)
      ensures Arrived(t, moved, t.chains[a][y])
    {
      if a == i && y == j {
        assert moved[b][|chains[b]|] == n;
      } else {
        assert Arrived(t, chains, t.chains[a][y]);
        var home := Slot(t.cells[t.chains[a][y]].hash, |chains|);
        var x :| 0 <= x < |chains[home]| && chains[home][x] == t.chains[a][y];
        assert moved[home][x] == t.chains[a][y];
      }
    }
  }

  lemma MovingStart<K(!new), V>(t: Table<K, V>, h: Keys<K>, size: nat)
    requires Shaped(t, h) && size > 0
    ensures Moving(t, t.cells, seq(size, _ => None), seq(size, _ => []), 0, 0)
  {
    forall a: nat, y: nat | a < |t.chains| && y < |t.chains[a]| ensures t.chains[a][y] < |t.cells| {
      assert ChainOk(t, h, a);
    }
  }

  /** At the end of a bucket the walk goes on with the next. */
  lemma MovingNext<K, V>(t: Table<K, V>, cells: seq<Cell<K, V>>, buckets: seq<Option<nat>>, chains: seq<seq<nat>>,
                         i: nat)
    requires i < |t.chains| && Moving(t, cells, buckets, chains, i, |t.chains[i]|)
    ensures Moving(t, cells, buckets, chains, i + 1, 0)
  {
    forall n | WasMoved(t, i, |t.chains[i]|, n) ensures WasMoved(t, i + 1, 0, n) {
      var a: nat, y: nat :| a < |t.chains| && y < |t.chains[a]| && Moved(a, y, i, |t.chains[i]|) && t.chains[a][y] == n;
      assert Moved(a, y, i + 1, 0);
    }
    forall c | 0 <= c < |buckets| ensures Filled(t, cells, buckets[c], chains[c], c, |buckets|, i + 1, 0) {
      assert Filled(t, cells, buckets[c], chains[c], c, |buckets|, i, |t.chains[i]|);
      forall x | 0 <= x < |chains[c]| ensures WasMoved(t, i + 1, 0, chains[c][x]) {
        assert WasMoved(t, i, |t.chains[i]|, chains[c][x]);
      }
    }
    forall a: nat, y: nat | a < |t.chains| && y < |t.chains[a]| && !Moved(a, y, i + 1, 0)
      ensures t.chains[a][y] < |cells| && cells[t.chains[a][y]] == t.cells[t.chains[a][y]]
    {
      assert !Moved(a, y, i, |t.chains[i]|);
    }
    forall a: nat, y: nat | a < |t.chains| && y < |t.chains[a]| && Moved(a, y, i + 1, 0)
      ensures Arrived(t, chains, t.chains[a][y])
    {
      assert Moved(a, y, i, |t.chains[i]|);
    }
  }

  /** Once all nodes are moved, the new buckets hold each of them once and stand for the same map. */
  lemma MovedAll<K(!new), V>(t: Table<K, V>, h: Keys<K>, cells: seq<Cell<K, V>>, buckets: seq<Option<nat>>,
                   chains: seq<seq<nat>>)
    requires Shaped(t, h) && Moving(t, cells, buckets, chains, |t.chains|, 0)
    ensures Shaped(Table(cells, buckets, t.count, chains, t.contents), h)
  {
    var u := Table(cells, buckets, t.count, chains, t.contents);
    forall c | 0 <= c < |buckets| ensures ChainOk(u, h, c) {
      assert Filled(t, cells, buckets[c], chains[c], c, |buckets|, |t.chains|, 0);
      forall x | 0 <= x < |chains[c]| ensures NodeOk(cells[chains[c][x]], h, t.contents, c, |buckets|) {
        var a, y := Origin(t, h, chains[c][x]);
      }
      forall x, z | 0 <= x < z < |chains[c]| ensures h.rep(cells[chains[c][x]].key) != h.rep(cells[chains[c][z]].key) {
        var a, y := Origin(t, h, chains[c][x]);
        var d, w := Origin(t, h, chains[c][z]);
        Apart(t, h, a, y, d, w);
      }
    }
    forall k | k in t.contents ensures Present(cells, chains[Slot(h.hash(k), |buckets|)], k, h.rep) {
      var a := Slot(h.hash(k), |t.buckets|);
      assert Present(t.cells, t.chains[a], k, h.rep) && ChainOk(t, h, a);
      var y :| 0 <= y < |t.chains[a]| && h.rep(t.cells[t.chains[a][y]].key) == k;
      assert NodeOk(t.cells[t.chains[a][y]], h, t.contents, a, |t.buckets|);
      assert Moved(a, y, |t.chains|, 0) && Arrived(t, chains, t.chains[a][y]);
    }
  }

  lemma Origin<K(!new), V>(t: Table<K, V>, h: Keys<K>, n: nat) returns (a: nat, y: nat)
    requires Shaped(t, h) && WasMoved(t, |t.chains|, 0, n)
    ensures a < |t.chains| && y < |t.chains[a]| && t.chains[a][y] == n < |t.cells|
    ensures NodeOk(t.cells[n], h, t.contents, a, |t.buckets|)
  {
    a, y :| a < |t.chains| && y < |t.chains[a]| && Moved(a, y, |t.chains|, 0) && t.chains[a][y] == n;
    assert ChainOk(t, h, a);
    assert t.cells[t.chains[a][y]] == t.cells[n];
  }

  // ---------------------------------------------------------------- the C functions

  /** A walk that passed no equal key has found the key, or knows that it is not there. */
  lemma WalkEnds<K(!new), V>(t: Table<K, V>, h: Keys<K>, key: K, i: nat)
    requires Inv(t, h) && ChainOk(t, h, Slot(h.hash(key), |t.buckets|))
    requires var chain := t.chains[Slot(h.hash(key), |t.buckets|)];
      i <= |chain| && (forall j :: 0 <= j < i ==> h.rep(t.cells[chain[j]].key) != h.rep(key)) &&
      (i < |chain| ==> h.rep(t.cells[chain[i]].key) == h.rep(key))
    ensures var chain := t.chains[Slot(h.hash(key), |t.buckets|)];
      (i < |chain| <==> h.rep(key) in t.contents) &&
      (i < |chain| ==> t.cells[chain[i]].val == t.contents[h.rep(key)])
  {
    var b := Slot(h.hash(key), |t.buckets|);
    var chain := t.chains[b];
    if i < |chain| {
      assert NodeOk(t.cells[chain[i]], h, t.contents, b, |t.buckets|);
    } else {
      assert !Present(t.cells, chain, h.rep(key), h.rep);
    }
  }

  class Hashtable<K(!new), V> {
    /** Every call passes the same hash function and the same equality. */
    const hashOf: K -> int
    const same: (K, K) -> bool
    ghost const keys: Keys<K>
    var cells: seq<Cell<K, V>>
    var buckets: seq<Option<nat>>
    var count: int
    ghost var chains: seq<seq<nat>>
    ghost var contents: map<K, V>

    ghost function Now(): Table<K, V>
      reads this
    {
      Table(cells, buckets, count, chains, contents)
    }

    ghost predicate Valid()
      reads this
    {
      Inv(Now(), keys) && keys.hash == hashOf && Compares(same, keys.rep)
    }

    /** hst_create */
    constructor (hashOf: K -> int, same: (K, K) -> bool, ghost rep: K -> K)
      requires Respects(Keys(hashOf, rep)) && Compares(same, rep)
      ensures Valid() && contents == map[] && |buckets| == 8 && this.hashOf == hashOf && this.same == same
      ensures keys == Keys(hashOf, rep)
    {
      this.hashOf, this.same, keys := hashOf, same, Keys(hashOf, rep);
      cells, buckets, count := [], seq(8, _ => None), 0;
      chains, contents := seq(8, _ => []), map[];
    }

    /** The walk along a bucket that the operations share: the node with the key, if any, and the one before. */
    method Walk(key: K) returns (n: Option<nat>, prev: Option<nat>, ghost i: nat)
      requires Valid()
      ensures var chain := chains[Slot(hashOf(key), |buckets|)];
              i <= |chain| && n == At(chain, i) && prev == (if i > 0 then Some(chain[i - 1]) else None) &&
              (forall j :: 0 <= j < |chain| ==> chain[j] < |cells|)
      ensures n.Some? <==> keys.rep(key) in contents
      ensures n.Some? ==> n.value < |cells| && keys.rep(cells[n.value].key) == keys.rep(key) &&
                          cells[n.value].val == contents[keys.rep(key)]
    {
      var b := Slot(hashOf(key), |buckets|);
      ghost var chain := chains[b];
      assert ChainOk(Now(), keys, b);
      n, prev, i := buckets[b], None, 0;
      while n.Some? && !same(cells[n.value].key, key)
        invariant 0 <= i <= |chain| && n == At(chain, i) && prev == if i > 0 then Some(chain[i - 1]) else None
        invariant forall j :: 0 <= j < i ==> keys.rep(cells[chain[j]].key) != keys.rep(key)
        decreases |chain| - i
      {
        n, prev, i := cells[n.value].next, n, i + 1;
      }
      WalkEnds(Now(), keys, key, i);
    }

    /** hst_get */
    method Get(key: K) returns (r: Option<V>)
      requires Valid()
      ensures r == if keys.rep(key) in contents then Some(contents[keys.rep(key)]) else None
    {
      var n, prev, i := Walk(key);
      r := if n.Some? then Some(cells[n.value].val) else None;
    }

    /** hst_contains_key */
    method ContainsKey(key: K) returns (r: bool)
      requires Valid()
      ensures r == (keys.rep(key) in contents)
    {
      var n, prev, i := Walk(key);
      r := n.Some?;
    }

    /** hst_put */
    method Put(key: K, val: V)
      requires Valid()
      modifies this
      ensures Valid() && contents == old(contents)[keys.rep(key) := val] && |buckets| == old(|buckets|)
      ensures keys.rep(key) in old(contents) && old(contents)[keys.rep(key)] == val ==> Now() == old(Now())
    {
      var hash := hashOf(key);
      var b := Slot(hash, |buckets|);
      var n, prev, i := Walk(key);
      ghost var t := Now();
      if n.Some? {
        OverwriteKeeps(t, keys, b, i, val);
        cells := cells[n.value := cells[n.value].(val := val)];
        contents := contents[keys.rep(key) := val];
        assert Now() == Overwritten(t, keys, n.value, val);
      } else {
        AppendKeeps(t, keys, key, val);
        var node := |cells|;
        cells := cells + [Cell(hash, key, val, None)];
        if prev.None? {
          buckets := buckets[b := Some(node)];
        } else {
          cells := cells[prev.value := cells[prev.value].(next := Some(node))];
        }
        count := count + 1;
        chains := chains[b := chains[b] + [node]];
        contents := contents[keys.rep(key) := val];
        assert Now() == Appended(t, keys, b, hash, key, val);
      }
    }

    /** hst_remove_key */
    method RemoveKey(key: K) returns (r: Option<V>)
      requires Valid()
      modifies this
      ensures Valid() && contents == old(contents) - {keys.rep(key)} && |buckets| == old(|buckets|)
      ensures r == if keys.rep(key) in old(contents) then Some(old(contents)[keys.rep(key)]) else None
    {
      var b := Slot(hashOf(key), |buckets|);
      var n, prev, i := Walk(key);
      if n.None? {
        return None;
      }
      ghost var t := Now();
      UnlinkKeeps(t, keys, b, i);
      r := Some(cells[n.value].val);
      if prev.Some? {
        cells := cells[prev.value := cells[prev.value].(next := cells[n.value].next)];
      } else {
        buckets := buckets[b := cells[n.value].next];
      }
      count := count - 1;
      chains := chains[b := Spliced(chains[b], i)];
      contents := contents - {keys.rep(key)};
      assert Now() == Unlinked(t, keys, b, i);
    }

    /** hst_resize: every node goes to the end of its new bucket. */
    method Resize()
      requires Valid()
      modifies this
      ensures Valid() && contents == old(contents) && count == old(count)
      ensures |buckets| == if old(|buckets|) > 1000 then old(|buckets|) + 1000 else old(|buckets|) * 2
    {
      ghost var t := Now();
      var size := |buckets|;
      var ns := if size > 1000 then size + 1000 else size * 2;
      var fresh_buckets: seq<Option<nat>> := seq(ns, _ => None);
      ghost var moved: seq<seq<nat>> := seq(ns, _ => []);
      MovingStart(t, keys, ns);
      var i := 0;
      while i < size
        invariant 0 <= i <= size && unchanged(`buckets, `count, `chains, `contents)
        invariant Moving(t, cells, fresh_buckets, moved, i, 0) && |fresh_buckets| == ns
      {
        fresh_buckets, moved := MoveBucket(t, fresh_buckets, moved, i);
        MovingNext(t, cells, fresh_buckets, moved, i);
        i := i + 1;
      }
      MovedAll(t, keys, cells, fresh_buckets, moved);
      buckets, chains := fresh_buckets, moved;
    }

    method MoveBucket(ghost t: Table<K, V>, to: seq<Option<nat>>, ghost chainsTo: seq<seq<nat>>, i: nat)
      returns (heads: seq<Option<nat>>, ghost moved: seq<seq<nat>>)
      requires Shaped(t, keys) && i < |buckets| && buckets == t.buckets && Moving(t, cells, to, chainsTo, i, 0)
      modifies this`cells
      ensures Moving(t, cells, heads, moved, i, |t.chains[i]|) && |heads| == |to|
    {
      heads, moved := to, chainsTo;
      var n := buckets[i];
      ghost var j := 0;
      assert ChainOk(t, keys, i);
      while n.Some?
        invariant 0 <= j <= |t.chains[i]| && n == At(t.chains[i], j) && |heads| == |to|
        invariant Moving(t, cells, heads, moved, i, j)
        decreases |t.chains[i]| - j
      {
        assert !Moved(i, j, i, j);
        var p := cells[n.value].next;
        heads, moved := MoveNode(t, heads, moved, i, j, n.value);
        n, j := p, j + 1;
      }
    }

    /** One node goes to the end of its new bucket. */
    method MoveNode(ghost t: Table<K, V>, to: seq<Option<nat>>, ghost chainsTo: seq<seq<nat>>, ghost i: nat,
                    ghost j: nat, n: nat)
      returns (heads: seq<Option<nat>>, ghost moved: seq<seq<nat>>)
      requires Shaped(t, keys) && i < |t.chains| && j < |t.chains[i]| && n == t.chains[i][j] < |cells|
      requires Moving(t, cells, to, chainsTo, i, j)
      modifies this`cells
      ensures Moving(t, cells, heads, moved, i, j + 1) && |heads| == |to|
    {
      heads, moved := to, chainsTo;
      var mod := Slot(cells[n].hash, |heads|);
      assert Filled(t, cells, heads[mod], moved[mod], mod, |heads|, i, j);
      MoveKeeps(t, keys, cells, heads, moved, i, j, mod);
      ghost var was := cells;
      if heads[mod].None? {
        heads := heads[mod := Some(n)];
      } else {
        var x := Last(heads[mod].value, moved[mod]);
        cells := cells[x := cells[x].(next := Some(n))];
      }
      cells := cells[n := cells[n].(next := None)];
      assert cells == Tailed(was, moved[mod], n);
      moved := moved[mod := moved[mod] + [n]];
    }

    /** The walk to the end of a list. */
    method Last(head: nat, ghost chain: seq<nat>) returns (x: nat)
      requires Linked(cells, Some(head), chain)
      ensures chain != [] && x == chain[|chain| - 1]
    {
      x := head;
      ghost var k := 0;
      while cells[x].next.Some?
        invariant 0 <= k < |chain| && x == chain[k]
        decreases |chain| - k
      {
        assert cells[chain[k]].next == At(chain, k + 1);
        x, k := cells[x].next.value, k + 1;
      }
      assert cells[chain[k]].next == At(chain, k + 1);
    }

    /** hst_add_all_from; the other table may be this one. */
    method AddAllFrom(other: Hashtable<K, V>)
      requires Valid() && other.Valid() && other.keys.rep == keys.rep
      modifies this
      ensures Valid() && contents == old(contents) + old(other.contents) && |buckets| == old(|buckets|)
    {
      ghost var t, done := other.Now(), {};
      var i := 0;
      while i < |other.buckets|
        invariant 0 <= i <= |other.buckets| && Valid() && |buckets| == old(|buckets|) && other.Now() == t
        invariant Added(old(contents), t.contents, done, contents)
        invariant forall a {:trigger BucketDone(t, keys, a, |t.chains[a]|, done)} ::
          0 <= a < i ==> BucketDone(t, keys, a, |t.chains[a]|, done)
      {
        ghost var more := AddBucket(other, i, t, old(contents), done);
        forall a | 0 <= a < i ensures BucketDone(t, keys, a, |t.chains[a]|, more) {
          assert BucketDone(t, keys, a, |t.chains[a]|, done);
        }
        done := more;
        i := i + 1;
      }
      forall k | k in t.contents ensures k in done {
        var a := Slot(other.hashOf(k), |t.buckets|);
        assert Present(t.cells, t.chains[a], k, keys.rep) && BucketDone(t, keys, a, |t.chains[a]|, done);
      }
    }

    method AddBucket(other: Hashtable<K, V>, i: nat, ghost t: Table<K, V>, ghost before: map<K, V>, ghost done: set<K>)
      returns (ghost more: set<K>)
      requires Valid() && t == other.Now() && other.Valid() && other.keys.rep == keys.rep && i < |other.buckets|
      requires Added(before, t.contents, done, contents)
      modifies this
      ensures Valid() && |buckets| == old(|buckets|) && other.Now() == t
      ensures done <= more && Added(before, t.contents, more, contents) && BucketDone(t, keys, i, |t.chains[i]|, more)
    {
      NodeAt(t, other.keys, i, 0);
      more := done;
      var n := other.buckets[i];
      ghost var j := 0;
      while n.Some?
        invariant 0 <= j <= |t.chains[i]| && n == At(t.chains[i], j) && Valid() && |buckets| == old(|buckets|)
        invariant other.Now() == t
        invariant done <= more && Added(before, t.contents, more, contents) && BucketDone(t, keys, i, j, more)
        decreases |t.chains[i]| - j
      {
        n, more := AddNode(other, n.value, i, j, t, before, more);
        j := j + 1;
      }
    }

    /** One node of the other table is put into this one. */
    method AddNode(other: Hashtable<K, V>, n: nat, ghost i: nat, ghost j: nat, ghost t: Table<K, V>,
                   ghost before: map<K, V>, ghost done: set<K>)
      returns (next: Option<nat>, ghost more: set<K>)
      requires Valid() && t == other.Now() && other.Valid() && other.keys.rep == keys.rep
      requires i < |t.chains| && j < |t.chains[i]| && n == t.chains[i][j]
      requires Added(before, t.contents, done, contents) && BucketDone(t, keys, i, j, done)
      modifies this
      ensures Valid() && |buckets| == old(|buckets|) && other.Now() == t && next == At(t.chains[i], j + 1)
      ensures done <= more && Added(before, t.contents, more, contents) && BucketDone(t, keys, i, j + 1, more)
    {
      NodeAt(t, other.keys, i, j);
      var cell := other.cells[n];
      AddedNext(before, t.contents, done, contents, keys.rep(cell.key));
      BucketNext(t, keys, i, j, done);
      Put(cell.key, cell.val);
      more := done + {keys.rep(cell.key)};
      next := cell.next;
    }
  }

  lemma NodeAt<K(!new), V>(t: Table<K, V>, h: Keys<K>, b: nat, j: nat)
    requires Shaped(t, h) && b < |t.chains| && j <= |t.chains[b]|
    ensures t.buckets[b] == At(t.chains[b], 0)
    ensures j < |t.chains[b]| ==>
              t.chains[b][j] < |t.cells| &&
              var cell := t.cells[t.chains[b][j]];
              cell.next == At(t.chains[b], j + 1) && h.rep(cell.key) in t.contents &&
              t.contents[h.rep(cell.key)] == cell.val
  {
    assert ChainOk(t, h, b);
    if j < |t.chains[b]| {
      assert NodeOk(t.cells[t.chains[b][j]], h, t.contents, b, |t.buckets|);
    }
  }

  lemma AddedNext<K, V>(before: map<K, V>, from: map<K, V>, done: set<K>, now: map<K, V>, k: K)
    requires Added(before, from, done, now) && k in from
    ensures Added(before, from, done + {k}, now[k := from[k]])
  {
  }

  lemma BucketNext<K, V>(t: Table<K, V>, h: Keys<K>, a: nat, n: nat, done: set<K>)
    requires BucketDone(t, h, a, n, done) && n < |t.chains[a]| && t.chains[a][n] < |t.cells|
    ensures BucketDone(t, h, a, n + 1, done + {h.rep(t.cells[t.chains[a][n]].key)})
  {
  }

  /** The first `n` nodes of bucket `a` have their keys in `done`. */
  ghost predicate BucketDone<K, V>(t: Table<K, V>, h: Keys<K>, a: nat, n: nat, done: set<K>) {
    a < |t.chains| && n <= |t.chains[a]| &&
    forall y :: 0 <= y < n ==> t.chains[a][y] < |t.cells| && h.rep(t.cells[t.chains[a][y]].key) in done
  }

  /** `now` is `before` with the entries of `from` whose keys are in `done`. */
  ghost predicate Added<K, V>(before: map<K, V>, from: map<K, V>, done: set<K>, now: map<K, V>) {
    done <= from.Keys && now.Keys == before.Keys + done &&
    forall k :: k in now ==> now[k] == if k in done then from[k] else before[k]
  }
}
