/**
  Who owns which cluster.  An object is named by its path, the positions of the
  children on the way to it; its chain is its own clusters, without those of the
  objects below it.
*/
module FatOwnership {
  import opened Bytes
  import opened FatReader
  import opened FatLayout

  /** An object and the first cluster of its range. */
  datatype Place = Place(node: Node, lo: nat)

  function ChildPlace(kids: seq<Node>, j: nat, base: nat): Place
    requires j < |kids|
  {
    Place(kids[j], FirstOf(kids, j, base))
  }

  /** The object at a path below the children of one directory has the cluster in its own chain. */
  predicate Holds(kids: seq<Node>, base: nat, path: seq<nat>, c: nat)
    decreases |path|
  {
    && path != [] && path[0] < |kids|
    && var p := ChildPlace(kids, path[0], base);
       if |path| == 1 then c in Chain(p.node, p.lo) else p.node.Dir? && Holds(p.node.kids, p.lo + 1, path[1..], c)
  }

  /** The clusters of an object itself: all of a file's range, both ends of a directory's. */
  lemma ChainMembers(n: Node, lo: nat, c: nat)
    ensures c in Chain(n, lo) <==>
      lo <= c < lo + Clusters(n) && (n.Dir? ==> c == lo || lo + 1 + Span(n.kids, |n.kids|) <= c)
  {
    var chain := Chain(n, lo);
    if lo <= c < lo + Clusters(n) {
      match n
      case File(_, _, _) => assert chain[c - lo] == c;
      case Dir(_, _, kids) =>
        var tail := lo + 1 + Span(kids, |kids|);
        if c == lo {
          assert chain[0] == c;
        } else if tail <= c {
          assert chain[c - tail + 1] == c;
        }
    }
  }

  predicate InRange(p: Place, c: nat) {
    p.lo <= c < p.lo + Clusters(p.node)
  }

  /** The ranges of siblings do not overlap. */
  lemma SiblingsDisjoint(kids: seq<Node>, base: nat, i: nat, j: nat, c: nat)
    requires i < |kids| && j < |kids| && InRange(ChildPlace(kids, i, base), c) && InRange(ChildPlace(kids, j, base), c)
    ensures i == j
  {
    if i < j {
      SpanMonotone(kids, i, j);
    } else if j < i {
      SpanMonotone(kids, j, i);
    }
  }

  /** Whatever holds a cluster lies in the range of the child it is below. */
  lemma {:induction false} HolderInRange(kids: seq<Node>, base: nat, path: seq<nat>, c: nat)
    requires Holds(kids, base, path, c)
    ensures InRange(ChildPlace(kids, path[0], base), c) && base <= c < base + Span(kids, |kids|)
    ensures var k := ChildPlace(kids, path[0], base);
      if |path| == 1 then c in Chain(k.node, k.lo)
      else k.node.Dir? && k.lo < c < k.lo + 1 + Span(k.node.kids, |k.node.kids|)
    decreases |path|
  {
    var k := ChildPlace(kids, path[0], base);
    SpanMonotone(kids, path[0], |kids|);
    if |path| == 1 {
      ChainMembers(k.node, k.lo, c);
    } else {
      HolderInRange(k.node.kids, k.lo + 1, path[1..], c);
    }
  }

  /** A directory's own clusters and those below it are told apart by their place in its range. */
  lemma OwnOrBelow(n: Node, lo: nat, c: nat)
    requires n.Dir?
    ensures lo < c < lo + 1 + Span(n.kids, |n.kids|) ==> c !in Chain(n, lo)
  {
    ChainMembers(n, lo, c);
  }

  /** Two holders of a cluster go through the same child, and either both or none of them is that child. */
  lemma SameChild(kids: seq<Node>, base: nat, a: seq<nat>, b: seq<nat>, c: nat)
    requires Holds(kids, base, a, c) && Holds(kids, base, b, c)
    ensures a != [] && b != [] && a[0] == b[0] && (|a| == 1 <==> |b| == 1)
  {
    HolderInRange(kids, base, a, c);
    HolderInRange(kids, base, b, c);
    SiblingsDisjoint(kids, base, a[0], b[0], c);
    var k := ChildPlace(kids, a[0], base);
    if k.node.Dir? {
      OwnOrBelow(k.node, k.lo, c);
    }
  }

  lemma SamePath(a: seq<nat>, b: seq<nat>)
    requires a != [] && b != [] && a[0] == b[0] && a[1..] == b[1..]
    ensures a == b
  {
    assert a == [a[0]] + a[1..] && b == [b[0]] + b[1..];
  }

  /** The chains of two different objects share no cluster. */
  lemma {:induction false} ChainsDisjoint(kids: seq<Node>, base: nat, a: seq<nat>, b: seq<nat>, c: nat)
    requires Holds(kids, base, a, c) && Holds(kids, base, b, c)
    ensures a == b
    decreases |a|
  {
    SameChild(kids, base, a, b, c);
    if |a| > 1 {
      var k := ChildPlace(kids, a[0], base);
      ChainsDisjoint(k.node.kids, k.lo + 1, a[1..], b[1..], c);
    }
    SamePath(a, b);
  }

  /** The child whose range has a cluster. */
  lemma {:induction false} ChildOf(kids: seq<Node>, j: nat, base: nat, c: nat) returns (i: nat)
    requires j <= |kids| && base <= c < base + Span(kids, j)
    ensures i < j && InRange(ChildPlace(kids, i, base), c)
  {
    if base + Span(kids, j - 1) <= c {
      return j - 1;
    }
    i := ChildOf(kids, j - 1, base, c);
  }

  /** Every cluster of a range belongs to an object. */
  lemma {:induction false} EveryClusterHeld(kids: seq<Node>, base: nat, c: nat) returns (path: seq<nat>)
    requires base <= c < base + Span(kids, |kids|)
    ensures Holds(kids, base, path, c)
    decreases kids
  {
    var i := ChildOf(kids, |kids|, base, c);
    var k := ChildPlace(kids, i, base);
    ChainMembers(k.node, k.lo, c);
    if c in Chain(k.node, k.lo) {
      return [i];
    }
    var rest := EveryClusterHeld(k.node.kids, k.lo + 1, c);
    path := [i] + rest;
    assert path[1..] == rest;
  }

  ghost predicate Held(kids: seq<Node>, base: nat, c: nat) {
    exists path :: Holds(kids, base, path, c)
  }

  ghost predicate HeldOnce(kids: seq<Node>, base: nat, c: nat) {
    forall a, b :: Holds(kids, base, a, c) && Holds(kids, base, b, c) ==> a == b
  }

  /** The clusters held below a directory are exactly one range. */
  lemma HeldExactly(kids: seq<Node>, base: nat, c: nat)
    ensures Held(kids, base, c) <==> base <= c < base + Span(kids, |kids|)
  {
    if Held(kids, base, c) {
      var path :| Holds(kids, base, path, c);
      HolderInRange(kids, base, path, c);
    }
    if base <= c < base + Span(kids, |kids|) {
      var path := EveryClusterHeld(kids, base, c);
      assert Holds(kids, base, path, c);
    }
  }

  lemma NeverShared(kids: seq<Node>, base: nat, c: nat)
    ensures HeldOnce(kids, base, c)
  {
    forall a, b | Holds(kids, base, a, c) && Holds(kids, base, b, c) ensures a == b {
      ChainsDisjoint(kids, base, a, b, c);
    }
  }

  // ---------------------------------------------------------------- what the table says

  ghost predicate InUse(fat: seq<nat>, c: nat) {
    c < |fat| && fat[c] != 0
  }

  /** Every cluster below `next` is in use. */
  ghost predicate Taken(fat: seq<nat>, next: nat) {
    forall c :: 2 <= c < next ==> InUse(fat, c)
  }

  /** A stored chain leaves no zero in the table. */
  lemma StoredLinks(v: Volume, chain: seq<nat>, content: seq<byte>, c: nat)
    requires ObjectStored(v, chain, content) && c in chain
    ensures 2 <= c && InUse(v.fat, c)
  {
    var i :| 0 <= i < |chain| && chain[i] == c;
    assert LinkAt(v.fat, chain, i);
    if i + 1 < |chain| {
      assert LinkAt(v.fat, chain, i + 1);
    }
  }

  lemma TakeNext(fat: seq<nat>, next: nat)
    requires Taken(fat, next) && next < |fat|
    ensures Taken(fat[next := EOC], next + 1)
  {
    var after := fat[next := EOC];
    forall c | 2 <= c < next + 1 ensures InUse(after, c) {
      assert c < next ==> InUse(fat, c);
    }
  }

  /** A cluster is in use exactly when an object of the tree holds it, and then only one does. */
  ghost predicate OneHolderEach(fat: seq<nat>, kids: seq<Node>, base: nat) {
    forall c :: base <= c < |fat| ==> (fat[c] != 0 <==> Held(kids, base, c)) && HeldOnce(kids, base, c)
  }

  /** If the clusters in use are one range of the right size, they are the clusters of the tree. */
  lemma Allocated(fat: seq<nat>, kids: seq<Node>, base: nat)
    requires forall c :: base <= c < |fat| ==> (fat[c] != 0 <==> c < base + Span(kids, |kids|))
    ensures OneHolderEach(fat, kids, base)
  {
    forall c | base <= c < |fat| ensures (fat[c] != 0 <==> Held(kids, base, c)) && HeldOnce(kids, base, c) {
      HeldExactly(kids, base, c);
      NeverShared(kids, base, c);
    }
  }
}
