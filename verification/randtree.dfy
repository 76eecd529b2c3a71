/** The guest program the heap tracker watches: it grows a random binary tree
    one node per iteration and prints it in preorder. The C pointers become
    an immutable tree addressed by paths, and `random()` becomes a stream
    of values read from a position that every call advances. */
module RandTree {

  /** `struct node`; `Nil` is the null pointer. */
  datatype Tree = Nil | Node(data: int, left: Tree, right: Tree)

  datatype Dir = L | R

  /** The values `random()` returns after `srandom(seed)`, by call number. */
  type Rand = nat -> nat

  function Size(t: Tree): nat {
    match t
    case Nil => 0
    case Node(_, l, r) => 1 + Size(l) + Size(r)
  }

  function Height(t: Tree): nat {
    match t
    case Nil => 0
    case Node(_, l, r) => 1 + (if Height(l) >= Height(r) then Height(l) else Height(r))
  }

  /** The multiset of `data` fields. */
  function Values(t: Tree): multiset<int> {
    match t
    case Nil => multiset{}
    case Node(d, l, r) => multiset{d} + Values(l) + Values(r)
  }

  predicate Full(t: Tree) {
    t.Node? && t.left.Node? && t.right.Node?
  }

  /** The subtree a path leads to; `Nil` once it leaves the tree. */
  function At(t: Tree, p: seq<Dir>): Tree {
    if |p| == 0 || t.Nil? then t
    else if p[0] == L then At(t.left, p[1..])
    else At(t.right, p[1..])
  }

  lemma {:induction false} AtAppend(t: Tree, p: seq<Dir>, d: Dir)
    requires At(t, p).Node?
    ensures At(t, p + [d]) == if d == L then At(t, p).left else At(t, p).right
  {
    if |p| > 0 {
      assert (p + [d])[1..] == p[1..] + [d];
      if p[0] == L { AtAppend(t.left, p[1..], d); } else { AtAppend(t.right, p[1..], d); }
    }
  }

  /** `get_rand_non_full_node`: from a full node, a coin toss (`random() % 2`)
      picks the right subtree on 0 and the left one otherwise; the first
      node with a free child is returned. Whatever the random values, the
      result is a node of the tree with a free child, reached in fewer steps
      than the tree's height, one `random()` call per step. */
  function GetRandNonFullNode(t: Tree, rand: Rand, pos: nat): (r: (seq<Dir>, nat))
    requires t.Node?
    ensures At(t, r.0).Node? && !Full(At(t, r.0))
    ensures |r.0| < Height(t)
    ensures r.1 == pos + |r.0|
    decreases t
  {
    if t.right.Node? && t.left.Node? then
      if rand(pos) % 2 == 0 then
        var (p, pos') := GetRandNonFullNode(t.right, rand, pos + 1);
        assert At(t, [R] + p) == At(t.right, p) by { assert ([R] + p)[1..] == p; }
        ([R] + p, pos')
      else
        var (p, pos') := GetRandNonFullNode(t.left, rand, pos + 1);
        assert At(t, [L] + p) == At(t.left, p) by { assert ([L] + p)[1..] == p; }
        ([L] + p, pos')
    else ([], pos)
  }

  /** Sets the free child `d` of the node at path `p` to `n`. */
  function Attach(t: Tree, p: seq<Dir>, d: Dir, n: Tree): (r: Tree)
    requires At(t, p).Node?
    requires if d == L then At(t, p).left.Nil? else At(t, p).right.Nil?
    ensures r.Node?
    ensures Values(r) == Values(t) + Values(n)
    ensures Size(r) == Size(t) + Size(n)
    decreases p
  {
    if |p| == 0 then
      if d == L then t.(left := n) else t.(right := n)
    else
      if p[0] == L then t.(left := Attach(t.left, p[1..], d, n))
      else t.(right := Attach(t.right, p[1..], d, n))
  }

  /** The attached tree sits where the path and side lead. */
  lemma {:induction false} AttachAt(t: Tree, p: seq<Dir>, d: Dir, n: Tree)
    requires At(t, p).Node?
    requires if d == L then At(t, p).left.Nil? else At(t, p).right.Nil?
    ensures At(Attach(t, p, d, n), p + [d]) == n
    decreases p
  {
    if |p| == 0 {
      assert [d][1..] == [];
    } else {
      assert (p + [d])[1..] == p[1..] + [d];
      if p[0] == L { AttachAt(t.left, p[1..], d, n); } else { AttachAt(t.right, p[1..], d, n); }
    }
  }

  lemma AttachKeepsRoot(t: Tree, p: seq<Dir>, d: Dir, n: Tree)
    requires At(t, p).Node?
    requires if d == L then At(t, p).left.Nil? else At(t, p).right.Nil?
    ensures Attach(t, p, d, n).data == t.data
  {
  }

  /** One new node and where it went. */
  datatype Insertion = Insertion(tree: Tree, parent: seq<Dir>, side: Dir, pos: nat)

  /** The direction rule of the loop body: with `c = random()`, the node goes
      left exactly when c % 4 == 0 and the left slot is free, or c % 4 != 0
      and the right slot is taken. */
  predicate GoesLeft(n: Tree, c: nat)
    requires n.Node?
  {
    (c % 4 == 0 && n.left.Nil?) || (c % 4 != 0 && n.right.Node?)
  }

  /** The side the new node goes to under the non-full node `n`, given
      `c = random()`. Both of the loop's `assert`s sit here, and both hold
      because `n` is never full. */
  function ChooseSide(n: Tree, c: nat): (d: Dir)
    requires n.Node? && !Full(n)
    ensures d == L <==> GoesLeft(n, c)
    ensures if d == L then n.left.Nil? else n.right.Nil?
  {
    if c % 4 == 0 then
      if n.left.Nil? then L
      else assert n.right.Nil?; R
    else
      if n.right.Nil? then R
      else assert n.left.Nil?; L
  }

  /** Hangs a leaf holding `i` on the free side `side` of the node at `p`. */
  function HangLeaf(t: Tree, p: seq<Dir>, side: Dir, i: int, pos: nat): (r: Insertion)
    requires At(t, p).Node?
    requires if side == L then At(t, p).left.Nil? else At(t, p).right.Nil?
    ensures r.parent == p && r.side == side && r.pos == pos
    ensures r.tree.Node? && r.tree.data == t.data
    ensures At(t, p + [side]).Nil?
    ensures At(r.tree, p + [side]) == Node(i, Nil, Nil)
    ensures Values(r.tree) == Values(t) + multiset{i}
    ensures Size(r.tree) == Size(t) + 1
  {
    var leaf := Node(i, Nil, Nil);
    assert Values(leaf) == multiset{i} && Size(leaf) == 1;
    AtAppend(t, p, side);
    AttachKeepsRoot(t, p, side, leaf);
    AttachAt(t, p, side, leaf);
    Insertion(Attach(t, p, side, leaf), p, side, pos)
  }

  /** One iteration of the loop in `main`: a leaf holding `i` is hung under a
      randomly chosen non-full node, on the side the direction rule picks. */
  function InsertNode(t: Tree, i: int, rand: Rand, pos: nat): (r: Insertion)
    requires t.Node?
    ensures r.tree.Node? && r.tree.data == t.data
    ensures At(t, r.parent).Node? && !Full(At(t, r.parent))
    ensures r.side == L <==> GoesLeft(At(t, r.parent), rand(pos + |r.parent|))
    ensures At(t, r.parent + [r.side]).Nil?
    ensures At(r.tree, r.parent + [r.side]) == Node(i, Nil, Nil)
    ensures Values(r.tree) == Values(t) + multiset{i}
    ensures Size(r.tree) == Size(t) + 1
    ensures r.pos == pos + |r.parent| + 1
  {
    var g := GetRandNonFullNode(t, rand, pos);
    var p, pos1 := g.0, g.1;
    assert pos1 == pos + |p|;
    var side := ChooseSide(At(t, p), rand(pos1));
    HangLeaf(t, p, side, i, pos1 + 1)
  }

  /** The head node, with data -1. */
  const Head := Node(-1, Nil, Nil)

  /** The numbers 0..k-1, each once. */
  function Upto(k: nat): multiset<int> {
    if k == 0 then multiset{} else Upto(k - 1) + multiset{k - 1}
  }

  /** `main`'s loop after `k` iterations: the tree and the position in the
      random stream. Whatever `random()` returned, the tree has k + 1 nodes
      holding -1 and 0..k-1, each exactly once, and the head stays the
      root. */
  function Grow(k: nat, rand: Rand, pos: nat): (r: (Tree, nat))
    ensures r.0.Node? && r.0.data == -1 && r.1 >= pos
    ensures Size(r.0) == k + 1
    ensures Values(r.0) == multiset{-1} + Upto(k)
  {
    if k == 0 then (Head, pos)
    else
      var g := Grow(k - 1, rand, pos);
      var ins := InsertNode(g.0, k - 1, rand, g.1);
      (ins.tree, ins.pos)
  }

  /** The number of loop iterations in `main`. */
  const Iterations := 50

  // `traverse`

  /** One printed line: `data=<d>`, `traverse left` or `traverse right`,
      after `depth` spaces. */
  datatype Line = DataLine(depth: nat, value: int) | LeftLine(depth: nat) | RightLine(depth: nat)

  /** `traverse(n, l)`: the node's data, then "traverse left" and the left
      subtree one level deeper if there is one, then the same for the right. */
  function Traverse(t: Tree, l: nat): seq<Line>
    decreases t
  {
    match t
    case Nil => []
    case Node(d, left, right) =>
      [DataLine(l, d)]
      + (if left.Node? then [LeftLine(l)] + Traverse(left, l + 1) else [])
      + (if right.Node? then [RightLine(l)] + Traverse(right, l + 1) else [])
  }

  /** The data lines of a listing, as (depth, value) pairs. */
  function DataLines(ls: seq<Line>): seq<(nat, int)> {
    if |ls| == 0 then []
    else (if ls[0].DataLine? then [(ls[0].depth, ls[0].value)] else []) + DataLines(ls[1..])
  }

  lemma {:induction false} DataLinesAppend(a: seq<Line>, b: seq<Line>)
    ensures DataLines(a + b) == DataLines(a) + DataLines(b)
  {
    if |a| == 0 {
      assert a + b == b;
    } else {
      assert (a + b)[0] == a[0];
      assert (a + b)[1..] == a[1..] + b;
      DataLinesAppend(a[1..], b);
    }
  }

  /** Preorder (node, left subtree, right subtree), each node with its depth
      below a root at depth `l`. */
  function Preorder(t: Tree, l: nat): (r: seq<(nat, int)>)
    ensures |r| == Size(t)
  {
    match t
    case Nil => []
    case Node(d, left, right) => [(l, d)] + Preorder(left, l + 1) + Preorder(right, l + 1)
  }

  /** `traverse` prints every node exactly once, in preorder, each data line
      indented by the node's depth. */
  lemma {:induction false} TraverseIsPreorder(t: Tree, l: nat)
    ensures DataLines(Traverse(t, l)) == Preorder(t, l)
    decreases t
  {
    match t
    case Nil =>
    case Node(d, left, right) =>
      var ll := if left.Node? then [LeftLine(l)] + Traverse(left, l + 1) else [];
      var rl := if right.Node? then [RightLine(l)] + Traverse(right, l + 1) else [];
      TraverseIsPreorder(left, l + 1);
      TraverseIsPreorder(right, l + 1);
      DataLinesAppend([DataLine(l, d)] + ll, rl);
      DataLinesAppend([DataLine(l, d)], ll);
      if left.Node? {
        DataLinesAppend([LeftLine(l)], Traverse(left, l + 1));
      }
      if right.Node? {
        DataLinesAppend([RightLine(l)], Traverse(right, l + 1));
      }
  }

  function Second(ps: seq<(nat, int)>): seq<int> {
    if |ps| == 0 then [] else [ps[0].1] + Second(ps[1..])
  }

  lemma {:induction false} SecondAppend(a: seq<(nat, int)>, b: seq<(nat, int)>)
    ensures Second(a + b) == Second(a) + Second(b)
  {
    if |a| == 0 {
      assert a + b == b;
    } else {
      assert (a + b)[0] == a[0];
      assert (a + b)[1..] == a[1..] + b;
      SecondAppend(a[1..], b);
    }
  }

  /** The preorder lists exactly the tree's values. */
  lemma {:induction false} PreorderValues(t: Tree, l: nat)
    ensures multiset(Second(Preorder(t, l))) == Values(t)
    decreases t
  {
    match t
    case Nil =>
    case Node(d, left, right) =>
      PreorderValues(left, l + 1);
      PreorderValues(right, l + 1);
      SecondAppend([(l, d)] + Preorder(left, l + 1), Preorder(right, l + 1));
      SecondAppend([(l, d)], Preorder(left, l + 1));
  }

  /** The listing after `k` iterations: k + 1 data lines, the head's -1
      first at depth 0, holding -1 and 0..k-1 each once. */
  lemma {:induction false} ListingAfter(k: nat, rand: Rand, pos: nat)
    ensures var lines := DataLines(Traverse(Grow(k, rand, pos).0, 0));
      && |lines| == k + 1
      && lines[0] == (0, -1)
      && multiset(Second(lines)) == multiset{-1} + Upto(k)
  {
    var t := Grow(k, rand, pos).0;
    TraverseIsPreorder(t, 0);
    PreorderValues(t, 0);
  }

  /** The whole of `main`: grow the tree for the fixed number of iterations,
      then print it from depth 0. */
  function Program(rand: Rand): (lines: seq<Line>)
    ensures |DataLines(lines)| == Iterations + 1
    ensures DataLines(lines)[0] == (0, -1)
  {
    var k := Iterations;
    ListingAfter(k, rand, 0);
    Traverse(Grow(k, rand, 0).0, 0)
  }
}
