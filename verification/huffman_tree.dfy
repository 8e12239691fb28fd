/**
 * The decoding tree of the Huffman code: a tree with 256-way branching, consumed an octet at
 * a time. A node is named by the path of octets that leads to it.
 */
module HuffmanTree {
  import opened Bits
  import opened Huffman

  // A leaf knows its symbol and how many bits of the last octet belong to the code word.
  datatype Node = Internal | Leaf(codeLen: nat, sym: Byte)

  type Tree = map<Bytes, Node>

  // For each symbol the paths at which its code word ends, and those it passes through.
  datatype Slots = Slots(leaf: iset<(Byte, Bytes)>, inner: iset<(Byte, Bytes)>)

  ghost function SlotsOf(t: CodeTable): Slots
    requires Shaped(t)
  {
    Slots(iset s: Byte, p: Bytes | LeafSlot(t, s, p) :: (s, p),
          iset s: Byte, p: Bytes | InnerSlot(t, s, p) :: (s, p))
  }

  // No path is both on the way to one symbol and the end of another, or the end of two.
  ghost predicate Disjoint(slots: Slots) {
    && (forall p: Bytes, s: Byte, s': Byte :: (s, p) in slots.leaf ==> (s', p) !in slots.inner)
    && (forall p: Bytes, s: Byte, s': Byte :: (s, p) in slots.leaf && (s', p) in slots.leaf ==> s == s')
  }

  // What the first n symbols put at path p.
  ghost predicate Placed(lens: seq<nat>, slots: Slots, n: nat, p: Bytes, node: Node)
    requires n <= 256 && |lens| == 256
  {
    match node
    case Internal => p == [] || exists s: Byte :: s < n && (s, p) in slots.inner
    case Leaf(l, s) => s < n && (s, p) in slots.leaf && l == lens[s] - 8 * (|p| - 1)
  }

  // tree holds exactly the nodes of the first n symbols.
  ghost predicate HoldsFirst(lens: seq<nat>, slots: Slots, n: nat, tree: Tree)
    requires n <= 256 && |lens| == 256
  {
    && [] in tree && tree[[]] == Internal
    && (forall p :: p in tree ==> Placed(lens, slots, n, p, tree[p]))
    && (forall p: Bytes, s: Byte :: s < n && (s, p) in slots.leaf ==> p in tree)
    && (forall p: Bytes, s: Byte :: s < n && (s, p) in slots.inner ==> p in tree)
  }

  ghost predicate IsTree(t: CodeTable, tree: Tree)
    requires Shaped(t)
  {
    HoldsFirst(t.lens, SlotsOf(t), 256, tree)
  }

  lemma PrefixTrans(a: seq<bool>, b: seq<bool>, c: seq<bool>)
    requires a <= c && b <= c && |a| <= |b|
    ensures a <= b
  {
    assert a == c[..|a|] && b == c[..|b|];
    assert b[..|a|] == c[..|a|];
  }

  lemma PrefixEither(a: seq<bool>, b: seq<bool>, c: seq<bool>)
    requires a <= c && b <= c
    ensures a <= b || b <= a
  {
    if |a| <= |b| {
      PrefixTrans(a, b, c);
    } else {
      PrefixTrans(b, a, c);
    }
  }

  lemma PrefixChain(a: seq<bool>, b: seq<bool>, c: seq<bool>)
    requires a <= b && b <= c
    ensures a <= c
  {
  }

  lemma SlotsDisjoint(t: CodeTable)
    requires Shaped(t) && PrefixFree(t)
    ensures Disjoint(SlotsOf(t))
  {
    forall p: Bytes, s: Byte, s': Byte | LeafSlot(t, s, p)
      ensures !InnerSlot(t, s', p)
      ensures LeafSlot(t, s', p) ==> s == s'
    {
      SlotsDisjointAt(t, p, s, s');
    }
  }

  lemma SlotsDisjointAt(t: CodeTable, p: Bytes, s: Byte, s': Byte)
    requires Shaped(t) && PrefixFree(t) && LeafSlot(t, s, p)
    ensures !InnerSlot(t, s', p)
    ensures LeafSlot(t, s', p) ==> s == s'
  {
    var a, b, c := Code(t, s), BytesToBits(p), Code(t, s');
    assert s != s' ==> !(a <= c) && !(c <= a);
    if a <= b && b <= c {
      PrefixChain(a, b, c);
    }
    if a <= b && c <= b {
      PrefixEither(a, c, b);
    }
  }

  lemma SnocBits(p: Bytes, i: Byte)
    ensures BytesToBits(p + [i]) == BytesToBits(p) + ToBits(i, 8)
  {
    BytesToBitsConcat(p, [i]);
    assert BytesToBits([i]) == ToBits(i, 8) + BytesToBits([]);
  }

  lemma {:induction false} ShlIsProduct(x: nat, b: nat)
    ensures Shl(x, b) == x * Pow2(b)
  {
    if b > 0 {
      ShlIsProduct(x, b - 1);
      assert x * Pow2(b) == 2 * (x * Pow2(b - 1));
    }
  }

  // Multiples of k, reduced modulo a multiple of k, leave room for k more.
  lemma ModScale(x: nat, k: nat, m: nat)
    requires k > 0 && m > 0 && k * m == 256
    ensures (x * k) % 256 <= 256 - k
  {
    var q, r := x / m, x % m;
    ScaleParts(x, k, m, q, r);
    assert 0 <= r * k <= (m - 1) * k == 256 - k;
    ModRemainder(q, r * k);
  }

  lemma ModRemainder(q: int, y: int)
    requires 0 <= y < 256
    ensures (q * 256 + y) % 256 == y
  {
  }

  lemma ScaleParts(x: nat, k: nat, m: nat, q: nat, r: nat)
    requires k * m == 256 && x == q * m + r
    ensures x * k == q * 256 + r * k
  {
    assert (q * m + r) * k == q * m * k + r * k;
    assert q * m * k == q * (m * k);
  }

  lemma RunFits(code: nat, shift: nat)
    requires shift <= 7
    ensures Shl(code, shift) % 256 + Pow2(shift) <= 256
  {
    ShlIsProduct(code, shift);
    Pow2Add(shift, 8 - shift);
    Pow2Values();
    ModScale(code, Pow2(shift), Pow2(8 - shift));
  }

  lemma RunBits(code: nat, rem: nat, d: nat)
    requires 1 <= rem <= 8 && d < Pow2(8 - rem)
    ensures ToBits(Shl(code, 8 - rem) % 256 + d, 8) == ToBits(code, rem) + ToBits(d, 8 - rem)
  {
    var shift := 8 - rem;
    ToBitsAppend(code, rem, d, shift);
    assert rem + shift == 8;
    Pow2Values();
    var big := Shl(code, shift) + d;
    ToBitsCongruent(big, Shl(code, shift) % 256 + d, Shl(code, shift) / 256, 8, 8);
  }

  // The octets with the low `rem` bits of code in front are those in one run.
  lemma LeafRun(code: nat, rem: nat, start: nat, i: Byte)
    requires 1 <= rem <= 8 && start == Shl(code, 8 - rem) % 256
    ensures start <= i < start + Pow2(8 - rem) <==> ToBits(code, rem) <= ToBits(i, 8)
  {
    if start <= i < start + Pow2(8 - rem) {
      RunBits(code, rem, i - start);
    }
    if ToBits(code, rem) <= ToBits(i, 8) {
      RunComplete(code, rem, start, i);
    }
  }

  lemma RunComplete(code: nat, rem: nat, start: nat, i: Byte)
    requires 1 <= rem <= 8 && start == Shl(code, 8 - rem) % 256
    requires ToBits(code, rem) <= ToBits(i, 8)
    ensures start <= i < start + Pow2(8 - rem)
  {
    hide *;
    var low := ToBits(i, 8)[rem..];
    FromBitsBound(low);
    var d := FromBits(low);
    RunBits(code, rem, d);
    RunFits(code, 8 - rem);
    Pow2Values();
    assert ToBits(i, 8) == ToBits(code, rem) + low;
    ToBitsInjective(start + d, i, 8);
  }

  // ---------------------------------------------------------------- building the tree

  // The bits of path p are the first bits of the code word of sym; rem bits are left.
  ghost predicate OnWay(t: CodeTable, sym: Byte, p: Bytes, rem: nat)
    requires Shaped(t)
  {
    && rem == t.lens[sym] - 8 * |p|
    && Code(t, sym) == BytesToBits(p) + ToBits(t.codes[sym], rem)
  }

  lemma OnWayStart(t: CodeTable, sym: Byte)
    requires Shaped(t)
    ensures OnWay(t, sym, [], t.lens[sym])
    ensures (sym, []) in SlotsOf(t).inner
    ensures forall q: Bytes :: |q| <= 0 && (sym, q) in SlotsOf(t).inner ==> q == []
  {
    assert BytesToBits([]) + Code(t, sym) == Code(t, sym);
  }

  lemma OnWayStep(t: CodeTable, sym: Byte, p: Bytes, rem: nat, i: Byte)
    requires Shaped(t) && rem > 8 && OnWay(t, sym, p, rem)
    requires i == Octet(t.codes[sym], rem - 8)
    ensures OnWay(t, sym, p + [i], rem - 8)
    ensures (sym, p + [i]) in SlotsOf(t).inner
    ensures forall q: Bytes :: |q| == |p + [i]| && (sym, q) in SlotsOf(t).inner ==> q == p + [i]
  {
    OctetBits(t.codes[sym], rem - 8);
    BytesToBitsConcat(p, [i]);
    Regroup(Code(t, sym), BytesToBits(p), BytesToBits([i]), ToBits(t.codes[sym], rem - 8));
    forall q: Bytes | |q| == |p + [i]| && (sym, q) in SlotsOf(t).inner
      ensures q == p + [i]
    {
      OnWayUnique(t, sym, p + [i], rem - 8, q);
    }
  }

  lemma Regroup(c: seq<bool>, a: seq<bool>, b: seq<bool>, d: seq<bool>)
    requires c == a + (b + d)
    ensures c == (a + b) + d
    ensures a + b <= c
  {
  }

  // Only one path of each length leads towards a symbol.
  lemma OnWayUnique(t: CodeTable, sym: Byte, p: Bytes, rem: nat, q: Bytes)
    requires Shaped(t) && OnWay(t, sym, p, rem)
    requires |q| == |p| && InnerSlot(t, sym, q)
    ensures q == p
  {
    assert BytesToBits(q) == BytesToBits(p);
    BytesToBitsInjective(q, p);
  }

  lemma PrefixSplit(a: seq<bool>, c: seq<bool>, b: seq<bool>, d: seq<bool>)
    requires |a| == |b|
    ensures a + c <= b + d <==> a == b && c <= d
  {
    if a + c <= b + d {
      assert a == (a + c)[..|a|] == (b + d)[..|a|] == b;
      assert c == (a + c)[|a|..] && d == (b + d)[|a|..];
      assert forall k :: 0 <= k < |c| ==> c[k] == (b + d)[|a| + k];
    }
  }

  // Path q goes from p into one of the slots lo..hi.
  predicate InRun(q: Bytes, p: Bytes, lo: nat, hi: nat) {
    |q| == |p| + 1 && q[..|p|] == p && lo <= q[|p|] < hi
  }

  // The leaves of a symbol hang off one node, in one run.
  lemma LeafSlotAt(t: CodeTable, sym: Byte, p: Bytes, rem: nat, start: nat, u: Bytes, i: Byte)
    requires Shaped(t) && OnWay(t, sym, p, rem) && 1 <= rem <= 8
    requires start == Shl(t.codes[sym], 8 - rem) % 256
    requires |u| == |p|
    ensures LeafSlot(t, sym, u + [i]) <==> u == p && start <= i < start + Pow2(8 - rem)
  {
    SnocBits(u, i);
    LeafRun(t.codes[sym], rem, start, i);
    PrefixSplit(BytesToBits(p), ToBits(t.codes[sym], rem), BytesToBits(u), ToBits(i, 8));
    if BytesToBits(p) == BytesToBits(u) {
      BytesToBitsInjective(u, p);
    }
  }

  lemma LeafSlots(t: CodeTable, sym: Byte, p: Bytes, rem: nat, start: nat, end: nat)
    requires Shaped(t) && OnWay(t, sym, p, rem) && 1 <= rem <= 8
    requires start == Shl(t.codes[sym], 8 - rem) % 256 && end == start + Pow2(8 - rem)
    ensures forall q: Bytes :: (sym, q) in SlotsOf(t).leaf <==> InRun(q, p, start, end)
    ensures forall q: Bytes :: (sym, q) in SlotsOf(t).inner ==> |q| <= |p|
  {
    forall q: Bytes
      ensures (sym, q) in SlotsOf(t).leaf <==> InRun(q, p, start, end)
    {
      if |q| == |p| + 1 {
        assert q == q[..|p|] + [q[|p|]];
        LeafSlotAt(t, sym, p, rem, start, q[..|p|], q[|p|]);
      }
    }
  }

  // The first sym symbols are in place, and so is the way to sym up to depth d.
  ghost predicate Partial(lens: seq<nat>, slots: Slots, sym: Byte, tree: Tree, d: nat)
    requires |lens| == 256
  {
    && [] in tree && tree[[]] == Internal
    && (forall q :: q in tree ==>
          || Placed(lens, slots, sym, q, tree[q])
          || ((sym, q) in slots.inner && tree[q] == Internal))
    && (forall q: Bytes, s: Byte :: s < sym && (s, q) in slots.leaf ==> q in tree)
    && (forall q: Bytes, s: Byte :: s < sym && (s, q) in slots.inner ==> q in tree)
    && (forall q: Bytes :: |q| <= d && (sym, q) in slots.inner ==> q in tree)
  }

  // Nothing placed so far ends where the way to sym goes on.
  lemma StillInternal(lens: seq<nat>, slots: Slots, sym: Byte, tree: Tree, d: nat, q: Bytes)
    requires |lens| == 256 && Disjoint(slots) && Partial(lens, slots, sym, tree, d)
    requires q in tree && (sym, q) in slots.inner
    ensures tree[q] == Internal
  {
  }

  lemma NotTaken(lens: seq<nat>, slots: Slots, sym: Byte, tree: Tree, d: nat, q: Bytes)
    requires |lens| == 256 && Disjoint(slots) && Partial(lens, slots, sym, tree, d)
    requires q != [] && (sym, q) in slots.leaf
    ensures q !in tree
  {
  }

  lemma PartialDescend(lens: seq<nat>, slots: Slots, sym: Byte, tree: Tree, p: Bytes)
    requires |lens| == 256 && Disjoint(slots) && p != []
    requires (sym, p) in slots.inner && Partial(lens, slots, sym, tree, |p| - 1)
    requires forall q: Bytes :: |q| == |p| && (sym, q) in slots.inner ==> q == p
    ensures Partial(lens, slots, sym, if p in tree then tree else tree[p := Internal], |p|)
  {
  }

  lemma TreeDone(lens: seq<nat>, slots: Slots, sym: Byte, tree: Tree, tree': Tree,
                 p: Bytes, start: nat, end: nat, leaf: Node)
    requires |lens| == 256 && Disjoint(slots) && Partial(lens, slots, sym, tree, |p|)
    requires forall q: Bytes :: (sym, q) in slots.inner ==> |q| <= |p|
    requires 8 * |p| <= lens[sym] && leaf == Leaf(lens[sym] - 8 * |p|, sym)
    requires forall q: Bytes :: (sym, q) in slots.leaf <==> InRun(q, p, start, end)
    requires forall q: Bytes :: InRun(q, p, start, end) ==> q !in tree
    requires forall q :: q in tree' <==> (q in tree || InRun(q, p, start, end))
    requires forall q :: q in tree' ==> tree'[q] == if InRun(q, p, start, end) then leaf else tree[q]
    ensures HoldsFirst(lens, slots, sym + 1, tree')
  {
    forall q | q in tree'
      ensures Placed(lens, slots, sym + 1, q, tree'[q])
    {
    }
  }

  // Put one code word into the tree: inner nodes on the way down, then a run of leaves.
  method AddSymbol(t: CodeTable, tree: Tree, sym: Byte) returns (tree': Tree)
    requires Shaped(t) && PrefixFree(t) && HoldsFirst(t.lens, SlotsOf(t), sym, tree)
    ensures HoldsFirst(t.lens, SlotsOf(t), sym + 1, tree')
  {
    tree' := tree;
    var code, codeLen := t.codes[sym], t.lens[sym];
    var cur: Bytes := [];
    ghost var slots := SlotsOf(t);
    SlotsDisjoint(t);
    OnWayStart(t, sym);
    while codeLen > 8
      invariant OnWay(t, sym, cur, codeLen) && 1 <= codeLen
      invariant Partial(t.lens, slots, sym, tree', |cur|)
      invariant tree'[cur] == Internal
    {
      var i := Octet(code, codeLen - 8);
      OnWayStep(t, sym, cur, codeLen, i);
      codeLen := codeLen - 8;
      cur := cur + [i];
      PartialDescend(t.lens, slots, sym, tree', cur);
      if cur !in tree' {
        tree' := tree'[cur := Internal];
      }
      StillInternal(t.lens, slots, sym, tree', |cur|, cur);
    }
    tree' := AddLeaves(t, tree', sym, cur, codeLen);
  }

  // The leaves of sym, all in one node.
  method AddLeaves(t: CodeTable, tree: Tree, sym: Byte, cur: Bytes, codeLen: nat) returns (tree': Tree)
    requires Shaped(t) && PrefixFree(t)
    requires OnWay(t, sym, cur, codeLen) && 1 <= codeLen <= 8
    requires Partial(t.lens, SlotsOf(t), sym, tree, |cur|)
    ensures HoldsFirst(t.lens, SlotsOf(t), sym + 1, tree')
  {
    ghost var slots := SlotsOf(t);
    SlotsDisjoint(t);
    var shift := 8 - codeLen;
    var start, end := Shl(t.codes[sym], shift) % 256, Pow2(shift);
    RunFits(t.codes[sym], shift);
    LeafSlots(t, sym, cur, codeLen, start, start + end);
    forall q | InRun(q, cur, start, start + end)
      ensures q !in tree
    {
      NotTaken(t.lens, slots, sym, tree, |cur|, q);
    }
    tree' := AddRun(tree, cur, start, start + end, Leaf(codeLen, sym));
    TreeDone(t.lens, slots, sym, tree, tree', cur, start, start + end, Leaf(codeLen, sym));
  }

  // The slots lo..hi of one node, all pointing at the same leaf.
  method AddRun(tree: Tree, p: Bytes, lo: nat, hi: nat, leaf: Node) returns (tree': Tree)
    requires lo <= hi <= 256
    ensures forall q :: q in tree' <==> (q in tree || InRun(q, p, lo, hi))
    ensures forall q :: q in tree' ==>
              tree'[q] == if InRun(q, p, lo, hi) then leaf else tree[q]
  {
    tree' := tree;
    for i := lo to hi
      invariant forall q :: q in tree' <==> (q in tree || InRun(q, p, lo, i))
      invariant forall q :: q in tree' ==>
                  tree'[q] == if InRun(q, p, lo, i) then leaf else tree[q]
    {
      var q := p + [i];
      assert forall u: Bytes :: |u| == |p| + 1 && u[..|p|] == p && u[|p|] == i ==> u == q;
      tree' := tree'[q := leaf];
    }
  }

  method BuildTree(t: CodeTable) returns (tree: Tree)
    requires Shaped(t) && PrefixFree(t)
    ensures IsTree(t, tree)
  {
    tree := map[[] := Internal];
    for sym := 0 to 256
      invariant HoldsFirst(t.lens, SlotsOf(t), sym, tree)
    {
      tree := AddSymbol(t, tree, sym);
    }
  }
}
