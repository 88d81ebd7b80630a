/**
  The table-driven Huffman tree of picopng (lsapi/picopng.cpp, HuffmanTree).
  tree2d holds two slots per inner node, one per bit; a slot is FREE, a symbol (below the
  number of codes) or the number of codes plus the address of another inner node.
 */
module Huffman {
  import opened Options
  import opened Bits
  import opened CanonicalCode

  const FREE: nat := 32767
  const UINT32: nat := 0x1_0000_0000

  const ERROR_OUTSIDE_TREE: nat := 11
  const ERROR_TREE_FULL: nat := 55

  /** Subtraction of unsigned long values, which wraps around. */
  function Minus(a: nat, b: nat): nat {
    (a - b) % UINT32
  }

  /** Left shift by one of an unsigned long value. */
  function Double(a: nat): nat {
    2 * a % UINT32
  }

  // ---- Filling the table, as a function ----

  /** What the insertion loops carry: the table, the last address handed out, the current node. */
  datatype Builder = Builder(tree: seq<nat>, filled: nat, pos: nat)

  /** One round of the inner loop: bit of symbol n, last when it ends the code. */
  function InsertBit(b: Builder, n: nat, bit: bit, last: bool): (r: Option<Builder>)
    requires |b.tree| >= 4 && |b.tree| % 2 == 0
    ensures r.Some? ==> |r.value.tree| == |b.tree|
  {
    var numcodes := |b.tree| / 2;
    if b.pos > numcodes - 2 then None
    else
      var slot := 2 * b.pos + bit;
      if b.tree[slot] != FREE then Some(b.(pos := Minus(b.tree[slot], numcodes)))
      else if last then Some(Builder(b.tree[slot := n], b.filled, 0))
      else Some(Builder(b.tree[slot := b.filled + 1 + numcodes], b.filled + 1, b.filled + 1))
  }

  /** Both insertion loops, from bit i of symbol n on. */
  function InsertFrom(b: Builder, ws: seq<seq<bit>>, n: nat, i: nat): (r: Option<Builder>)
    requires |ws| >= 2 && |b.tree| == 2 * |ws| && n <= |ws|
    ensures r.Some? ==> |r.value.tree| == |b.tree|
    decreases |ws| - n, if n < |ws| then |ws[n]| - i else 0
  {
    if n == |ws| then Some(b)
    else if i >= |ws[n]| then InsertFrom(b, ws, n + 1, 0)
    else
      match InsertBit(b, n, ws[n][i], i + 1 == |ws[n]|)
      case None => None
      case Some(b') => InsertFrom(b', ws, n, i + 1)
  }

  function EmptyBuilder(numcodes: nat): Builder {
    Builder(seq(2 * numcodes, _ => FREE), 0, 0)
  }

  /** The table for the given code words, or None when the addresses run out. */
  function Build(ws: seq<seq<bit>>): Option<Builder>
    requires |ws| >= 2
  {
    InsertFrom(EmptyBuilder(|ws|), ws, 0, 0)
  }

  // ---- What a table means ----

  /** The bit string that leads to slot s, where paths[k] leads to inner node k. */
  function SlotPath(paths: seq<seq<bit>>, s: nat): seq<bit>
    requires s < 2 * |paths|
  {
    paths[s / 2] + [s % 2]
  }

  ghost predicate SlotOk(tree: seq<nat>, paths: seq<seq<bit>>, ws: seq<seq<bit>>, n: nat, i: nat, s: nat)
    requires |tree| == 2 * |ws| && |paths| <= |ws| && s < 2 * |paths|
  {
    var w, v := SlotPath(paths, s), tree[s];
    if v == FREE then
      && (forall m | 0 <= m < n && m < |ws| :: !IsPrefix(w, ws[m]))
      && (n < |ws| && i <= |ws[n]| ==> !IsPrefix(w, ws[n][..i]))
    else if v < |ws| then
      (v < n || (v == n && i == |ws[n]|)) && ws[v] == w
    else
      |ws| < v < |ws| + |paths| && paths[v - |ws|] == w
  }

  ghost predicate InnerOk(ws: seq<seq<bit>>, n: nat, i: nat, w: seq<bit>) {
    || w == []
    || (exists m :: 0 <= m < n && m < |ws| && |w| < |ws[m]| && IsPrefix(w, ws[m]))
    || (n < |ws| && i <= |ws[n]| && |w| < |ws[n]| && IsPrefix(w, ws[n][..i]))
  }

  ghost predicate SlotsOk(tree: seq<nat>, paths: seq<seq<bit>>, ws: seq<seq<bit>>, n: nat, i: nat)
    requires |tree| == 2 * |ws| && |paths| <= |ws|
  {
    forall s | 0 <= s < 2 * |paths| :: SlotOk(tree, paths, ws, n, i, s)
  }

  ghost predicate InnersOk(ws: seq<seq<bit>>, n: nat, i: nat, paths: seq<seq<bit>>) {
    forall k | 0 <= k < |paths| :: InnerOk(ws, n, i, paths[k])
  }

  ghost predicate Distinct(paths: seq<seq<bit>>) {
    forall j, k | 0 <= j < k < |paths| :: paths[j] != paths[k]
  }

  /** The first n codes and i bits of code n are in the table; paths names its inner nodes. */
  ghost predicate Shape(b: Builder, paths: seq<seq<bit>>, ws: seq<seq<bit>>, n: nat, i: nat) {
    && 2 <= |ws| <= FREE / 2 && |b.tree| == 2 * |ws| && 1 <= |paths| <= |ws|
    && n <= |ws| && (n < |ws| ==> i <= |ws[n]|)
    && b.filled == |paths| - 1 && b.pos < |paths|
    && (|paths| == |ws| ==> b.pos == |ws| - 1 && n < |ws| && i < |ws[n]|)
    && paths[0] == [] && Distinct(paths)
    && paths[b.pos] == (if n < |ws| && i < |ws[n]| then ws[n][..i] else [])
    && SlotsOk(b.tree, paths, ws, n, i)
    && (forall s | 2 * |paths| <= s < 2 * |ws| :: b.tree[s] == FREE)
    && InnersOk(ws, n, i, paths)
  }

  lemma EmptyShape(ws: seq<seq<bit>>)
    requires 2 <= |ws| <= FREE / 2
    ensures Shape(EmptyBuilder(|ws|), [[]], ws, 0, 0)
  {
  }

  lemma NextCodeShape(b: Builder, paths: seq<seq<bit>>, ws: seq<seq<bit>>, n: nat)
    requires n < |ws| && Shape(b, paths, ws, n, |ws[n]|)
    ensures Shape(b, paths, ws, n + 1, 0)
  {
    var next := n + 1;
    assert ws[n][..|ws[n]|] == ws[n];
    forall s | 0 <= s < 2 * |paths|
      ensures SlotOk(b.tree, paths, ws, next, 0, s)
    {
      assert SlotOk(b.tree, paths, ws, n, |ws[n]|, s);
    }
    forall k | 0 <= k < |paths|
      ensures InnerOk(ws, next, 0, paths[k])
    {
      assert InnerOk(ws, n, |ws[n]|, paths[k]);
    }
  }

  lemma SlotPathInjective(paths: seq<seq<bit>>, s: nat, t: nat)
    requires Distinct(paths) && s < 2 * |paths| && t < 2 * |paths|
    ensures SlotPath(paths, s) == SlotPath(paths, t) ==> s == t
  {
    var u, v := SlotPath(paths, s), SlotPath(paths, t);
    assert u[..|u| - 1] == paths[s / 2] && v[..|v| - 1] == paths[t / 2];
    assert u[|u| - 1] == s % 2 && v[|v| - 1] == t % 2;
  }

  lemma PrefixOfLonger(u: seq<bit>, c: seq<bit>, i: nat)
    requires i < |c|
    ensures IsPrefix(u, c[..i + 1]) <==> IsPrefix(u, c[..i]) || u == c[..i + 1]
  {
    assert c[..i] == c[..i + 1][..i];
    if |u| <= i {
      assert c[..i + 1][..|u|] == c[..i][..|u|];
    }
  }

  lemma InnerOkAdvances(ws: seq<seq<bit>>, n: nat, i: nat, w: seq<bit>)
    requires n < |ws| && i < |ws[n]| && InnerOk(ws, n, i, w)
    ensures InnerOk(ws, n, i + 1, w)
  {
    PrefixOfLonger(w, ws[n], i);
  }

  lemma InnersAdvance(b: Builder, paths: seq<seq<bit>>, ws: seq<seq<bit>>, n: nat, i: nat)
    requires n < |ws| && i < |ws[n]| && Shape(b, paths, ws, n, i)
    ensures InnersOk(ws, n, i + 1, paths)
  {
    var next := i + 1;
    forall k | 0 <= k < |paths|
      ensures InnerOk(ws, n, next, paths[k])
    {
      InnerOkAdvances(ws, n, i, paths[k]);
    }
  }

  /** Only the slot that the current code leads to changes its meaning. */
  lemma OtherSlotAdvances(b: Builder, paths: seq<seq<bit>>, ws: seq<seq<bit>>, n: nat, i: nat, s: nat)
    requires n < |ws| && i < |ws[n]| && Shape(b, paths, ws, n, i)
    requires s < 2 * |paths| && s != 2 * b.pos + ws[n][i]
    ensures SlotOk(b.tree, paths, ws, n, i + 1, s)
  {
    var slot := 2 * b.pos + ws[n][i];
    assert SlotPath(paths, slot) == ws[n][..i + 1];
    assert SlotOk(b.tree, paths, ws, n, i, s);
    SlotPathInjective(paths, s, slot);
    PrefixOfLonger(SlotPath(paths, s), ws[n], i);
  }

  /** A slot in use on the way of a code leads to another inner node, before the last bit. */
  lemma UsedSlotIsInner(b: Builder, paths: seq<seq<bit>>, ws: seq<seq<bit>>, n: nat, i: nat)
    requires PrefixFree(ws) && n < |ws| && i < |ws[n]| && Shape(b, paths, ws, n, i)
    requires b.tree[2 * b.pos + ws[n][i]] != FREE
    ensures i + 1 < |ws[n]|
    ensures var v := b.tree[2 * b.pos + ws[n][i]];
            |ws| < v < |ws| + |paths| && paths[v - |ws|] == ws[n][..i + 1]
  {
    var slot := 2 * b.pos + ws[n][i];
    var w := ws[n][..i + 1];
    assert SlotPath(paths, slot) == w;
    assert SlotOk(b.tree, paths, ws, n, i, slot);
    assert IsPrefix(w, ws[n]);
    assert b.tree[slot] > |ws|;
    NodeIsNotCode(ws, n, i, paths[b.tree[slot] - |ws|]);
  }

  lemma NodeIsNotCode(ws: seq<seq<bit>>, n: nat, i: nat, w: seq<bit>)
    requires PrefixFree(ws) && n < |ws| && i < |ws[n]| && InnerOk(ws, n, i, w)
    ensures w != ws[n]
  {
  }

  lemma FullSlotShape(b: Builder, paths: seq<seq<bit>>, ws: seq<seq<bit>>, n: nat, i: nat)
    requires PrefixFree(ws) && n < |ws| && i < |ws[n]|
    requires Shape(b, paths, ws, n, i) && b.pos <= |ws| - 2
    requires b.tree[2 * b.pos + ws[n][i]] != FREE
    ensures Shape(InsertBit(b, n, ws[n][i], i + 1 == |ws[n]|).value, paths, ws, n, i + 1)
  {
    var slot, next := 2 * b.pos + ws[n][i], i + 1;
    UsedSlotIsInner(b, paths, ws, n, i);
    var b' := b.(pos := b.tree[slot] - |ws|);
    assert InsertBit(b, n, ws[n][i], i + 1 == |ws[n]|) == Some(b');
    FullSlots(b, paths, ws, n, i);
    InnersAdvance(b, paths, ws, n, i);
    assert Shape(b', paths, ws, n, next);
  }

  lemma FullSlots(b: Builder, paths: seq<seq<bit>>, ws: seq<seq<bit>>, n: nat, i: nat)
    requires PrefixFree(ws) && n < |ws| && i < |ws[n]| && Shape(b, paths, ws, n, i)
    requires b.tree[2 * b.pos + ws[n][i]] != FREE
    ensures SlotsOk(b.tree, paths, ws, n, i + 1)
  {
    var slot, next := 2 * b.pos + ws[n][i], i + 1;
    UsedSlotIsInner(b, paths, ws, n, i);
    forall s | 0 <= s < 2 * |paths|
      ensures SlotOk(b.tree, paths, ws, n, next, s)
    {
      if s != slot {
        OtherSlotAdvances(b, paths, ws, n, i, s);
      } else {
        assert SlotOk(b.tree, paths, ws, n, i, s);
      }
    }
  }

  lemma LeafShape(b: Builder, paths: seq<seq<bit>>, ws: seq<seq<bit>>, n: nat, i: nat)
    requires n < |ws| && i + 1 == |ws[n]|
    requires Shape(b, paths, ws, n, i) && b.pos <= |ws| - 2
    requires b.tree[2 * b.pos + ws[n][i]] == FREE
    ensures Shape(InsertBit(b, n, ws[n][i], true).value, paths, ws, n, i + 1)
  {
    var slot := 2 * b.pos + ws[n][i];
    var tree := b.tree[slot := n];
    var next := i + 1;
    assert SlotPath(paths, slot) == ws[n][..i + 1] == ws[n];
    forall s | 0 <= s < 2 * |paths|
      ensures SlotOk(tree, paths, ws, n, next, s)
    {
      if s != slot {
        OtherSlotAdvances(b, paths, ws, n, i, s);
      }
    }
    InnersAdvance(b, paths, ws, n, i);
  }

  /** The path of a free slot is not yet the path of an inner node. */
  lemma FreeSlotIsNew(b: Builder, paths: seq<seq<bit>>, ws: seq<seq<bit>>, n: nat, i: nat, k: nat)
    requires n < |ws| && i < |ws[n]| && Shape(b, paths, ws, n, i) && k < |paths|
    requires b.tree[2 * b.pos + ws[n][i]] == FREE
    ensures paths[k] != ws[n][..i + 1]
  {
    var slot := 2 * b.pos + ws[n][i];
    assert SlotPath(paths, slot) == ws[n][..i + 1];
    assert SlotOk(b.tree, paths, ws, n, i, slot);
    assert InnerOk(ws, n, i, paths[k]);
  }

  lemma NewNodeShape(b: Builder, paths: seq<seq<bit>>, ws: seq<seq<bit>>, n: nat, i: nat)
    requires n < |ws| && i + 1 < |ws[n]|
    requires Shape(b, paths, ws, n, i) && b.pos <= |ws| - 2
    requires b.tree[2 * b.pos + ws[n][i]] == FREE
    ensures Shape(InsertBit(b, n, ws[n][i], false).value, paths + [ws[n][..i + 1]], ws, n, i + 1)
  {
    var w, next := ws[n][..i + 1], i + 1;
    var paths' := paths + [w];
    forall k | 0 <= k < |paths|
      ensures paths[k] != w
    {
      FreeSlotIsNew(b, paths, ws, n, i, k);
    }
    NewNodeSlots(b, paths, ws, n, i);
    InnersAdvance(b, paths, ws, n, i);
    assert InnerOk(ws, n, next, w);
  }

  lemma NewNodeSlots(b: Builder, paths: seq<seq<bit>>, ws: seq<seq<bit>>, n: nat, i: nat)
    requires n < |ws| && i + 1 < |ws[n]|
    requires Shape(b, paths, ws, n, i) && |paths| < |ws|
    requires b.tree[2 * b.pos + ws[n][i]] == FREE
    ensures var slot, paths' := 2 * b.pos + ws[n][i], paths + [ws[n][..i + 1]];
            var tree := b.tree[slot := b.filled + 1 + |ws|];
            SlotsOk(tree, paths', ws, n, i + 1)
  {
    var slot := 2 * b.pos + ws[n][i];
    var w, next := ws[n][..i + 1], i + 1;
    var tree := b.tree[slot := b.filled + 1 + |ws|];
    var paths' := paths + [w];
    assert SlotPath(paths, slot) == w;
    assert SlotOk(b.tree, paths, ws, n, i, slot);
    forall s | 0 <= s < 2 * |paths'|
      ensures SlotOk(tree, paths', ws, n, next, s)
    {
      if s < 2 * |paths| {
        assert SlotPath(paths', s) == SlotPath(paths, s);
        if s != slot {
          OtherSlotAdvances(b, paths, ws, n, i, s);
        }
      } else {
        FreshSlot(ws, n, i, s % 2);
        assert SlotPath(paths', s) == w + [s % 2];
      }
    }
  }

  lemma FreshSlot(ws: seq<seq<bit>>, n: nat, i: nat, b: bit)
    requires n < |ws| && i < |ws[n]|
    requires forall m | 0 <= m < n :: !IsPrefix(ws[n][..i + 1], ws[m])
    ensures var u := ws[n][..i + 1] + [b];
            !IsPrefix(u, ws[n][..i + 1]) && forall m | 0 <= m < n :: !IsPrefix(u, ws[m])
  {
    var w := ws[n][..i + 1];
    var u := w + [b];
    forall m | 0 <= m < n
      ensures !IsPrefix(u, ws[m])
    {
      assert u[..|w|] == w;
      if |u| <= |ws[m]| {
        assert ws[m][..|u|][..|w|] == ws[m][..|w|];
      }
    }
  }

  /** One inserted bit keeps the shape. */
  lemma InsertBitShape(b: Builder, paths: seq<seq<bit>>, ws: seq<seq<bit>>, n: nat, i: nat)
      returns (paths': seq<seq<bit>>)
    requires PrefixFree(ws) && n < |ws| && i < |ws[n]|
    requires Shape(b, paths, ws, n, i) && b.pos <= |ws| - 2
    ensures var r := InsertBit(b, n, ws[n][i], i + 1 == |ws[n]|);
            r.Some? && Shape(r.value, paths', ws, n, i + 1)
  {
    var slot := 2 * b.pos + ws[n][i];
    var w := ws[n][..i + 1];
    assert SlotPath(paths, slot) == w;
    assert SlotOk(b.tree, paths, ws, n, i, slot);
    if b.tree[slot] != FREE {
      paths' := paths;
      FullSlotShape(b, paths, ws, n, i);
    } else if i + 1 == |ws[n]| {
      paths' := paths;
      LeafShape(b, paths, ws, n, i);
    } else {
      paths' := paths + [w];
      NewNodeShape(b, paths, ws, n, i);
    }
  }

  lemma InsertFromStep(b: Builder, ws: seq<seq<bit>>, n: nat, i: nat)
    requires |ws| >= 2 && |b.tree| == 2 * |ws| && n < |ws| && i < |ws[n]|
    ensures var r := InsertBit(b, n, ws[n][i], i + 1 == |ws[n]|);
            InsertFrom(b, ws, n, i) == if r.Some? then InsertFrom(r.value, ws, n, i + 1) else None
  {
  }

  lemma InsertFromEnd(b: Builder, ws: seq<seq<bit>>, n: nat)
    requires |ws| >= 2 && |b.tree| == 2 * |ws| && n < |ws|
    ensures InsertFrom(b, ws, n, |ws[n]|) == InsertFrom(b, ws, n + 1, 0)
  {
  }

  lemma NoNode(b: Builder, n: nat, bit: bit, last: bool)
    requires |b.tree| >= 4 && |b.tree| % 2 == 0 && b.pos > |b.tree| / 2 - 2
    ensures InsertBit(b, n, bit, last) == None
  {
  }

  ghost predicate Outcome(r: Option<Builder>, paths: seq<seq<bit>>, ws: seq<seq<bit>>) {
    if r.Some? then Shape(r.value, paths, ws, |ws|, 0) else |Inner(ws)| >= |ws|
  }

  /** Filling goes on until every code is in the table, or stops with a node for every address. */
  lemma {:induction false} InsertFromShape(b: Builder, paths: seq<seq<bit>>, ws: seq<seq<bit>>, n: nat, i: nat)
      returns (paths': seq<seq<bit>>)
    requires PrefixFree(ws) && Shape(b, paths, ws, n, i)
    ensures Outcome(InsertFrom(b, ws, n, i), paths', ws)
    decreases |ws| - n, if n < |ws| then |ws[n]| - i else 0
  {
    hide SlotsOk, InnersOk, Distinct;
    paths' := paths;
    if n == |ws| {
      EndShape(b, paths, ws, i);
    } else if i == |ws[n]| {
      NextCodeShape(b, paths, ws, n);
      paths' := InsertFromShape(b, paths, ws, n + 1, 0);
    } else {
      InsertFromStep(b, ws, n, i);
      if b.pos > |ws| - 2 {
        PathsAreInner(b, paths, ws, n, i);
      } else {
        paths' := InsertBitShape(b, paths, ws, n, i);
        paths' := InsertFromShape(InsertBit(b, n, ws[n][i], i + 1 == |ws[n]|).value, paths', ws, n, i + 1);
      }
    }
  }

  lemma EndShape(b: Builder, paths: seq<seq<bit>>, ws: seq<seq<bit>>, i: nat)
    requires Shape(b, paths, ws, |ws|, i)
    ensures Shape(b, paths, ws, |ws|, 0)
  {
    forall s | 0 <= s < 2 * |paths|
      ensures SlotOk(b.tree, paths, ws, |ws|, 0, s)
    {
      assert SlotOk(b.tree, paths, ws, |ws|, i, s);
    }
    forall k | 0 <= k < |paths|
      ensures InnerOk(ws, |ws|, 0, paths[k])
    {
      assert InnerOk(ws, |ws|, i, paths[k]);
    }
  }

  ghost function ToSet(paths: seq<seq<bit>>): set<seq<bit>> {
    set k | 0 <= k < |paths| :: paths[k]
  }

  lemma {:induction false} ToSetSize(paths: seq<seq<bit>>)
    ensures |ToSet(paths)| <= |paths|
    ensures Distinct(paths) ==> |ToSet(paths)| == |paths|
  {
    if |paths| == 0 {
      assert ToSet(paths) == {};
    } else {
      var k := |paths| - 1;
      ToSetSize(paths[..k]);
      assert ToSet(paths) == ToSet(paths[..k]) + {paths[k]};
    }
  }

  lemma PathsAreInner(b: Builder, paths: seq<seq<bit>>, ws: seq<seq<bit>>, n: nat, i: nat)
    requires n < |ws| && i < |ws[n]| && Shape(b, paths, ws, n, i)
    ensures |Inner(ws)| >= |paths|
  {
    forall k | 0 <= k < |paths|
      ensures paths[k] in Inner(ws)
    {
      var w := paths[k];
      assert InnerOk(ws, n, i, w);
      if w == [] {
        assert ws[n][..0] == w;
      } else if exists m :: 0 <= m < n && m < |ws| && |w| < |ws[m]| && IsPrefix(w, ws[m]) {
        var m :| 0 <= m < n && m < |ws| && |w| < |ws[m]| && IsPrefix(w, ws[m]);
        assert ws[m][..|w|] == w;
      } else {
        assert ws[n][..|w|] == ws[n][..i][..|w|] == w;
      }
    }
    ToSetSize(paths);
    SubsetSize(ToSet(paths), Inner(ws));
  }

  // ---- Reading a finished table ----

  /** The table means the code: every slot of an inner node is a leaf, an inner node or free. */
  ghost predicate Meaning(tree: seq<nat>, paths: seq<seq<bit>>, ws: seq<seq<bit>>) {
    && 2 <= |ws| <= FREE / 2 && |tree| == 2 * |ws| && 1 <= |paths| <= |ws|
    && paths[0] == []
    && SlotsOk(tree, paths, ws, |ws|, 0)
    && InnersOk(ws, |ws|, 0, paths)
  }

  ghost predicate Represents(tree: seq<nat>, ws: seq<seq<bit>>) {
    exists paths :: Meaning(tree, paths, ws)
  }

  datatype DecodeStep = Outside | Symbol(n: nat) | Node(pos: nat)

  /** HuffmanTree::decode as a function of the table, the current node and the next bit. */
  function DecodeBit(tree: seq<nat>, treepos: nat, b: bit): DecodeStep {
    var numcodes := |tree| / 2;
    if treepos >= numcodes then Outside
    else
      var v := tree[2 * treepos + b];
      if v < numcodes then Symbol(v) else Node(v - numcodes)
  }

  lemma LeafIsNotInner(tree: seq<nat>, paths: seq<seq<bit>>, ws: seq<seq<bit>>, m: nat)
    requires PrefixFree(ws) && Meaning(tree, paths, ws) && m < |ws| && |ws[m]| > 0
    ensures ws[m] !in paths
  {
    forall k | 0 <= k < |paths|
      ensures paths[k] != ws[m]
    {
      assert InnerOk(ws, |ws|, 0, paths[k]);
    }
  }

  /** One bit along a code word leads one node down, or to the symbol at its end. */
  lemma DecodeAlongCode(tree: seq<nat>, paths: seq<seq<bit>>, ws: seq<seq<bit>>, m: nat, k: nat)
    requires PrefixFree(ws) && Meaning(tree, paths, ws)
    requires m < |ws| && k < |paths| && |paths[k]| < |ws[m]| && IsPrefix(paths[k], ws[m])
    ensures var j := |paths[k]|;
            match DecodeBit(tree, k, ws[m][j])
            case Outside => false
            case Symbol(n) => n == m && j + 1 == |ws[m]|
            case Node(k') => j + 1 < |ws[m]| && k' < |paths| && paths[k'] == ws[m][..j + 1]
  {
    var j := |paths[k]|;
    var s := 2 * k + ws[m][j];
    assert SlotPath(paths, s) == ws[m][..j + 1];
    assert SlotOk(tree, paths, ws, |ws|, 0, s);
    var v := tree[s];
    if v < |ws| {
      assert IsPrefix(ws[v], ws[m]);
    } else if j + 1 == |ws[m]| {
      LeafIsNotInner(tree, paths, ws, m);
    }
  }

  /** Every proper prefix of a code word is the path of an inner node. */
  lemma {:induction false} PrefixIsNode(tree: seq<nat>, paths: seq<seq<bit>>, ws: seq<seq<bit>>, m: nat, j: nat)
      returns (k: nat)
    requires PrefixFree(ws) && Meaning(tree, paths, ws) && m < |ws| && j < |ws[m]|
    ensures k < |paths| && paths[k] == ws[m][..j]
  {
    if j == 0 {
      k := 0;
    } else {
      var k0 := PrefixIsNode(tree, paths, ws, m, j - 1);
      DecodeAlongCode(tree, paths, ws, m, k0);
      k := DecodeBit(tree, k0, ws[m][j - 1]).pos;
    }
  }

  /** A filled table has room for its inner nodes. */
  lemma InnerFits(b: Builder, paths: seq<seq<bit>>, ws: seq<seq<bit>>)
    requires PrefixFree(ws) && Shape(b, paths, ws, |ws|, 0)
    ensures Meaning(b.tree, paths, ws) && |Inner(ws)| < |ws|
  {
    forall w | w in Inner(ws)
      ensures w in ToSet(paths)
    {
      var m, j :| 0 <= m < |ws| && 0 <= j < |ws[m]| && ws[m][..j] == w;
      var k := PrefixIsNode(b.tree, paths, ws, m, j);
    }
    SubsetSize(Inner(ws), ToSet(paths));
    ToSetSize(paths);
  }

  /**
    For every prefix-free code, filling the table succeeds exactly when the code has fewer
    inner nodes than symbols, and the table then represents the code.
   */
  lemma BuildCorrect(ws: seq<seq<bit>>)
    requires PrefixFree(ws) && 2 <= |ws| <= FREE / 2
    ensures Build(ws).Some? <==> |Inner(ws)| < |ws|
    ensures Build(ws).Some? ==> Represents(Build(ws).value.tree, ws)
  {
    EmptyShape(ws);
    var paths := InsertFromShape(EmptyBuilder(|ws|), [[]], ws, 0, 0);
    if Build(ws).Some? {
      InnerFits(Build(ws).value, paths, ws);
    }
  }

  // ---- Decoding inverts the code ----

  /** Feeds bits to decode one by one; the symbols found and the node left at. */
  function Feed(tree: seq<nat>, treepos: nat, bits: seq<bit>): Option<(seq<nat>, nat)>
    decreases |bits|
  {
    if |bits| == 0 then Some(([], treepos))
    else
      match DecodeBit(tree, treepos, bits[0])
      case Outside => None
      case Node(pos) => Feed(tree, pos, bits[1..])
      case Symbol(n) =>
        match Feed(tree, 0, bits[1..])
        case None => None
        case Some((rest, pos)) => Some(([n] + rest, pos))
  }

  ghost predicate InUse(ws: seq<seq<bit>>, n: nat) {
    n < |ws| && |ws[n]| > 0
  }

  ghost predicate AllInUse(ws: seq<seq<bit>>, syms: seq<nat>) {
    forall i | 0 <= i < |syms| :: InUse(ws, syms[i])
  }

  /** The code words of a list of symbols, one after the other. */
  ghost function Concat(ws: seq<seq<bit>>, syms: seq<nat>): seq<bit>
    requires AllInUse(ws, syms)
  {
    if |syms| == 0 then [] else ws[syms[0]] + Concat(ws, syms[1..])
  }

  lemma {:induction false} FeedCode(tree: seq<nat>, paths: seq<seq<bit>>, ws: seq<seq<bit>>, m: nat, k: nat, rest: seq<bit>)
    requires PrefixFree(ws) && Meaning(tree, paths, ws) && m < |ws| && k < |paths|
    requires |paths[k]| < |ws[m]| && IsPrefix(paths[k], ws[m])
    ensures Feed(tree, k, ws[m][|paths[k]|..] + rest)
         == match Feed(tree, 0, rest) { case None => None case Some((ss, p)) => Some(([m] + ss, p)) }
    decreases |ws[m]| - |paths[k]|
  {
    var j := |paths[k]|;
    var bits := ws[m][j..] + rest;
    DecodeAlongCode(tree, paths, ws, m, k);
    assert bits[0] == ws[m][j];
    if j + 1 < |ws[m]| {
      var k' := DecodeBit(tree, k, ws[m][j]).pos;
      assert bits[1..] == ws[m][j + 1..] + rest;
      FeedCode(tree, paths, ws, m, k', rest);
    } else {
      assert bits[1..] == rest;
    }
  }

  lemma {:induction false} FeedConcat(tree: seq<nat>, paths: seq<seq<bit>>, ws: seq<seq<bit>>, syms: seq<nat>)
    requires PrefixFree(ws) && Meaning(tree, paths, ws) && AllInUse(ws, syms)
    ensures Feed(tree, 0, Concat(ws, syms)) == Some((syms, 0))
  {
    if |syms| > 0 {
      FeedConcat(tree, paths, ws, syms[1..]);
      FeedCode(tree, paths, ws, syms[0], 0, Concat(ws, syms[1..]));
      assert ws[syms[0]][0..] == ws[syms[0]];
      assert [syms[0]] + syms[1..] == syms;
    }
  }

  lemma {:induction false} FeedSound(tree: seq<nat>, paths: seq<seq<bit>>, ws: seq<seq<bit>>, k: nat, bits: seq<bit>, syms: seq<nat>)
    requires Meaning(tree, paths, ws) && k < |paths|
    requires Feed(tree, k, bits) == Some((syms, 0))
    ensures AllInUse(ws, syms) && paths[k] + bits == Concat(ws, syms)
    decreases |bits|
  {
    if |bits| > 0 {
      hide InnersOk;
      var s := 2 * k + bits[0];
      var rest := bits[1..];
      assert SlotOk(tree, paths, ws, |ws|, 0, s);
      assert SlotPath(paths, s) == paths[k] + [bits[0]];
      assert paths[k] + bits == SlotPath(paths, s) + rest;
      var v := tree[s];
      if v == FREE {
        FreeSlotFails(tree, |ws|, k, bits, syms);
      } else if v < |ws| {
        var tail := Feed(tree, 0, rest).value.0;
        assert syms == [v] + tail;
        FeedSound(tree, paths, ws, 0, rest, tail);
        ConcatCons(ws, v, tail);
        assert paths[0] + rest == rest;
      } else {
        FeedSound(tree, paths, ws, v - |ws|, rest, syms);
      }
    }
  }

  lemma ConcatCons(ws: seq<seq<bit>>, n: nat, syms: seq<nat>)
    requires InUse(ws, n) && AllInUse(ws, syms)
    ensures AllInUse(ws, [n] + syms)
    ensures Concat(ws, [n] + syms) == ws[n] + Concat(ws, syms)
  {
    assert ([n] + syms)[1..] == syms;
  }

  /** Through a free slot, decoding fails at the next bit and does not get back to the root. */
  lemma FreeSlotFails(tree: seq<nat>, numcodes: nat, k: nat, bits: seq<bit>, syms: seq<nat>)
    requires |tree| == 2 * numcodes && numcodes <= FREE / 2 && k < numcodes
    requires |bits| > 0 && tree[2 * k + bits[0]] == FREE
    ensures Feed(tree, k, bits) != Some((syms, 0))
  {
    var pos := FREE - numcodes;
    assert DecodeBit(tree, k, bits[0]) == Node(pos);
    if |bits| > 1 {
      assert DecodeBit(tree, pos, bits[1..][0]) == Outside;
    }
  }

  /**
    Fed bit by bit, a table for a prefix-free code yields a symbol list and stands at the
    root again exactly when the bits are the code words of that list.
   */
  lemma FeedInvertsConcat(tree: seq<nat>, ws: seq<seq<bit>>, bits: seq<bit>, syms: seq<nat>)
    requires PrefixFree(ws) && Represents(tree, ws)
    ensures Feed(tree, 0, bits) == Some((syms, 0)) <==> AllInUse(ws, syms) && bits == Concat(ws, syms)
  {
    var paths :| Meaning(tree, paths, ws);
    if Feed(tree, 0, bits) == Some((syms, 0)) {
      FeedSound(tree, paths, ws, 0, bits, syms);
      assert paths[0] + bits == bits;
    }
    if AllInUse(ws, syms) && bits == Concat(ws, syms) {
      FeedConcat(tree, paths, ws, syms);
    }
  }

  // ---- From code lengths to code words ----

  /** The first code of length b as the source computes it: unused symbols count as length 0. */
  function RawFirst(len: seq<nat>, b: nat): nat {
    if b == 0 then 0 else 2 * (RawFirst(len, b - 1) + Count(len, b - 1))
  }

  /** Counting the unused symbols shifts each first code by a multiple of 2^b. */
  lemma {:induction false} RawFirstShift(len: seq<nat>, b: nat)
    ensures b > 0 ==> RawFirst(len, b) == FirstCode(len, b) + Count(len, 0) * Pow2(b)
  {
    if b == 1 {
      assert Pow2(1) == 2;
      assert RawFirst(len, 1) == 2 * (RawFirst(len, 0) + Count(len, 0));
    } else if b > 1 {
      RawFirstShift(len, b - 1);
      MulPow2(Count(len, 0), b);
    }
  }

  lemma Pow2Of32()
    ensures Pow2(32) == UINT32
  {
    assert Pow2(4) == 16;
    Pow2Sum(4, 4);
    Pow2Sum(8, 8);
    Pow2Sum(16, 16);
  }

  lemma MultipleOfWord(q: nat, l: nat)
    requires l <= 32
    ensures q * Pow2(32 - l) * Pow2(l) == q * UINT32
  {
    Pow2Of32();
    Pow2Sum(32 - l, l);
    MulAssociates(q, Pow2(32 - l), Pow2(l));
  }

  lemma ModularBits(v: nat, l: nat)
    requires l <= 32
    ensures BitsOf(v % UINT32, l) == BitsOf(v, l)
  {
    var q, r := v / UINT32, v % UINT32;
    MultipleOfWord(q, l);
    BitsOfLow(r, q * Pow2(32 - l), l);
    assert v == r + q * UINT32;
  }

  lemma MulAssociates(a: nat, b: nat, c: nat)
    ensures a * (b * c) == a * b * c
  {
  }

  ghost predicate CodeIsWord(len: seq<nat>, n: nat, code: nat)
    requires n < |len|
  {
    len[n] > 0 ==> BitsOf(code, len[n]) == Words(len)[n]
  }

  lemma UnusedIsWord(len: seq<nat>, n: nat, code: nat)
    requires n < |len| && len[n] == 0
    ensures CodeIsWord(len, n, code)
  {
  }

  /** Wrapped, and with the unused symbols counted, a code still has the canonical code word. */
  lemma RawCodeWord(len: seq<nat>, n: nat, code: nat)
    requires n < |len| && 0 < len[n] <= 32
    requires CodesGiven(len, n, len[n], code)
    ensures CodeIsWord(len, n, code)
  {
    var raw := RawFirst(len, len[n]) + Count(len[..n], len[n]);
    ModularBits(raw, len[n]);
    RawFirstShift(len, len[n]);
    BitsOfLow(Code(len, n), Count(len, 0), len[n]);
  }

  lemma WrapDouble(a: nat, c: nat)
    ensures 2 * (a % UINT32 + c) % UINT32 == 2 * (a + c) % UINT32
  {
    assert a == a % UINT32 + a / UINT32 * UINT32;
    WrapMultiple(2 * (a % UINT32 + c), 2 * (a / UINT32));
  }

  lemma WrapMultiple(a: nat, q: nat)
    ensures (a + q * UINT32) % UINT32 == a % UINT32
  {
    assert a + q * UINT32 == (a / UINT32 + q) * UINT32 + a % UINT32;
    DivUnique(a + q * UINT32, UINT32, a / UINT32 + q, a % UINT32);
  }

  lemma RawFirstWrapped(len: seq<nat>, b: nat, prev: nat, count: nat)
    requires b > 0 && CodesGiven(len, 0, b - 1, prev) && count == Count(len, b - 1)
    ensures CodesGiven(len, 0, b, Double(prev + count))
  {
    assert Count(len[..0], b - 1) == 0 == Count(len[..0], b);
    WrapDouble(RawFirst(len, b - 1), count);
  }

  lemma WrapIncrement(a: nat)
    ensures (a % UINT32 + 1) % UINT32 == (a + 1) % UINT32
  {
    WrapMultiple(a % UINT32 + 1, a / UINT32);
  }

  /** The next code of length b, once the first n symbols have theirs. */
  ghost predicate CodesGiven(len: seq<nat>, n: nat, b: nat, next: nat)
    requires n <= |len|
  {
    next == (RawFirst(len, b) + Count(len[..n], b)) % UINT32
  }

  lemma CodesGivenStep(len: seq<nat>, n: nat, nextcode: seq<nat>)
    requires n < |len| && forall b | 0 < b < |nextcode| :: CodesGiven(len, n, b, nextcode[b])
    ensures forall b | 0 < b < |nextcode| ::
      CodesGiven(len, n + 1, b, if b == len[n] then (nextcode[b] + 1) % UINT32 else nextcode[b])
  {
    assert len[..n + 1][..n] == len[..n];
    forall b | 0 < b < |nextcode|
      ensures CodesGiven(len, n + 1, b, if b == len[n] then (nextcode[b] + 1) % UINT32 else nextcode[b])
    {
      assert CodesGiven(len, n, b, nextcode[b]);
      WrapIncrement(RawFirst(len, b) + Count(len[..n], b));
    }
  }

  /** Bit i of a code, counted from its most significant bit. */
  function CodeBit(code: nat, l: nat, i: nat): (b: bit)
    requires i < l
    ensures b == BitsOf(code, l)[i]
  {
    BitsOfAt(code, l, i);
    (code / Pow2(l - i - 1)) % 2
  }

  class HuffmanTree {
    var tree2d: seq<nat>

    constructor ()
      ensures tree2d == []
    {
      tree2d := [];
    }

    /** Number of occurrences of each code length. */
    static method CountLengths(bitlen: seq<nat>, maxbitlen: nat) returns (blcount: seq<nat>)
      requires Bounded(bitlen, maxbitlen)
      ensures |blcount| == maxbitlen + 1
      ensures forall b | 0 <= b <= maxbitlen :: blcount[b] == Count(bitlen, b)
    {
      blcount := seq(maxbitlen + 1, _ => 0);
      for i := 0 to |bitlen|
        invariant |blcount| == maxbitlen + 1
        invariant forall b | 0 <= b <= maxbitlen :: blcount[b] == Count(bitlen[..i], b)
      {
        assert bitlen[..i + 1][..i] == bitlen[..i];
        blcount := blcount[bitlen[i] := blcount[bitlen[i]] + 1];
      }
      assert bitlen[..|bitlen|] == bitlen;
    }

    static method FirstCodes(bitlen: seq<nat>, maxbitlen: nat) returns (nextcode: seq<nat>)
      requires Bounded(bitlen, maxbitlen)
      ensures |nextcode| == maxbitlen + 1
      ensures forall b | 0 <= b <= maxbitlen :: CodesGiven(bitlen, 0, b, nextcode[b])
    {
      var blcount := CountLengths(bitlen, maxbitlen);
      nextcode := seq(maxbitlen + 1, _ => 0);
      for bits := 1 to maxbitlen + 1
        invariant |nextcode| == maxbitlen + 1
        invariant forall b | 0 <= b < bits :: CodesGiven(bitlen, 0, b, nextcode[b])
      {
        RawFirstWrapped(bitlen, bits, nextcode[bits - 1], blcount[bits - 1]);
        nextcode := nextcode[bits := Double(nextcode[bits - 1] + blcount[bits - 1])];
      }
    }

    /** The code of every symbol that occurs; its low bits are the canonical code word. */
    static method GenerateCodes(bitlen: seq<nat>, maxbitlen: nat) returns (tree1d: seq<nat>)
      requires Bounded(bitlen, maxbitlen) && maxbitlen <= 32
      ensures |tree1d| == |bitlen|
      ensures forall n | 0 <= n < |bitlen| :: CodeIsWord(bitlen, n, tree1d[n])
    {
      hide CodeIsWord;
      var nextcode: seq<nat> := FirstCodes(bitlen, maxbitlen);
      tree1d := seq(|bitlen|, _ => 0);
      for n := 0 to |bitlen|
        invariant |tree1d| == |bitlen| && |nextcode| == maxbitlen + 1
        invariant forall b | 0 < b <= maxbitlen :: CodesGiven(bitlen, n, b, nextcode[b])
        invariant forall m | 0 <= m < n :: CodeIsWord(bitlen, m, tree1d[m])
      {
        var l := bitlen[n];
        CodesGivenStep(bitlen, n, nextcode);
        if l != 0 {
          assert CodesGiven(bitlen, n, l, nextcode[l]);
          RawCodeWord(bitlen, n, nextcode[l]);
          tree1d := tree1d[n := nextcode[l]];
          nextcode := nextcode[l := (nextcode[l] + 1) % UINT32];
        } else {
          UnusedIsWord(bitlen, n, tree1d[n]);
        }
      }
    }

    /**
      Fills the table from the code lengths. On every input this is Build of the canonical
      code words; within the Kraft inequality the table represents them.
     */
    method MakeFromLengths(bitlen: seq<nat>, maxbitlen: nat) returns (error: nat)
      requires |bitlen| >= 2 && Bounded(bitlen, maxbitlen) && maxbitlen <= 32
      modifies this
      ensures |tree2d| == 2 * |bitlen|
      ensures error == if Build(Words(bitlen)).Some? then 0 else ERROR_TREE_FULL
      ensures error == 0 ==> tree2d == Build(Words(bitlen)).value.tree
    {
      ghost var ws := Words(bitlen);
      var numcodes := |bitlen|;
      var treepos: nat, nodefilled: nat := 0, 0;
      var tree1d := GenerateCodes(bitlen, maxbitlen);
      tree2d := seq(numcodes * 2, _ => FREE);
      for n := 0 to numcodes
        invariant |tree2d| == 2 * numcodes
        invariant InsertFrom(Builder(tree2d, nodefilled, treepos), ws, n, 0) == Build(ws)
      {
        assert CodeIsWord(bitlen, n, tree1d[n]);
        error, treepos, nodefilled := InsertCode(ws, n, tree1d[n], bitlen[n], treepos, nodefilled);
        if error != 0 {
          return;
        }
      }
      return 0;
    }

    /** The inner loop: the bits of the code of symbol n, its low l bits. */
    method InsertCode(ghost ws: seq<seq<bit>>, n: nat, code: nat, l: nat, treepos: nat, nodefilled: nat)
        returns (error: nat, treepos': nat, nodefilled': nat)
      requires 2 <= |ws| && n < |ws| && |tree2d| == 2 * |ws|
      requires |ws[n]| == l && (l > 0 ==> ws[n] == BitsOf(code, l))
      modifies this
      ensures |tree2d| == 2 * |ws| && (error == 0 || error == ERROR_TREE_FULL)
      ensures InsertFrom(old(Builder(tree2d, nodefilled, treepos)), ws, n, 0)
           == if error == 0 then InsertFrom(Builder(tree2d, nodefilled', treepos'), ws, n + 1, 0) else None
    {
      hide BitsOf, InsertFrom, InsertBit;
      ghost var start := Builder(tree2d, nodefilled, treepos);
      var numcodes := |tree2d| / 2;
      treepos', nodefilled' := treepos, nodefilled;
      for i := 0 to l
        invariant |tree2d| == 2 * |ws|
        invariant InsertFrom(Builder(tree2d, nodefilled', treepos'), ws, n, i) == InsertFrom(start, ws, n, 0)
      {
        InsertFromStep(Builder(tree2d, nodefilled', treepos'), ws, n, i);
        if treepos' > numcodes - 2 {
          NoNode(Builder(tree2d, nodefilled', treepos'), n, ws[n][i], i + 1 == l);
          return ERROR_TREE_FULL, treepos', nodefilled';
        }
        var bit := CodeBit(code, l, i);
        treepos', nodefilled' := PlaceBit(numcodes, n, bit, i + 1 == l, treepos', nodefilled');
      }
      InsertFromEnd(Builder(tree2d, nodefilled', treepos'), ws, n);
      return 0, treepos', nodefilled';
    }

    /** The rest of the loop body above: follows or fills the slot of one bit. */
    method PlaceBit(numcodes: nat, n: nat, bit: bit, last: bool, treepos: nat, nodefilled: nat)
        returns (treepos': nat, nodefilled': nat)
      requires |tree2d| == 2 * numcodes && numcodes >= 2 && treepos <= numcodes - 2
      modifies this
      ensures InsertBit(old(Builder(tree2d, nodefilled, treepos)), n, bit, last)
           == Some(Builder(tree2d, nodefilled', treepos'))
    {
      treepos', nodefilled' := 0, nodefilled;
      if tree2d[2 * treepos + bit] == FREE {
        if last {
          tree2d := tree2d[2 * treepos + bit := n];
        } else {
          nodefilled' := nodefilled + 1;
          tree2d := tree2d[2 * treepos + bit := nodefilled' + numcodes];
          treepos' := nodefilled';
        }
      } else {
        treepos' := Minus(tree2d[2 * treepos + bit], numcodes);
      }
    }

    /** Decodes one bit; result and next mean something only where the error is 0. */
    method Decode(treepos: nat, bit: bit) returns (error: nat, decoded: bool, result: nat, next: nat)
      requires |tree2d| % 2 == 0
      ensures match DecodeBit(tree2d, treepos, bit)
              case Outside => error == ERROR_OUTSIDE_TREE
              case Symbol(n) => error == 0 && decoded && result == n && next == 0
              case Node(pos) => error == 0 && !decoded && next == pos
    {
      var numcodes := |tree2d| / 2;
      if treepos >= numcodes {
        return ERROR_OUTSIDE_TREE, false, 0, treepos;
      }
      result := tree2d[2 * treepos + bit];
      decoded := result < numcodes;
      next := if decoded then 0 else result - numcodes;
      error := 0;
    }
  }

  /**
    What MakeFromLengths promises for every vector of lengths within the Kraft inequality:
    it succeeds exactly when the inner nodes fit, always for a complete code, and decoding
    with the table inverts the canonical code.
   */
  lemma LengthsMakeDecoder(bitlen: seq<nat>, maxbitlen: nat)
    requires 2 <= |bitlen| <= FREE / 2 && Kraft(bitlen, maxbitlen)
    ensures PrefixFree(Words(bitlen))
    ensures Build(Words(bitlen)).Some? <==> |Inner(Words(bitlen))| < |bitlen|
    ensures Complete(bitlen, maxbitlen) && maxbitlen > 0 ==> Build(Words(bitlen)).Some?
    ensures Build(Words(bitlen)).Some? ==> Represents(Build(Words(bitlen)).value.tree, Words(bitlen))
  {
    CanonicalPrefixFree(bitlen, maxbitlen);
    BuildCorrect(Words(bitlen));
    if Complete(bitlen, maxbitlen) && maxbitlen > 0 {
      CompleteInnerSize(bitlen, maxbitlen);
    }
  }
}
