/** The tree pseudo-LRU set of the uop-cache model: eight ways, seven tree bits. */
module Plru {
  import opened Options

  const WAYS := 8

  /** The tree bit of a node, and the tree with that bit changed. */
  predicate NodeBit(tree: bv8, node: nat)
    requires node < 7
  {
    (tree >> node) & 1 == 1
  }

  function WithBit(tree: bv8, node: nat, bit: bool): bv8
    requires node < 7
  {
    if bit then tree | (1 << node) else tree & !(1 << node)
  }

  function Mask(node: nat): bv8
    requires node < 7
  {
    if node == 0 then 1 else if node == 1 then 2 else if node == 2 then 4 else if node == 3 then 8
    else if node == 4 then 16 else if node == 5 then 32 else 64
  }

  predicate Meets(tree: bv8, m: bv8) { tree & m != 0 }

  function Masked(tree: bv8, m: bv8, bit: bool): bv8 { if bit then tree | m else tree & !m }

  lemma BitByMask(tree: bv8, node: nat)
    requires node < 7
    ensures NodeBit(tree, node) <==> Meets(tree, Mask(node))
  {
  }

  lemma WithBitByMask(tree: bv8, node: nat, bit: bool)
    requires node < 7
    ensures WithBit(tree, node, bit) == Masked(tree, Mask(node), bit)
  {
  }

  lemma MaskBounds(node: nat)
    requires node < 7
    ensures 0 < Mask(node) < 128
  {
  }

  lemma MasksApart(a: nat, b: nat)
    requires a < 7 && b < 7 && a != b
    ensures !Meets(Mask(a), Mask(b))
  {
  }

  lemma MaskedElsewhere(tree: bv8, m: bv8, bit: bool, o: bv8)
    requires !Meets(m, o)
    ensures Meets(Masked(tree, m, bit), o) <==> Meets(tree, o)
  {
    assert m & o == 0;
    assert (tree | m) & o == tree & o && (tree & !m) & o == tree & o;
  }

  lemma MaskedHere(tree: bv8, m: bv8, bit: bool)
    requires 0 < m < 128
    ensures Meets(Masked(tree, m, bit), m) <==> bit
    ensures tree < 128 ==> Masked(tree, m, bit) < 128
  {
    assert (tree | m) & m == m && (tree & !m) & m == 0;
    assert tree < 128 ==> tree | m < 128 && tree & !m < 128;
  }

  lemma WithBitFacts(tree: bv8, node: nat, bit: bool, other: nat)
    requires node < 7 && other < 7
    ensures NodeBit(WithBit(tree, node, bit), other) == if other == node then bit else NodeBit(tree, other)
    ensures tree < 128 ==> WithBit(tree, node, bit) < 128
  {
    hide Mask, NodeBit, WithBit, Meets, Masked;
    WithBitByMask(tree, node, bit);
    BitByMask(tree, other);
    BitByMask(WithBit(tree, node, bit), other);
    MaskBounds(node);
    MaskedHere(tree, Mask(node), bit);
    if other != node {
      MasksApart(node, other);
      MaskedElsewhere(tree, Mask(node), bit, Mask(other));
    }
  }

  // ---- which ways lie below which node ----

  /** The bit of `way` that a node on level 0, 1 or 2 of the tree decides. */
  predicate WayBit(way: nat, level: nat)
    requires way < 8 && level < 3
  {
    if level == 0 then way / 4 == 1 else if level == 1 then (way / 2) % 2 == 1 else way % 2 == 1
  }

  function Bit(b: bool): nat { if b then 1 else 0 }

  /** The node of a level on the path to `way`. */
  function NodeOf(way: nat, level: nat): (node: nat)
    requires way < 8 && level < 3
    ensures node < 7
  {
    if level == 0 then 0
    else if level == 1 then 1 + way / 4
    else 3 + way / 2
  }

  // ---- touch and victim ----

  /** Point the nodes on the path to `way` away from it, from `level` on. */
  function TouchFrom(tree: bv8, way: nat, level: nat): bv8
    requires way < 8 && level <= 3
    decreases 3 - level
  {
    if level == 3 then tree
    else TouchFrom(WithBit(tree, NodeOf(way, level), !WayBit(way, level)), way, level + 1)
  }

  function Touch(tree: bv8, way: nat): bv8
    requires way < 8
  {
    TouchFrom(tree, way, 0)
  }

  /** Follow the tree bits from the root. */
  function Victim(tree: bv8): (way: nat)
    ensures way < 8
  {
    var b0 := Bit(NodeBit(tree, 0));
    var b1 := Bit(NodeBit(tree, 1 + b0));
    var b2 := Bit(NodeBit(tree, 3 + 2 * b0 + b1));
    4 * b0 + 2 * b1 + b2
  }

  /** The victim is the way whose whole path is pointed at. */
  lemma VictimFollowsPath(tree: bv8, way: nat)
    requires way < 8
    ensures Victim(tree) == way <==>
      forall level :: 0 <= level < 3 ==> NodeBit(tree, NodeOf(way, level)) == WayBit(way, level)
  {
    hide NodeBit;
    var v := Victim(tree);
    assert NodeOf(v, 0) == 0 && NodeBit(tree, 0) == WayBit(v, 0);
    assert NodeBit(tree, NodeOf(v, 1)) == WayBit(v, 1);
    assert NodeBit(tree, NodeOf(v, 2)) == WayBit(v, 2);
    if forall level :: 0 <= level < 3 ==> NodeBit(tree, NodeOf(way, level)) == WayBit(way, level) {
      assert NodeBit(tree, NodeOf(way, 0)) == WayBit(way, 0);
      assert NodeBit(tree, NodeOf(way, 1)) == WayBit(way, 1);
      assert NodeBit(tree, NodeOf(way, 2)) == WayBit(way, 2);
    }
  }

  /** Clear bits lead to the first way, set bits to the last. */
  lemma OuterVictims()
    ensures Victim(0) == 0 && Victim(0x7f) == 7
  {
  }

  /** `way` lies below the node that `v`'s path has on `level`. */
  predicate Below(way: nat, v: nat, level: nat)
    requires way < 8 && v < 8 && level < 3
  {
    NodeOf(way, level) == NodeOf(v, level)
  }

  /** Touching a way sets exactly the nodes above it, each away from it. */
  lemma TouchSets(tree: bv8, way: nat, v: nat, level: nat)
    requires way < 8 && v < 8 && level < 3
    ensures NodeBit(Touch(tree, way), NodeOf(v, level))
         == if Below(way, v, level) then !WayBit(way, level) else NodeBit(tree, NodeOf(v, level))
    ensures tree < 128 ==> Touch(tree, way) < 128
  {
    hide NodeBit, WithBit;
    var n := NodeOf(v, level);
    var t1 := WithBit(tree, NodeOf(way, 0), !WayBit(way, 0));
    var t2 := WithBit(t1, NodeOf(way, 1), !WayBit(way, 1));
    WithBitFacts(tree, NodeOf(way, 0), !WayBit(way, 0), n);
    WithBitFacts(t1, NodeOf(way, 1), !WayBit(way, 1), n);
    WithBitFacts(t2, NodeOf(way, 2), !WayBit(way, 2), n);
    assert Touch(tree, way) == TouchFrom(t1, way, 1) == TouchFrom(t2, way, 2);
  }

  // ---- histories ----

  type Way = w: nat | w < 8

  /** The tree after a history of touches. */
  function TouchAll(tree: bv8, h: seq<Way>): bv8 {
    if h == [] then tree else Touch(TouchAll(tree, h[..|h| - 1]), h[|h| - 1])
  }

  /** The last touch below a node on `v`'s path. */
  function LastBelow(h: seq<Way>, v: Way, level: nat): (p: int)
    requires level < 3
    ensures -1 <= p < |h|
    ensures p >= 0 ==> Below(h[p], v, level)
    ensures forall i :: p < i < |h| ==> !Below(h[i], v, level)
  {
    if h == [] then -1
    else if Below(h[|h| - 1], v, level) then |h| - 1
    else LastBelow(h[..|h| - 1], v, level)
  }

  /** A node remembers nothing but the side of the last touch below it. */
  lemma {:induction false} NodeRemembers(tree: bv8, h: seq<Way>, v: Way, level: nat)
    requires level < 3
    ensures var p := LastBelow(h, v, level);
      NodeBit(TouchAll(tree, h), NodeOf(v, level))
        == if p >= 0 then !WayBit(h[p], level) else NodeBit(tree, NodeOf(v, level))
  {
    hide NodeBit, Touch;
    if h != [] {
      NodeRemembers(tree, h[..|h| - 1], v, level);
      TouchSets(TouchAll(tree, h[..|h| - 1]), h[|h| - 1], v, level);
    }
  }

  lemma {:induction false} TreeStaysBelow128(tree: bv8, h: seq<Way>)
    requires tree < 128
    ensures TouchAll(tree, h) < 128
  {
    hide Touch;
    if h != [] {
      TreeStaysBelow128(tree, h[..|h| - 1]);
      TouchSets(TouchAll(tree, h[..|h| - 1]), h[|h| - 1], 0, 0);
    }
  }

  /** When a touched way is the victim, three different ways have been touched after it:
      its sibling, one of the other pair of its half, and one of the other half. */
  ghost predicate OutlivedSince(h: seq<Way>, v: Way, p: nat) {
    exists i, j, k :: p < i < |h| && p < j < |h| && p < k < |h|
      && h[i] / 2 == v / 2 && h[i] != v
      && h[j] / 4 == v / 4 && h[j] / 2 != v / 2
      && h[k] / 4 != v / 4
  }

  lemma OtherSide(h: seq<Way>, tree: bv8, v: Way, p: nat, level: nat) returns (i: nat)
    requires p < |h| && h[p] == v && level < 3
    requires NodeBit(TouchAll(tree, h), NodeOf(v, level)) == WayBit(v, level)
    ensures p < i < |h| && Below(h[i], v, level) && WayBit(h[i], level) != WayBit(v, level)
  {
    hide NodeBit, Touch, TouchAll;
    NodeRemembers(tree, h, v, level);
    i := LastBelow(h, v, level);
  }

  /** Minimum life span: after any history from any tree, a way touched at step `p` can be
      the victim only if three different other ways were touched after step `p`. */
  lemma MinimumLifeSpan(tree: bv8, h: seq<Way>, p: nat)
    requires p < |h| && Victim(TouchAll(tree, h)) == h[p]
    ensures OutlivedSince(h, h[p], p)
    ensures |h| - p > 3
  {
    hide NodeBit, Touch, TouchAll, Victim;
    var v := h[p];
    VictimFollowsPath(TouchAll(tree, h), v);
    var k := OtherSide(h, tree, v, p, 0);
    var j := OtherSide(h, tree, v, p, 1);
    var i := OtherSide(h, tree, v, p, 2);
    assert h[i] / 2 == v / 2 && h[i] != v;
    assert h[j] / 4 == v / 4 && h[j] / 2 != v / 2;
    assert h[k] / 4 != v / 4;
  }

  function Sibling(v: Way): Way { if v % 2 == 0 then v + 1 else v - 1 }

  function OtherPair(v: Way): Way { if (v / 2) % 2 == 0 then v + 2 else v - 2 }

  function OtherHalf(v: Way): Way { if v < 4 then v + 4 else v - 4 }

  lemma Sides(v: Way)
    ensures Below(Sibling(v), v, 2) && WayBit(Sibling(v), 2) != WayBit(v, 2)
    ensures Below(OtherPair(v), v, 1) && WayBit(OtherPair(v), 1) != WayBit(v, 1) && !Below(OtherPair(v), v, 2)
    ensures WayBit(OtherHalf(v), 0) != WayBit(v, 0) && !Below(OtherHalf(v), v, 1) && !Below(OtherHalf(v), v, 2)
    ensures Below(OtherHalf(v), v, 0)
  {
  }

  /** The bound is sharp: touching the sibling, the other pair and the other half, in this
      order, makes a way the victim again, whatever went before. */
  lemma LifeSpanSharp(tree: bv8, h: seq<Way>, v: Way)
    ensures Victim(TouchAll(tree, h + [v, Sibling(v), OtherPair(v), OtherHalf(v)])) == v
  {
    var g := h + [v, Sibling(v), OtherPair(v), OtherHalf(v)];
    Sides(v);
    hide NodeBit, Touch, TouchAll, Victim, WayBit, NodeOf, Below, Sibling, OtherPair, OtherHalf;
    forall level | 0 <= level < 3
      ensures NodeBit(TouchAll(tree, g), NodeOf(v, level)) == WayBit(v, level)
    {
      NodeRemembers(tree, g, v, level);
      assert g[|h|] == v && g[|h| + 1] == Sibling(v) && g[|h| + 2] == OtherPair(v) && g[|h| + 3] == OtherHalf(v);
      assert level == 0 || level == 1 || level == 2;
      assert LastBelow(g, v, level) == if level == 0 then |h| + 3 else if level == 1 then |h| + 2 else |h| + 1;
    }
    VictimFollowsPath(TouchAll(tree, g), v);
  }

  // ---- the set ----

  /** A set as a value: tree bits, tags, and which ways are valid. */
  datatype Ways = Ways(tree: bv8, tags: seq<Option<nat>>, valid: seq<bool>)

  ghost predicate WellFormed(s: Ways) {
    |s.tags| == 8 && |s.valid| == 8
  }

  function Empty(): (s: Ways)
    ensures |s.tags| == 8 && |s.valid| == 8
  {
    Ways(0, seq(8, _ => None), seq(8, _ => false))
  }

  /** The first valid way holding `tag`, or -1. */
  function FindFrom(s: Ways, tag: nat, w: nat): (r: int)
    requires |s.tags| == 8 && |s.valid| == 8 && w <= 8
    ensures r == -1 || (w <= r < 8 && s.valid[r] && s.tags[r] == Some(tag))
    ensures forall i :: w <= i < (if r == -1 then 8 else r) ==> !(s.valid[i] && s.tags[i] == Some(tag))
    decreases 8 - w
  {
    if w == 8 then -1 else if s.valid[w] && s.tags[w] == Some(tag) then w else FindFrom(s, tag, w + 1)
  }

  function FirstFree(s: Ways, w: nat): (r: int)
    requires |s.tags| == 8 && |s.valid| == 8 && w <= 8
    ensures r == -1 || (w <= r < 8 && !s.valid[r])
    ensures forall i :: w <= i < (if r == -1 then 8 else r) ==> s.valid[i]
    decreases 8 - w
  {
    if w == 8 then -1 else if !s.valid[w] then w else FirstFree(s, w + 1)
  }

  function InstallWay(s: Ways): (w: Way)
    requires |s.tags| == 8 && |s.valid| == 8
  {
    if FirstFree(s, 0) >= 0 then FirstFree(s, 0) else Victim(s.tree)
  }

  function Installed(s: Ways, tag: nat): (r: Ways)
    requires |s.tags| == 8 && |s.valid| == 8
  {
    var w := InstallWay(s);
    Ways(Touch(s.tree, w), s.tags[w := Some(tag)], s.valid[w := true])
  }

  /** `PLRUSet` with its mutable fields. */
  class PLRUSet {
    var tree: bv8
    var tags: seq<Option<nat>>
    var valid: seq<bool>

    ghost function View(): Ways
      reads this
    {
      Ways(tree, tags, valid)
    }

    constructor ()
      ensures View() == Empty()
    {
      tree := 0;
      tags := seq(8, _ => None);
      valid := seq(8, _ => false);
    }

    method Find(tag: nat) returns (way: int)
      requires WellFormed(View())
      ensures way == FindFrom(View(), tag, 0)
    {
      for w := 0 to 8
        invariant FindFrom(View(), tag, 0) == FindFrom(View(), tag, w)
      {
        if valid[w] && tags[w] == Some(tag) {
          return w;
        }
      }
      return -1;
    }

    method ChooseVictim() returns (idx: Way)
      ensures idx == Victim(tree)
    {
      hide NodeBit;
      var node, i := 0, 0;
      ghost var b0, b1 := Bit(NodeBit(tree, 0)), Bit(NodeBit(tree, 1 + Bit(NodeBit(tree, 0))));
      for level := 0 to 3
        invariant level == 0 ==> node == 0 && i == 0
        invariant level == 1 ==> node == 1 + b0 && i == b0
        invariant level == 2 ==> node == 3 + 2 * b0 + b1 && i == 2 * b0 + b1
        invariant level == 3 ==> i == Victim(tree)
      {
        var bit := Bit(NodeBit(tree, node));
        i := 2 * i + bit;
        node := 2 * node + 1 + bit;
      }
      idx := i;
    }

    method TouchWay(way: Way)
      modifies this`tree
      ensures tree == Touch(old(tree), way)
    {
      hide WithBit;
      var node := 0;
      ghost var t0 := tree;
      for level := 0 to 3
        invariant level < 3 ==> node == NodeOf(way, level)
        invariant TouchFrom(tree, way, level) == Touch(t0, way)
      {
        var bit := WayBit(way, level);
        tree := WithBit(tree, node, !bit);
        node := 2 * node + 1 + Bit(bit);
      }
    }

    /** The way a new tag goes to: the first free one, or the victim, which is evicted. */
    method Install(tag: nat) returns (way: Way, evicted: bool)
      requires WellFormed(View())
      modifies this
      ensures way == InstallWay(old(View())) && View() == Installed(old(View()), tag)
      ensures evicted <==> FirstFree(old(View()), 0) == -1
    {
      hide Touch, Victim;
      var w := 0;
      while w < 8 && valid[w]
        invariant 0 <= w <= 8 && FirstFree(View(), 0) == FirstFree(View(), w)
      {
        w := w + 1;
      }
      if w < 8 {
        way, evicted := w, false;
      } else {
        way := ChooseVictim();
        evicted := true;
      }
      tags := tags[way := Some(tag)];
      valid := valid[way := true];
      TouchWay(way);
    }
  }
}
