/** Virtual-function offsets computed from the ordered lists of VTableLayout.ini
    (UE4SS/src/UE4SSProgram.cpp), in unsigned 32-bit arithmetic. */
module VTableLayout {

  const WORD32: int := 0x1_0000_0000

  function Wrap(n: int): (r: nat)
    ensures r < WORD32
  {
    n % WORD32
  }

  // ----- what the loader computes -----

  /** `list.size() - 1`, which an empty list turns into the largest word. */
  function Size(list: seq<string>): nat { Wrap(|list| - 1) }

  /** The sizes of the base classes added up. */
  function BaseSum(bases: seq<seq<string>>): nat {
    if bases == [] then 0 else Wrap(BaseSum(bases[..|bases| - 1]) + Size(bases[|bases| - 1]))
  }

  function Offset(index: nat, base: nat): nat {
    if index == 0 then 0 else Wrap(Wrap(index + base) * 8)
  }

  type Layout = map<string, nat>

  /** One class's map: the first of several equal names keeps its offset. */
  function LayoutOf(list: seq<string>, base: nat): Layout {
    if list == [] then map[]
    else
      var i := |list| - 1;
      var m := LayoutOf(list[..i], base);
      if list[i] in m then m else m[list[i] := Offset(i, base)]
  }

  /** The sections of the file that a property's offsets depend on. */
  datatype Lists = Lists(
    uobjectBase: seq<string>, uobjectBaseUtility: seq<string>, uobject: seq<string>, ufield: seq<string>,
    ffield: seq<string>, fproperty: seq<string>, derived: seq<seq<string>>)

  /** What FProperty derives from: UField before 4.25, FField since. */
  function PropertyBases(l: Lists, below425: bool): seq<seq<string>> {
    if below425 then [l.uobjectBase, l.uobjectBaseUtility, l.uobject, l.ufield] else [l.ffield]
  }

  function PropertyLayout(l: Lists, below425: bool): Layout {
    LayoutOf(l.fproperty, BaseSum(PropertyBases(l, below425)))
  }

  function DerivedLayout(l: Lists, below425: bool, d: nat): Layout
    requires d < |l.derived|
  {
    LayoutOf(l.derived[d], BaseSum(PropertyBases(l, below425) + [l.fproperty]))
  }

  // ----- the operations -----

  method RetrieveLayout(list: seq<string>, base: nat) returns (size: nat, layout: Layout)
    ensures size == Size(list) && layout == LayoutOf(list, base)
  {
    size := Wrap(|list| - 1);
    layout := map[];
    for index := 0 to |list|
      invariant layout == LayoutOf(list[..index], base)
    {
      assert list[..index + 1][..index] == list[..index];
      var offset := if index == 0 then 0 else Wrap(Wrap(index + base) * 8);
      if list[index] !in layout { layout := layout[list[index] := offset]; }
    }
    assert list[..|list|] == list;
  }

  /** The chain from UObjectBase to UField; `total` is what its sizes add up to. */
  method LoadObjects(l: Lists) returns (base: Layout, utility: Layout, object_: Layout, field: Layout, total: nat)
    ensures base == LayoutOf(l.uobjectBase, 0)
    ensures utility == LayoutOf(l.uobjectBaseUtility, BaseSum([l.uobjectBase]))
    ensures object_ == LayoutOf(l.uobject, BaseSum([l.uobjectBase, l.uobjectBaseUtility]))
    ensures field == LayoutOf(l.ufield, BaseSum([l.uobjectBase, l.uobjectBaseUtility, l.uobject]))
    ensures total == BaseSum(PropertyBases(l, true))
  {
    SumSteps(l.uobjectBase, l.uobjectBaseUtility, l.uobject, l.ufield);
    var size, sum;
    size, base := RetrieveLayout(l.uobjectBase, 0);
    sum := size;
    size, utility := RetrieveLayout(l.uobjectBaseUtility, sum);
    sum := Wrap(sum + size);
    size, object_ := RetrieveLayout(l.uobject, sum);
    sum := Wrap(sum + size);
    size, field := RetrieveLayout(l.ufield, sum);
    total := Wrap(sum + size);
  }

  /** FProperty and the classes derived from it, in both versions of the chain. */
  method LoadProperties(l: Lists, below425: bool) returns (property: Layout, derived: seq<Layout>)
    ensures property == PropertyLayout(l, below425)
    ensures |derived| == |l.derived|
    ensures forall i :: 0 <= i < |derived| ==> derived[i] == DerivedLayout(l, below425, i)
  {
    var base, utility, object_, field, total := LoadObjects(l);
    var ffieldSize, ffield := RetrieveLayout(l.ffield, 0);
    PropertyTotals(l);
    var size;
    if below425 {
      size, property := RetrieveLayout(l.fproperty, total);
      size := Wrap(total + size);
    } else {
      size, property := RetrieveLayout(l.fproperty, ffieldSize);
      size := Wrap(ffieldSize + size);
    }
    derived := LoadDerived(l.derived, size);
  }

  lemma PropertyTotals(l: Lists)
    ensures BaseSum(PropertyBases(l, false)) == Size(l.ffield)
    ensures forall below425 ::
              BaseSum(PropertyBases(l, below425) + [l.fproperty])
              == Wrap(BaseSum(PropertyBases(l, below425)) + Size(l.fproperty))
  {
    SumOfOne(l.ffield);
    forall below425
      ensures BaseSum(PropertyBases(l, below425) + [l.fproperty])
           == Wrap(BaseSum(PropertyBases(l, below425)) + Size(l.fproperty))
    {
      SumWithLast(PropertyBases(l, below425), l.fproperty);
    }
  }

  method LoadDerived(lists: seq<seq<string>>, base: nat) returns (layouts: seq<Layout>)
    ensures |layouts| == |lists|
    ensures forall i :: 0 <= i < |lists| ==> layouts[i] == LayoutOf(lists[i], base)
  {
    layouts := [];
    for i := 0 to |lists|
      invariant |layouts| == i
      invariant forall j :: 0 <= j < i ==> layouts[j] == LayoutOf(lists[j], base)
    {
      var unused, layout := RetrieveLayout(lists[i], base);
      layouts := layouts + [layout];
    }
  }

  lemma SumWithLast(bases: seq<seq<string>>, last: seq<string>)
    ensures BaseSum(bases + [last]) == Wrap(BaseSum(bases) + Size(last))
  {
    assert (bases + [last])[..|bases|] == bases;
  }

  lemma SumOfOne(a: seq<string>)
    ensures BaseSum([]) == 0 && BaseSum([a]) == Size(a)
  {
    assert [a][..0] == [];
  }

  /** Each sum is the one before it and one more size. */
  lemma SumSteps(a: seq<string>, b: seq<string>, c: seq<string>, d: seq<string>)
    ensures BaseSum([]) == 0 && BaseSum([a]) == Size(a)
    ensures BaseSum([a, b]) == Wrap(BaseSum([a]) + Size(b))
    ensures BaseSum([a, b, c]) == Wrap(BaseSum([a, b]) + Size(c))
    ensures BaseSum([a, b, c, d]) == Wrap(BaseSum([a, b, c]) + Size(d))
  {
    SumOfOne(a);
    SumWithLast([a], b);
    SumWithLast([a, b], c);
    SumWithLast([a, b, c], d);
    assert [a] + [b] == [a, b] && [a, b] + [c] == [a, b, c] && [a, b, c] + [d] == [a, b, c, d];
  }

  // ----- the flattened vtable -----

  /** A slot of the vtable of a class: the entry of a class on the chain. */
  datatype Slot = Shared | Own(depth: nat, index: nat)

  /** The entries one class adds: all but the first, which every class shares. */
  function Added(depth: nat, count: nat): (r: seq<Slot>)
    ensures |r| == if count == 0 then 0 else count - 1
    ensures forall i :: 0 <= i < |r| ==> r[i] == Own(depth, i + 1)
  {
    seq(if count == 0 then 0 else count - 1, i requires i >= 0 => Own(depth, i + 1))
  }

  /** One shared slot, then what each class of the chain adds, in order. */
  function Flattened(chain: seq<seq<string>>): seq<Slot> {
    if chain == [] then [Shared]
    else Flattened(chain[..|chain| - 1]) + Added(|chain| - 1, |chain[|chain| - 1]|)
  }

  function EmptyLists(chain: seq<seq<string>>): nat {
    if chain == [] then 0
    else EmptyLists(chain[..|chain| - 1]) + (if chain[|chain| - 1] == [] then 1 else 0)
  }

  /** The wrapped sum in terms of the flattened vtable: each empty list takes one
      slot away that was never there. */
  lemma {:induction false} BaseSumCounts(chain: seq<seq<string>>)
    ensures BaseSum(chain) == Wrap(|Flattened(chain)| - 1 - EmptyLists(chain))
  {
    if chain == [] {
      assert |Flattened(chain)| == 1 && EmptyLists(chain) == 0 && Wrap(0) == 0;
    } else {
      var front, last := chain[..|chain| - 1], chain[|chain| - 1];
      BaseSumCounts(front);
      var before, more := |Flattened(front)| - 1 - EmptyLists(front), |last| - 1;
      assert |Flattened(chain)| == |Flattened(front)| + |Added(|front|, |last|)|;
      assert |Flattened(chain)| - 1 - EmptyLists(chain) == before + more;
      WrapAdds(before, more);
      assert BaseSum(chain) == Wrap(Wrap(before) + Wrap(more));
    }
  }

  lemma WrapAdds(a: int, b: int)
    ensures Wrap(Wrap(a) + Wrap(b)) == Wrap(a + b)
  {
    var p, q := a / WORD32, b / WORD32;
    var sum := Wrap(a) + Wrap(b);
    assert a + b == sum + (p + q) * WORD32;
    var carry := if sum < WORD32 then 0 else 1;
    WrapIs(sum, carry);
    WrapIs(a + b, p + q + carry);
  }

  lemma {:induction false} EmptyListsBound(chain: seq<seq<string>>)
    ensures EmptyLists(chain) <= |chain|
    ensures EmptyLists(chain) == 0 <==> forall l <- chain :: l != []
  {
    if chain != [] {
      var front, last := chain[..|chain| - 1], chain[|chain| - 1];
      EmptyListsBound(front);
      assert chain == front + [last];
      assert last in chain && forall l <- front :: l in chain;
    }
  }

  /** Where an entry of the last class of a chain lies in the flattened vtable. */
  function Position(bases: seq<seq<string>>, index: nat): nat {
    if index == 0 then 0 else |Flattened(bases)| - 1 + index
  }

  lemma PositionHoldsEntry(bases: seq<seq<string>>, list: seq<string>, index: nat)
    requires index < |list|
    ensures var flat := Flattened(bases + [list]);
            && Position(bases, index) < |flat|
            && flat[Position(bases, index)] == if index == 0 then Shared else Own(|bases|, index)
  {
    assert (bases + [list])[..|bases|] == bases;
    SharedFirst(bases);
  }

  lemma {:induction false} SharedFirst(chain: seq<seq<string>>)
    ensures |Flattened(chain)| > 0 && Flattened(chain)[0] == Shared
  {
    if chain != [] { SharedFirst(chain[..|chain| - 1]); }
  }

  /** The computed offset is eight times the position in the flattened vtable
      exactly when no base class has an empty list. */
  lemma OffsetIsPositionIff(bases: seq<seq<string>>, list: seq<string>, index: nat)
    requires 0 < index < |list|
    requires 8 * |Flattened(bases + [list])| < WORD32 && |bases| < 0x2000_0000
    ensures Offset(index, BaseSum(bases)) == 8 * Position(bases, index) <==> forall l <- bases :: l != []
  {
    assert (bases + [list])[..|bases|] == bases;
    BaseSumCounts(bases);
    EmptyListsBound(bases);
    SharedFirst(bases);
    OffsetWraps(index, |Flattened(bases)| - 1, EmptyLists(bases));
  }

  /** `n` is `turns` words away from its wrapped value. */
  lemma WrapIs(n: int, turns: int)
    requires 0 <= n - turns * WORD32 < WORD32
    ensures Wrap(n) == n - turns * WORD32
  {}

  lemma OffsetWraps(index: nat, slots: nat, missing: nat)
    requires 0 < index && 8 * (slots + index) < WORD32 && missing < 0x2000_0000
    ensures Offset(index, Wrap(slots - missing)) == 8 * (slots + index) <==> missing == 0
  {
    var left := slots - missing;
    var base := if left >= 0 then left else left + WORD32;
    WrapIs(left, if left >= 0 then 0 else -1);
    if index + left >= 0 {
      WrapIs(index + base, if left >= 0 then 0 else 1);
      WrapIs((index + left) * 8, 0);
    } else {
      WrapIs(index + base, 0);
      WrapIs((index + base) * 8, 7);
    }
  }

  /** Along any chain of non-empty lists the offsets are exactly the multiples of
      eight up to the size of the vtable: every slot has one entry, entries of a
      base class come before those of a derived one, and within a class in order. */
  lemma {:induction false} EverySlotHasOneEntry(chain: seq<seq<string>>, p: nat)
    requires 0 < p < |Flattened(chain)|
    ensures var slot := Flattened(chain)[p];
            && slot.Own? && slot.depth < |chain| && 0 < slot.index < |chain[slot.depth]|
            && Position(chain[..slot.depth], slot.index) == p
  {
    if chain != [] {
      var n := |chain| - 1;
      var front := chain[..n];
      if p < |Flattened(front)| {
        EverySlotHasOneEntry(front, p);
        var slot := Flattened(front)[p];
        assert front[..slot.depth] == chain[..slot.depth];
      } else {
        assert Flattened(chain)[p] == Own(n, p - |Flattened(front)| + 1);
      }
    }
  }

  lemma {:induction false} FlattenedGrows(chain: seq<seq<string>>, depth: nat)
    requires depth <= |chain|
    ensures Flattened(chain[..depth]) <= Flattened(chain)
  {
    if depth == |chain| {
      assert chain[..depth] == chain;
    } else {
      var front := chain[..|chain| - 1];
      FlattenedGrows(front, depth);
      assert front[..depth] == chain[..depth];
    }
  }

  lemma EntryOffset(chain: seq<seq<string>>, d: nat, i: nat)
    requires d < |chain| && 0 < i < |chain[d]|
    requires 8 * |Flattened(chain)| < WORD32 && |chain| < 0x2000_0000
    requires forall l <- chain :: l != []
    ensures Offset(i, BaseSum(chain[..d])) == 8 * Position(chain[..d], i)
    ensures Position(chain[..d], i) < |Flattened(chain)|
  {
    assert chain[..d + 1] == chain[..d] + [chain[d]];
    FlattenedGrows(chain, d + 1);
    assert |Flattened(chain[..d + 1])| <= |Flattened(chain)|;
    assert forall l <- chain[..d] :: l in chain;
    OffsetIsPositionIff(chain[..d], chain[d], i);
    PositionHoldsEntry(chain[..d], chain[d], i);
  }

  lemma PositionsKeepOrder(chain: seq<seq<string>>, d1: nat, i1: nat, d2: nat, i2: nat)
    requires d1 <= d2 < |chain| && 0 < i1 < |chain[d1]| && 0 < i2 < |chain[d2]|
    requires d1 < d2 || i1 < i2
    ensures Position(chain[..d1], i1) < Position(chain[..d2], i2)
  {
    if d1 < d2 {
      FlattenedGrows(chain[..d2], d1 + 1);
      assert chain[..d2][..d1 + 1] == chain[..d1 + 1];
      assert chain[..d1 + 1] == chain[..d1] + [chain[d1]];
      PositionHoldsEntry(chain[..d1], chain[d1], i1);
    }
  }

  /** Two entries of a chain get offsets in the order of the vtable. */
  lemma OffsetsKeepOrder(chain: seq<seq<string>>, d1: nat, i1: nat, d2: nat, i2: nat)
    requires d1 <= d2 < |chain| && 0 < i1 < |chain[d1]| && 0 < i2 < |chain[d2]|
    requires 8 * |Flattened(chain)| < WORD32 && |chain| < 0x2000_0000
    requires forall l <- chain :: l != []
    requires d1 < d2 || i1 < i2
    ensures Offset(i1, BaseSum(chain[..d1])) < Offset(i2, BaseSum(chain[..d2])) < 8 * |Flattened(chain)|
  {
    EntryOffset(chain, d1, i1);
    EntryOffset(chain, d2, i2);
    PositionsKeepOrder(chain, d1, i1, d2, i2);
    Eightfold(Position(chain[..d1], i1), Position(chain[..d2], i2), |Flattened(chain)|);
  }

  lemma Eightfold(a: nat, b: nat, c: nat)
    requires a < b < c
    ensures 8 * a < 8 * b < 8 * c
  {}

  // ----- what the loaded maps hold -----

  /** The map of a class holds its names, each with the offset of its first place. */
  lemma {:induction false} LayoutHolds(list: seq<string>, base: nat)
    ensures forall name :: name in LayoutOf(list, base) <==> name in list
    ensures forall i :: 0 <= i < |list| && list[i] !in list[..i] ==> LayoutOf(list, base)[list[i]] == Offset(i, base)
  {
    if list != [] {
      var n := |list| - 1;
      LayoutHolds(list[..n], base);
      assert list == list[..n] + [list[n]];
      forall i | 0 <= i < n ensures list[..n][..i] == list[..i] && list[i] in list[..n] {}
    }
  }

  /** An entry that is the first of its name, past the shared slot. */
  predicate IsFirst(list: seq<string>, i: nat) { 0 < i < |list| && list[i] !in list[..i] }

  /** The chain's vtable fits the arithmetic. */
  predicate Fits(chain: seq<seq<string>>) { 8 * |Flattened(chain)| < WORD32 && |chain| < 0x2000_0000 }

  /** What is stored for an entry is eight times its place in the flattened vtable
      exactly when no base class has an empty list. */
  lemma StoredOffsetIff(bases: seq<seq<string>>, list: seq<string>, i: nat)
    requires IsFirst(list, i) && Fits(bases + [list])
    ensures list[i] in LayoutOf(list, BaseSum(bases))
    ensures LayoutOf(list, BaseSum(bases))[list[i]] == 8 * Position(bases, i) <==> forall l <- bases :: l != []
  {
    LayoutHolds(list, BaseSum(bases));
    OffsetIsPositionIff(bases, list, i);
  }

  /** The stored offset of an entry that names the shared slot is zero. */
  lemma StoredShared(bases: seq<seq<string>>, list: seq<string>)
    requires list != []
    ensures list[0] in LayoutOf(list, BaseSum(bases)) && LayoutOf(list, BaseSum(bases))[list[0]] == 0
  {
    LayoutHolds(list, BaseSum(bases));
    assert list[0] !in list[..0];
  }

  /** The chain above FProperty, named class by class: through UObjectBase to
      UField before 4.25, FField alone since. */
  predicate IsChain(l: Lists, below425: bool, chain: seq<seq<string>>) {
    if below425 then
      |chain| == 4 && chain[0] == l.uobjectBase && chain[1] == l.uobjectBaseUtility
        && chain[2] == l.uobject && chain[3] == l.ufield
    else |chain| == 1 && chain[0] == l.ffield
  }

  /** FProperty, in both versions of its chain. */
  lemma PropertyOffsetIff(l: Lists, below425: bool, chain: seq<seq<string>>, i: nat)
    requires IsChain(l, below425, chain) && IsFirst(l.fproperty, i) && Fits(chain + [l.fproperty])
    ensures l.fproperty[i] in PropertyLayout(l, below425)
    ensures PropertyLayout(l, below425)[l.fproperty[i]] == 8 * Position(chain, i) <==> forall b <- chain :: b != []
  {
    assert chain == PropertyBases(l, below425);
    StoredOffsetIff(chain, l.fproperty, i);
  }

  /** The classes derived from FProperty, in both versions. */
  lemma DerivedOffsetIff(l: Lists, below425: bool, chain: seq<seq<string>>, d: nat, i: nat)
    requires IsChain(l, below425, chain) && d < |l.derived| && IsFirst(l.derived[d], i)
    requires Fits(chain + [l.fproperty] + [l.derived[d]])
    ensures l.derived[d][i] in DerivedLayout(l, below425, d)
    ensures DerivedLayout(l, below425, d)[l.derived[d][i]] == 8 * Position(chain + [l.fproperty], i)
       <==> l.fproperty != [] && forall b <- chain :: b != []
  {
    assert chain == PropertyBases(l, below425);
    StoredOffsetIff(chain + [l.fproperty], l.derived[d], i);
    NoneEmpty(chain, l.fproperty);
  }

  lemma NoneEmpty(lists: seq<seq<string>>, last: seq<string>)
    ensures (forall b <- lists + [last] :: b != []) <==> last != [] && forall b <- lists :: b != []
  {
    if forall b <- lists + [last] :: b != [] {
      assert last in lists + [last] && forall b <- lists :: b in lists + [last];
    }
  }

  /** What is stored for the entries of a chain of non-empty lists is in the order
      of the vtable, so no two entries share an offset. */
  lemma StoredOffsetsKeepOrder(chain: seq<seq<string>>, d1: nat, i1: nat, d2: nat, i2: nat)
    requires d1 <= d2 < |chain| && IsFirst(chain[d1], i1) && IsFirst(chain[d2], i2)
    requires Fits(chain) && (forall l <- chain :: l != []) && (d1 < d2 || i1 < i2)
    ensures var first, second := LayoutOf(chain[d1], BaseSum(chain[..d1])), LayoutOf(chain[d2], BaseSum(chain[..d2]));
      && chain[d1][i1] in first && chain[d2][i2] in second
      && first[chain[d1][i1]] < second[chain[d2][i2]] < 8 * |Flattened(chain)|
  {
    LayoutHolds(chain[d1], BaseSum(chain[..d1]));
    LayoutHolds(chain[d2], BaseSum(chain[..d2]));
    OffsetsKeepOrder(chain, d1, i1, d2, i2);
  }
}
