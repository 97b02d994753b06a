/**
 * The flat list an expandable adapter shows: every group contributes a
 * "block" made of its header row followed, when the group is expanded, by
 * one row per child. Positions in the flat list are prefix sums of the block
 * sizes. This module is the specification the adapter's loops are proved
 * against.
 */
module Layout {

  /** What the adapter's hooks report for one group: the key object used
      for its expansion flag (getGroup) and its number of children
      (getChildrenCount). */
  datatype GroupEntry<K> = GroupEntry(key: K, childCount: nat)

  /** One row of the flat list: the header of a group, or a child of it. */
  datatype Item = Header(group: nat) | ChildRow(group: nat, child: nat)

  /** The expansion flags of the first n groups are all in the map. */
  predicate KnownUpTo<K>(groups: seq<GroupEntry<K>>, state: map<K, bool>, n: nat) {
    n <= |groups| && forall j :: 0 <= j < n ==> groups[j].key in state
  }

  /** Every group's flag is in the map (what getItemCount establishes). */
  predicate Known<K>(groups: seq<GroupEntry<K>>, state: map<K, bool>) {
    KnownUpTo(groups, state, |groups|)
  }

  predicate Expanded<K>(groups: seq<GroupEntry<K>>, state: map<K, bool>, g: nat)
    requires g < |groups| && groups[g].key in state
  {
    state[groups[g].key]
  }

  /** Rows taken by group g: its header plus, when expanded, its children. */
  function BlockSize<K>(groups: seq<GroupEntry<K>>, state: map<K, bool>, g: nat): nat
    requires g < |groups| && groups[g].key in state
  {
    1 + (if Expanded(groups, state, g) then groups[g].childCount else 0)
  }

  /** Flat position of the header of group i: the rows of all groups before it. */
  function Start<K>(groups: seq<GroupEntry<K>>, state: map<K, bool>, i: nat): nat
    requires KnownUpTo(groups, state, i)
  {
    if i == 0 then 0 else Start(groups, state, i - 1) + BlockSize(groups, state, i - 1)
  }

  /** Number of rows in the flat list. */
  function ItemCount<K>(groups: seq<GroupEntry<K>>, state: map<K, bool>): nat
    requires Known(groups, state)
  {
    Start(groups, state, |groups|)
  }

  /** Rows of the first i groups when every group is expanded. */
  function CapacityUpTo<K>(groups: seq<GroupEntry<K>>, i: nat): nat
    requires i <= |groups|
  {
    if i == 0 then 0 else CapacityUpTo(groups, i - 1) + 1 + groups[i - 1].childCount
  }

  function Capacity<K>(groups: seq<GroupEntry<K>>): nat {
    CapacityUpTo(groups, |groups|)
  }

  /** The child rows of group g, in order. */
  function ChildRows(g: nat, n: nat): (r: seq<Item>)
    ensures |r| == n
    ensures forall c :: 0 <= c < n ==> r[c] == ChildRow(g, c)
  {
    seq(n, c requires 0 <= c < n => ChildRow(g, c))
  }

  /** The rows of group g. */
  function Block<K>(groups: seq<GroupEntry<K>>, state: map<K, bool>, g: nat): seq<Item>
    requires g < |groups| && groups[g].key in state
  {
    [Header(g)] + (if Expanded(groups, state, g) then ChildRows(g, groups[g].childCount) else [])
  }

  /** The flat list made of the first i groups. */
  function Rows<K>(groups: seq<GroupEntry<K>>, state: map<K, bool>, i: nat): seq<Item>
    requires KnownUpTo(groups, state, i)
  {
    if i == 0 then [] else Rows(groups, state, i - 1) + Block(groups, state, i - 1)
  }

  /** The whole flat list: ItemCount rows. */
  function AllRows<K>(groups: seq<GroupEntry<K>>, state: map<K, bool>): (r: seq<Item>)
    requires Known(groups, state)
    ensures |r| == ItemCount(groups, state)
  {
    RowsLength(groups, state, |groups|);
    Rows(groups, state, |groups|)
  }

  /** An item that exists: its group exists and, for a child, the group is
      expanded and has that child. */
  predicate ValidItem<K>(groups: seq<GroupEntry<K>>, state: map<K, bool>, it: Item)
    requires Known(groups, state)
  {
    it.group < |groups| &&
    (it.ChildRow? ==> Expanded(groups, state, it.group) && it.child < groups[it.group].childCount)
  }

  /** Where an item is shown: the inverse of the position translator. */
  function PositionOf<K>(groups: seq<GroupEntry<K>>, state: map<K, bool>, it: Item): nat
    requires Known(groups, state)
    requires it.group < |groups|
  {
    match it
    case Header(g) => Start(groups, state, g)
    case ChildRow(g, c) => Start(groups, state, g) + 1 + c
  }

  // ---------------------------------------------------------------------
  // Prefix sums

  /** Every block has at least one row, so header positions strictly increase. */
  lemma {:induction false} StartIncreases<K>(groups: seq<GroupEntry<K>>, state: map<K, bool>, i: nat, j: nat)
    requires KnownUpTo(groups, state, j)
    requires i <= j
    ensures Start(groups, state, i) + (j - i) <= Start(groups, state, j)
  {
    if i < j {
      StartIncreases(groups, state, i, j - 1);
    }
  }

  /** The flat list is never longer than with every group expanded. */
  lemma {:induction false} StartAtMostCapacity<K>(groups: seq<GroupEntry<K>>, state: map<K, bool>, i: nat)
    requires KnownUpTo(groups, state, i)
    ensures Start(groups, state, i) <= CapacityUpTo(groups, i)
  {
    if i > 0 {
      StartAtMostCapacity(groups, state, i - 1);
    }
  }

  lemma {:induction false} CapacityGrows<K>(groups: seq<GroupEntry<K>>, i: nat, j: nat)
    requires i <= j <= |groups|
    ensures CapacityUpTo(groups, i) <= CapacityUpTo(groups, j)
  {
    if i < j {
      CapacityGrows(groups, i, j - 1);
    }
  }

  lemma ItemCountAtMostCapacity<K>(groups: seq<GroupEntry<K>>, state: map<K, bool>)
    requires Known(groups, state)
    ensures ItemCount(groups, state) <= Capacity(groups)
  {
    StartAtMostCapacity(groups, state, |groups|);
  }

  /** Header positions depend only on the flags of the groups before. */
  lemma {:induction false} StartFrame<K>(groups: seq<GroupEntry<K>>, s1: map<K, bool>, s2: map<K, bool>, i: nat)
    requires KnownUpTo(groups, s1, i) && KnownUpTo(groups, s2, i)
    requires forall j :: 0 <= j < i ==> s1[groups[j].key] == s2[groups[j].key]
    ensures Start(groups, s1, i) == Start(groups, s2, i)
  {
    if i > 0 {
      StartFrame(groups, s1, s2, i - 1);
    }
  }

  // ---------------------------------------------------------------------
  // Rows

  lemma {:induction false} RowsLength<K>(groups: seq<GroupEntry<K>>, state: map<K, bool>, i: nat)
    requires KnownUpTo(groups, state, i)
    ensures |Rows(groups, state, i)| == Start(groups, state, i)
  {
    if i > 0 {
      RowsLength(groups, state, i - 1);
    }
  }

  /** The rows of fewer groups are a prefix of the rows of more groups. */
  lemma {:induction false} RowsPrefix<K>(groups: seq<GroupEntry<K>>, state: map<K, bool>, i: nat, j: nat)
    requires KnownUpTo(groups, state, j)
    requires i <= j
    ensures |Rows(groups, state, i)| <= |Rows(groups, state, j)|
    ensures Rows(groups, state, j)[..|Rows(groups, state, i)|] == Rows(groups, state, i)
  {
    if i < j {
      RowsPrefix(groups, state, i, j - 1);
      var a := Rows(groups, state, j - 1);
      assert Rows(groups, state, j) == a + Block(groups, state, j - 1);
      assert (a + Block(groups, state, j - 1))[..|a|] == a;
    }
  }

  /** The rows of group g sit at positions Start(g) .. Start(g + 1) - 1. */
  lemma RowAt<K>(groups: seq<GroupEntry<K>>, state: map<K, bool>, g: nat, p: int)
    requires Known(groups, state)
    requires g < |groups|
    requires Start(groups, state, g) <= p < Start(groups, state, g + 1)
    ensures p < ItemCount(groups, state)
    ensures AllRows(groups, state)[p] ==
      if p == Start(groups, state, g) then Header(g) else ChildRow(g, p - Start(groups, state, g) - 1)
  {
    RowsLength(groups, state, g);
    RowsLength(groups, state, g + 1);
    RowsPrefix(groups, state, g + 1, |groups|);
    var rows := Rows(groups, state, g + 1);
    assert rows == Rows(groups, state, g) + Block(groups, state, g);
    assert AllRows(groups, state)[p] == rows[p];
  }

  /** The loops' exit condition pins down the row: if the first g groups end
      at or after p, and the first g - 1 end before it, then p is the header
      of group g or a child of group g - 1. */
  lemma RowAfterWalk<K>(groups: seq<GroupEntry<K>>, state: map<K, bool>, g: nat, p: int)
    requires Known(groups, state)
    requires g <= |groups|
    requires 0 <= p < ItemCount(groups, state)
    requires p <= Start(groups, state, g)
    requires g > 0 ==> Start(groups, state, g - 1) < p
    ensures p == Start(groups, state, g) ==> g < |groups| && AllRows(groups, state)[p] == Header(g)
    ensures p < Start(groups, state, g) ==>
      g > 0 && AllRows(groups, state)[p] == ChildRow(g - 1, p - Start(groups, state, g - 1) - 1)
  {
    if p == Start(groups, state, g) {
      if g < |groups| {
        StartIncreases(groups, state, g + 1, |groups|);
        RowAt(groups, state, g, p);
      }
    } else {
      if g > 0 {
        RowAt(groups, state, g - 1, p);
      }
    }
  }

  /** Every position of the flat list shows an existing item, and the
      translator's inverse maps that item back to the position. */
  lemma {:induction false} RowsInvert<K>(groups: seq<GroupEntry<K>>, state: map<K, bool>, i: nat, p: int)
    requires Known(groups, state)
    requires i <= |groups|
    requires 0 <= p < Start(groups, state, i)
    ensures p < ItemCount(groups, state)
    ensures AllRows(groups, state)[p].group < i
    ensures ValidItem(groups, state, AllRows(groups, state)[p])
    ensures PositionOf(groups, state, AllRows(groups, state)[p]) == p
  {
    if p < Start(groups, state, i - 1) {
      RowsInvert(groups, state, i - 1, p);
    } else {
      RowAt(groups, state, i - 1, p);
    }
  }

  /** Every existing item is shown once, at PositionOf(it): together with
      RowsInvert, positions [0, ItemCount) and existing items correspond
      one to one. */
  lemma ItemAtPosition<K>(groups: seq<GroupEntry<K>>, state: map<K, bool>, it: Item)
    requires Known(groups, state)
    requires ValidItem(groups, state, it)
    ensures PositionOf(groups, state, it) < ItemCount(groups, state)
    ensures AllRows(groups, state)[PositionOf(groups, state, it)] == it
  {
    var g := it.group;
    StartIncreases(groups, state, g + 1, |groups|);
    RowAt(groups, state, g, PositionOf(groups, state, it));
  }

  /** Position 0 is the header of the first group. */
  lemma FirstRowIsHeader<K>(groups: seq<GroupEntry<K>>, state: map<K, bool>)
    requires Known(groups, state)
    requires |groups| > 0
    ensures ItemCount(groups, state) > 0
    ensures AllRows(groups, state)[0] == Header(0)
  {
    ItemAtPosition(groups, state, Header(0));
  }

  /** A position holds a header exactly when it is the prefix sum of the
      block sizes before some group. */
  lemma HeaderIffStart<K>(groups: seq<GroupEntry<K>>, state: map<K, bool>, p: int)
    requires Known(groups, state)
    requires 0 <= p < ItemCount(groups, state)
    ensures AllRows(groups, state)[p].Header? <==>
      exists g :: 0 <= g < |groups| && Start(groups, state, g) == p
  {
    RowsInvert(groups, state, |groups|, p);
    var it := AllRows(groups, state)[p];
    if it.Header? {
      assert 0 <= it.group < |groups| && Start(groups, state, it.group) == p;
      assert exists g :: 0 <= g < |groups| && Start(groups, state, g) == p;
    } else if g :| 0 <= g < |groups| && Start(groups, state, g) == p {
      ItemAtPosition(groups, state, Header(g));
    }
  }
}
