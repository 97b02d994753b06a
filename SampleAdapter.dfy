/**
 * The sample adapter's data source: a list of header strings and a map from
 * each header to its list of child strings. It implements the base adapter's
 * hooks; the header string itself is the group's key object, so equal
 * headers share one expansion flag.
 */
module SampleAdapter {
  import opened JavaInts
  import opened Layout
  import opened BaseAdapter

  datatype Data = Data(headers: seq<string>, children: map<string, seq<string>>)

  /** Every header has a child list: otherwise looking it up yields null and
      the hooks throw. */
  predicate Valid(d: Data) {
    forall h :: h in d.headers ==> h in d.children
  }

  function GroupCount(d: Data): nat {
    |d.headers|
  }

  function ChildrenCount(d: Data, groupPosition: nat): nat
    requires Valid(d) && groupPosition < |d.headers|
  {
    |d.children[d.headers[groupPosition]]|
  }

  function Group(d: Data, groupPosition: nat): string
    requires groupPosition < |d.headers|
  {
    d.headers[groupPosition]
  }

  function Child(d: Data, groupPosition: nat, childPosition: nat): string
    requires Valid(d) && groupPosition < |d.headers|
    requires childPosition < ChildrenCount(d, groupPosition)
  {
    d.children[d.headers[groupPosition]][childPosition]
  }

  function GroupId(d: Data, groupPosition: nat): int {
    groupPosition
  }

  /** The hooks as the base adapter sees them: one entry per header, keyed
      by the header string, with that header's number of children. */
  function Groups(d: Data): (r: seq<GroupEntry<string>>)
    requires Valid(d)
    ensures |r| == GroupCount(d)
    ensures forall g :: 0 <= g < |r| ==> r[g].key == Group(d, g) && r[g].childCount == ChildrenCount(d, g)
  {
    seq(|d.headers|, g requires 0 <= g < |d.headers| => GroupEntry(Group(d, g), ChildrenCount(d, g)))
  }

  /** Group IDs are unique across groups, as the base adapter asks. */
  lemma GroupIdsUnique(d: Data, i: nat, j: nat)
    ensures GroupId(d, i) == GroupId(d, j) <==> i == j
  {
  }

  /** Every child is selectable. */
  function IsChildSelectable(d: Data, groupPosition: nat, childPosition: nat): (selectable: bool)
    ensures selectable
  {
    true
  }

  /** getChildId: the loop adds the size of the requested group (not of the
      groups before it) plus one, groupPosition times, in `int` arithmetic. */
  method ChildId(d: Data, groupPosition: nat, childPosition: int) returns (id: int)
    requires Valid(d) && groupPosition < |d.headers|
    requires IsInt(childPosition)
    ensures id == Wrap32(groupPosition * (ChildrenCount(d, groupPosition) + 1) + childPosition)
  {
    var size := |d.children[d.headers[groupPosition]]|;
    var result := 0;
    var i := 0;
    while i < groupPosition
      invariant 0 <= i <= groupPosition
      invariant result == Wrap32(i * (size + 1))
    {
      WrapStep(i, size + 1);
      result := Wrap32(result + size + 1);
      i := i + 1;
    }
    WrapAdd(groupPosition * (size + 1), childPosition);
    id := Wrap32(result + childPosition);
  }

  /** One more wrapped addition of step after i of them. */
  lemma WrapStep(i: int, step: int)
    ensures Wrap32(Wrap32(i * step) + step) == Wrap32((i + 1) * step)
  {
    WrapAdd(i * step, step);
    assert (i + 1) * step == i * step + step;
  }

  /** Two children of one group never get the same ID, even when the `int`
      arithmetic wraps: the base adapter asks for IDs unique within a group. */
  lemma ChildIdsUniqueInGroup(d: Data, g: nat, c1: nat, c2: nat)
    requires Valid(d) && g < |d.headers|
    requires c1 < ChildrenCount(d, g) && c2 < ChildrenCount(d, g)
    requires ChildrenCount(d, g) <= INT_MAX
    requires c1 != c2
    ensures Wrap32(g * (ChildrenCount(d, g) + 1) + c1) != Wrap32(g * (ChildrenCount(d, g) + 1) + c2)
  {
  }

  /** Without wrap-around the ID is exactly the closed form, and it lies in
      [0, 2^31), so its low 32 bits hold it in the combined child ID. */
  lemma ChildIdNoWrap(d: Data, g: nat, c: nat)
    requires Valid(d) && g < |d.headers|
    requires g * (ChildrenCount(d, g) + 1) + c <= INT_MAX
    ensures 0 <= Wrap32(g * (ChildrenCount(d, g) + 1) + c) == g * (ChildrenCount(d, g) + 1) + c <= INT_MAX
  {
  }

  /** Every row the adapter binds names existing data: a child row's
      position lies inside its header's child list, so getChild never
      indexes past it. */
  lemma BoundRowsHaveData(d: Data, state: map<string, bool>, p: int)
    requires Valid(d) && Known(Groups(d), state)
    requires 0 <= p < ItemCount(Groups(d), state)
    ensures AllRows(Groups(d), state)[p].group < GroupCount(d)
    ensures AllRows(Groups(d), state)[p].ChildRow? ==>
      AllRows(Groups(d), state)[p].child < ChildrenCount(d, AllRows(Groups(d), state)[p].group)
  {
    RowsInvert(Groups(d), state, |Groups(d)|, p);
  }

  /** Equal header strings are one key: they share a flag. */
  lemma EqualHeadersShareFlag(d: Data, state: map<string, bool>, i: nat, j: nat)
    requires Valid(d) && Known(Groups(d), state)
    requires i < |d.headers| && j < |d.headers|
    requires Group(d, i) == Group(d, j)
    ensures Expanded(Groups(d), state, i) == Expanded(Groups(d), state, j)
    ensures ChildrenCount(d, i) == ChildrenCount(d, j)
  {
  }

  /** The walk-through of the design: headers A, B and C with 2, 0 and 1
      children show 3 rows while collapsed; expanding A shows 5, with A's
      two children at positions 1 and 2 and B's header moved to 3. */
  lemma ExampleRows(collapsed: map<string, bool>, expanded: map<string, bool>)
    requires collapsed == map["A" := false, "B" := false, "C" := false]
    requires expanded == map["A" := true, "B" := false, "C" := false]
    ensures var groups := [GroupEntry("A", 2), GroupEntry("B", 0), GroupEntry("C", 1)];
            && Known(groups, collapsed) && Known(groups, expanded)
            && AllRows(groups, collapsed) == [Header(0), Header(1), Header(2)]
            && AllRows(groups, expanded) == [Header(0), ChildRow(0, 0), ChildRow(0, 1), Header(1), Header(2)]
  {
    var groups := [GroupEntry("A", 2), GroupEntry("B", 0), GroupEntry("C", 1)];
    assert Rows(groups, collapsed, 1) == [Header(0)];
    assert Rows(groups, collapsed, 2) == [Header(0), Header(1)];
    assert ChildRows(0, 2) == [ChildRow(0, 0), ChildRow(0, 1)];
    assert Rows(groups, expanded, 1) == [Header(0), ChildRow(0, 0), ChildRow(0, 1)];
    assert Rows(groups, expanded, 2) == [Header(0), ChildRow(0, 0), ChildRow(0, 1), Header(1)];
  }
}
