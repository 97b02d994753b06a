/**
 * The base expandable adapter: a per-group expanded/collapsed flag kept in a
 * map keyed by the group's key object, and the loops that translate flat
 * list positions into groups and children. The abstract hooks a subclass
 * implements (group count, children counts, group key objects) are given as
 * the constant sequence `groups`.
 */
module BaseAdapter {
  import opened JavaInts
  import opened Layout
  import opened GroupState

  /** View type of a child row. */
  const CHILD: int := 1
  /** View type of a group header row. */
  const GROUP: int := 2

  /** What a row is bound to: onBindGroupViewHolder's arguments for a header,
      onBindChildViewHolder's for a child. */
  datatype Binding =
    | GroupBinding(groupPosition: nat, isExpanded: bool)
    | ChildBinding(groupPosition: nat, childPosition: nat)
  {
    /** The row this binding shows. */
    function Row(): Item {
      match this
      case GroupBinding(g, _) => Header(g)
      case ChildBinding(g, c) => ChildRow(g, c)
    }
  }

  class ExpandableAdapter<K(==)> {
    /** The groups as the hooks report them: key object and children count. */
    const groups: seq<GroupEntry<K>>
    /** Expanded flag per group key object. */
    var groupState: map<K, bool>

    /** Every running sum the loops form fits in an `int`. */
    predicate Valid() {
      Capacity(groups) <= INT_MAX
    }

    constructor (groups: seq<GroupEntry<K>>)
      requires Capacity(groups) <= INT_MAX
      ensures Valid()
      ensures this.groups == groups && groupState == map[]
    {
      this.groups := groups;
      groupState := map[];
    }

    /** Number of rows; records every group not seen before as collapsed. */
    method GetItemCount() returns (count: int)
      requires Valid()
      modifies this
      ensures groupState == Filled(groups, old(groupState))
      ensures count == ItemCount(groups, groupState)
      ensures count <= INT_MAX
    {
      count := 0;
      var groupCount := |groups|;
      var i := 0;
      while i < groupCount
        invariant 0 <= i <= groupCount
        invariant groupState == Filled(groups[..i], old(groupState))
        invariant KnownUpTo(groups, groupState, i)
        invariant count == Start(groups, groupState, i)
        invariant count <= INT_MAX
      {
        var group := groups[i].key;
        CountStep(groups, groupState, i);
        FilledStep(groups, old(groupState), i);
        if group !in groupState {
          groupState := groupState[group := false];
        }
        count := count + (if groupState[group] then groups[i].childCount else 0) + 1;
        i := i + 1;
      }
      assert groups[..i] == groups;
    }

    /** Walks the groups' blocks until the running total reaches the
        position: the loop shared by the header click and row binding. On
        exit, groupCount groups lie wholly before the position, and
        childCount counts their visible children. */
    method LocateGroup(position: int) returns (groupCount: int, childCount: int)
      requires Valid() && Known(groups, groupState)
      requires position <= ItemCount(groups, groupState)
      ensures 0 <= groupCount <= |groups|
      ensures groupCount + childCount == Start(groups, groupState, groupCount)
      ensures position <= Start(groups, groupState, groupCount)
      ensures groupCount > 0 ==> Start(groups, groupState, groupCount - 1) < position
    {
      groupCount, childCount := 0, 0;
      var i := 0;
      ItemCountAtMostCapacity(groups, groupState);
      while groupCount + childCount < position
        invariant i == groupCount
        invariant 0 <= groupCount <= |groups|
        invariant groupCount + childCount == Start(groups, groupState, groupCount)
        invariant groupCount > 0 ==> Start(groups, groupState, groupCount - 1) < position
        invariant groupCount + childCount <= INT_MAX
        decreases |groups| - groupCount
      {
        assert groupCount < |groups|;
        StartIncreases(groups, groupState, groupCount + 1, |groups|);
        groupCount := groupCount + 1;
        childCount := childCount + (if groupState[groups[i].key] then groups[i].childCount else 0);
        i := i + 1;
      }
    }

    /** GROUP for a header row, CHILD for a child row. */
    method GetItemViewType(position: int) returns (viewType: int)
      requires Valid() && Known(groups, groupState)
      requires 0 <= position < ItemCount(groups, groupState)
      ensures viewType == GROUP || viewType == CHILD
      ensures viewType == GROUP <==> AllRows(groups, groupState)[position].Header?
    {
      var count := 0;
      var i := 0;
      ItemCountAtMostCapacity(groups, groupState);
      while count < position
        invariant 0 <= i <= |groups|
        invariant count == Start(groups, groupState, i)
        invariant i > 0 ==> Start(groups, groupState, i - 1) < position
        invariant count <= INT_MAX
        decreases |groups| - i
      {
        assert i < |groups|;
        StartIncreases(groups, groupState, i + 1, |groups|);
        count := count + (if groupState[groups[i].key] then groups[i].childCount else 0) + 1;
        i := i + 1;
      }
      RowAfterWalk(groups, groupState, i, position);
      viewType := if count == position then GROUP else CHILD;
    }

    /** The group and child a row is bound to. */
    method BindViewHolder(position: int) returns (binding: Binding)
      requires Valid() && Known(groups, groupState)
      requires 0 <= position < ItemCount(groups, groupState)
      ensures binding.groupPosition < |groups|
      ensures binding.Row() == AllRows(groups, groupState)[position]
      ensures binding.GroupBinding? ==> binding.isExpanded == Expanded(groups, groupState, binding.groupPosition)
    {
      var groupCount, childCount := LocateGroup(position);
      var viewType := GetItemViewType(position);
      RowAfterWalk(groups, groupState, groupCount, position);
      if viewType == GROUP {
        binding := GroupBinding(groupCount, groupState[groups[groupCount].key]);
      } else {
        var groupPosition := groupCount - 1;
        var childPosition := position - groupCount - childCount +
          (if groupState[groups[groupPosition].key] then groups[groupPosition].childCount else 0);
        binding := ChildBinding(groupPosition, childPosition);
      }
    }

    /** A click on the header at adapterPosition: flips that group's flag and
        returns the notifications sent to the list widget. */
    method OnGroupClick(adapterPosition: int) returns (events: seq<Notification>)
      requires Valid() && Known(groups, groupState)
      requires 0 <= adapterPosition < ItemCount(groups, groupState)
      requires AllRows(groups, groupState)[adapterPosition].Header?
      modifies this
      ensures Known(groups, groupState)
      ensures var g := old(AllRows(groups, groupState)[adapterPosition].group);
              && g < |groups|
              && adapterPosition == old(Start(groups, groupState, g))
              && groupState == Toggle(old(groupState), groups[g].key)
              && events == ToggleNotifications(adapterPosition, old(groupState)[groups[g].key], groups[g].childCount)
    {
      ghost var g := AllRows(groups, groupState)[adapterPosition].group;
      RowsInvert(groups, groupState, |groups|, adapterPosition);
      var groupCount, allChildCount := LocateGroup(adapterPosition);
      if groupCount < g {
        StartIncreases(groups, groupState, groupCount, g);
      } else if groupCount > g {
        StartIncreases(groups, groupState, g, groupCount - 1);
      }
      var group := groups[groupCount].key;
      var isExpanded := groupState[group];
      groupState := groupState[group := !isExpanded];
      var childCount := groups[groupCount].childCount;
      if isExpanded {
        events := [ItemChanged(adapterPosition), ItemRangeRemoved(adapterPosition + 1, childCount)];
      } else {
        events := [ItemChanged(adapterPosition), ItemRangeInserted(adapterPosition + 1, childCount)];
      }
    }
  }

  /** One more step of getItemCount's counting loop: the key is filled in
      if missing, the earlier blocks keep their positions, and the sum stays
      within an `int`. */
  lemma CountStep<K>(groups: seq<GroupEntry<K>>, before: map<K, bool>, i: nat)
    requires i < |groups| && KnownUpTo(groups, before, i)
    requires Capacity(groups) <= INT_MAX
    ensures var k := groups[i].key;
            var after := if k in before then before else before[k := false];
            && KnownUpTo(groups, after, i + 1)
            && Start(groups, after, i + 1) == Start(groups, before, i) + (if after[k] then groups[i].childCount else 0) + 1
            && Start(groups, after, i + 1) <= INT_MAX
  {
    var k := groups[i].key;
    var after := if k in before then before else before[k := false];
    StartFrame(groups, before, after, i);
    StartAtMostCapacity(groups, after, i + 1);
    CapacityGrows(groups, i + 1, |groups|);
  }

  /** One more step of getItemCount's filling loop. */
  lemma FilledStep<K>(groups: seq<GroupEntry<K>>, state: map<K, bool>, i: nat)
    requires i < |groups|
    ensures var prev := Filled(groups[..i], state);
            Filled(groups[..i + 1], state) ==
              if groups[i].key in prev then prev else prev[groups[i].key := false]
  {
    var k := groups[i].key;
    assert GroupKeys(groups[..i + 1]) == GroupKeys(groups[..i]) + {k} by {
      assert groups[..i + 1] == groups[..i] + [groups[i]];
    }
  }
}
