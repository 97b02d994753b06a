# Expandable list adapter

A Dafny model of the adapter behind an expandable list on Android's
RecyclerView. There are two parts.

- `BaseExpandableRecyclerAdapter` flattens groups and their children into one
  list of rows. Each group shows a header row. When the group is expanded, its
  children follow the header. The adapter keeps one expanded flag per group
  *key object* in a hash map, and it translates flat positions into
  (group, child) pairs with running-sum loops. A click on a header flips the
  flag and reports the inserted or removed rows to the list widget. The
  adapter also packs group and child IDs into stable 64-bit row IDs.
- `MyAdapter` is the sample data source. It holds a list of header strings
  and a map from each header to its child strings.

Files:

| file | models |
|---|---|
| `JavaInts.dfy` | Java `int` range and two's-complement wrap-around |
| `Layout.dfy` | The flattened row list as a specification: block sizes, prefix sums (`Start`), `ItemCount`, the rows themselves (`AllRows`) and their inverse (`PositionOf`) |
| `GroupState.dfy` | The flag store: filling in unseen keys, toggling a key, the change notifications and their replay |
| `Adapter.dfy` | The base adapter: class `ExpandableAdapter` with the `groupState` map, and its loops as methods |
| `CombinedIds.dfy` | `getCombinedGroupId` and `getCombinedChildId` on `bv64` |
| `SampleAdapter.dfy` | The sample adapter's hooks, its `getChildId` loop and a worked example |

The abstract hooks the base class calls are `getGroupCount`,
`getChildrenCount` and `getGroup`. Here they are the constant sequence
`groups` of `GroupEntry(key, childCount)`. `SampleAdapter.Groups` builds that
sequence from the sample data. The methods are proved against the functions
of `Layout`:

- `GetItemCount` fills in the unseen keys and returns `ItemCount`.
- `GetItemViewType` returns GROUP exactly on header rows.
- `BindViewHolder` returns the row `AllRows` holds at that position.
- `OnGroupClick` flips the clicked group's flag and returns notifications.
  Replayed on the old rows, they produce the new rows.

Every running sum in the loops is a Java `int`. The class invariant `Valid()`
requires the total of all group and child rows to fit in an `int`. Under that
bound, each loop carries an invariant that its sums never overflow.

Each `mGroupState.get(...)` unboxes a `Boolean`. It throws on a key that was
never stored, so every method except `GetItemCount` requires `Known`: every
group's key is already in the map. On Android, the list widget calls
`getItemCount` before it binds or clicks anything. The widget also passes only
positions below the item count, and a click only on a header row. The
requires clauses state exactly these conditions.

Equal key objects share one flag. With `MyAdapter`, two equal header strings
are one key. `GroupState.ToggleItemCount` states the general effect of a
flip. A flip shows or hides the children of *every* group with that key.
The notifications, however, announce only the clicked group's children.
`GroupState.SharedKeyMiscount` exhibits the mismatch. The replay theorem
`NotificationsReplayToggle` therefore requires the clicked key to be unique.

The doc comments of `getCombinedGroupId` and `getCombinedChildId` describe
the type flag in "bit 0", the group ID in bits 1-31 and the child ID in bits
32-63. The code does otherwise: the flag is in bit 63, the group ID in bits
32-62 and the child ID in bits 0-31. The model follows the code.

## Model

| member | source | states |
|---|---|---|
| Layout.RowsInvert | app/src/main/java/xyz/thaihuynh/expandablerecyclerview/BaseExpandableRecyclerAdapter.java:65-80 | every flat position below the item count holds an existing item (a header of an existing group, or a child of an expanded group below its children count), and that item's position maps back to it |
| Layout.ItemAtPosition | app/src/main/java/xyz/thaihuynh/expandablerecyclerview/BaseExpandableRecyclerAdapter.java:65-80 | conversely, every existing item appears at `PositionOf` it, below the item count: the position translation is a bijection |
| Layout.RowAfterWalk | app/src/main/java/xyz/thaihuynh/expandablerecyclerview/BaseExpandableRecyclerAdapter.java:25-28 | when the running-sum walk stops at group g: a sum equal to the position means the row is g's header; a larger sum means the row is a child of group g-1, at the offset the bind code computes |
| Layout.HeaderIffStart | app/src/main/java/xyz/thaihuynh/expandablerecyclerview/BaseExpandableRecyclerAdapter.java:25-28 | a row is a header exactly when its position is one of the block start sums |
| Layout.FirstRowIsHeader | app/src/main/java/xyz/thaihuynh/expandablerecyclerview/BaseExpandableRecyclerAdapter.java:25-28 | with at least one group, row 0 exists and is group 0's header |
| Layout.ItemCountAtMostCapacity | app/src/main/java/xyz/thaihuynh/expandablerecyclerview/BaseExpandableRecyclerAdapter.java:83-94 | the item count never exceeds the count with every group expanded, so the bound in `Valid()` covers every state |
| GroupState.Filled | app/src/main/java/xyz/thaihuynh/expandablerecyclerview/BaseExpandableRecyclerAdapter.java:86-92 | after filling, the map's keys are the old keys plus every group key; old flags are kept, added flags are collapsed, and every group is known |
| GroupState.FilledKnown | app/src/main/java/xyz/thaihuynh/expandablerecyclerview/BaseExpandableRecyclerAdapter.java:86-92 | once every group is known, filling changes nothing |
| GroupState.FilledIdempotent | app/src/main/java/xyz/thaihuynh/expandablerecyclerview/BaseExpandableRecyclerAdapter.java:83-94 | counting the items twice leaves the same map as counting once |
| GroupState.Toggle | app/src/main/java/xyz/thaihuynh/expandablerecyclerview/BaseExpandableRecyclerAdapter.java:45-47 | a flip keeps the same keys, negates the clicked key's flag and leaves every other flag unchanged |
| GroupState.ToggleItemCount | app/src/main/java/xyz/thaihuynh/expandablerecyclerview/BaseExpandableRecyclerAdapter.java:45-47 | flipping a key's flag adds (collapsed to expanded) or removes (expanded to collapsed) exactly the children of every group sharing that key, and all groups stay known |
| GroupState.ToggleRows | app/src/main/java/xyz/thaihuynh/expandablerecyclerview/BaseExpandableRecyclerAdapter.java:45-47 | flipping the flag of a group g whose key is unique changes the flat list only by cutting out (was expanded) or splicing in (was collapsed) g's children right after g's header |
| GroupState.NotificationsReplayToggle | app/src/main/java/xyz/thaihuynh/expandablerecyclerview/BaseExpandableRecyclerAdapter.java:45-55 | for a group whose key is unique, applying the click's notifications (item changed, then range inserted or removed after the header) to the old row list gives exactly the new row list |
| GroupState.NotifiedCountMatches | app/src/main/java/xyz/thaihuynh/expandablerecyclerview/BaseExpandableRecyclerAdapter.java:48-55 | for a unique key, the new item count equals the old one plus the net number of rows the notifications announce |
| GroupState.SharedKeyMiscount | app/src/main/java/xyz/thaihuynh/expandablerecyclerview/BaseExpandableRecyclerAdapter.java:45-55 | with two groups sharing one key, expanding the first announces one inserted row, but the item count grows from 2 to 4 |
| BaseAdapter.ExpandableAdapter.constructor | app/src/main/java/xyz/thaihuynh/expandablerecyclerview/BaseExpandableRecyclerAdapter.java:22 | a new adapter starts with an empty flag map |
| BaseAdapter.ExpandableAdapter.GetItemCount | app/src/main/java/xyz/thaihuynh/expandablerecyclerview/BaseExpandableRecyclerAdapter.java:83-94 | the new map is the old one with unseen group keys filled in as collapsed; the result is the number of header rows plus the children of expanded groups, and it fits in an `int` |
| BaseAdapter.ExpandableAdapter.LocateGroup | app/src/main/java/xyz/thaihuynh/expandablerecyclerview/BaseExpandableRecyclerAdapter.java:41-44 | the walk stops at the first group whose block start is at or beyond the position; groupCount plus childCount is that start, and no running sum overflows |
| BaseAdapter.ExpandableAdapter.GetItemViewType | app/src/main/java/xyz/thaihuynh/expandablerecyclerview/BaseExpandableRecyclerAdapter.java:24-29 | the result is GROUP or CHILD, and it is GROUP exactly when the row at the position is a header |
| BaseAdapter.ExpandableAdapter.BindViewHolder | app/src/main/java/xyz/thaihuynh/expandablerecyclerview/BaseExpandableRecyclerAdapter.java:64-80 | the group and child passed to the bind hooks are exactly the item at that position; a header is bound with its group's current expanded flag |
| BaseAdapter.ExpandableAdapter.OnGroupClick | app/src/main/java/xyz/thaihuynh/expandablerecyclerview/BaseExpandableRecyclerAdapter.java:37-56 | the walk finds the clicked header's group g at its own start position; g's key flag is flipped and nothing else changes; the notifications are item-changed at the header followed by removal (if it was expanded) or insertion (if collapsed) of g's children right after it |
| JavaInts.Wrap32 | app/src/main/java/xyz/thaihuynh/expandablerecyclerview/MyAdapter.java:53-57 | `int` arithmetic: the result is an `int`, congruent to the exact value modulo 2^32, and equal to it when no overflow occurs |
| CombinedIds.WidenInt | app/src/main/java/xyz/thaihuynh/expandablerecyclerview/BaseExpandableRecyclerAdapter.java:198 | widening an `int` operand to `long` keeps its low 32 bits and copies its sign bit into the high 32 bits |
| CombinedIds.ChildMaskIsAllOnes | app/src/main/java/xyz/thaihuynh/expandablerecyclerview/BaseExpandableRecyclerAdapter.java:198 | the literal `0xFFFFFFFF` used as the child mask widens to all ones |
| CombinedIds.CombinedGroupId | app/src/main/java/xyz/thaihuynh/expandablerecyclerview/BaseExpandableRecyclerAdapter.java:182-184 | a group's combined ID has the type bit clear and the low 32 bits clear, and it carries the group ID's low 31 bits in bits 32-62 |
| CombinedIds.CombinedChildId | app/src/main/java/xyz/thaihuynh/expandablerecyclerview/BaseExpandableRecyclerAdapter.java:197-199 | a child's combined ID has the type bit set and the child ID's low 32 bits in bits 0-31; bits 32-62 hold the group ID's low 31 bits OR'd with the child ID's bits 32-62 |
| CombinedIds.GroupAndChildIdsDiffer | app/src/main/java/xyz/thaihuynh/expandablerecyclerview/BaseExpandableRecyclerAdapter.java:182-199 | no group's combined ID equals any child's |
| CombinedIds.GroupIdsInjective | app/src/main/java/xyz/thaihuynh/expandablerecyclerview/BaseExpandableRecyclerAdapter.java:182-184 | two group combined IDs are equal exactly when the group IDs agree on their low 31 bits |
| CombinedIds.ChildIdRoundTrip | app/src/main/java/xyz/thaihuynh/expandablerecyclerview/BaseExpandableRecyclerAdapter.java:197-199 | for a child ID in [0, 2^32), the group field and child field decode back to the group ID's low 31 bits and the child ID |
| CombinedIds.ChildIdsInjective | app/src/main/java/xyz/thaihuynh/expandablerecyclerview/BaseExpandableRecyclerAdapter.java:197-199 | for child IDs in [0, 2^32), two child combined IDs are equal exactly when the group IDs agree on their low 31 bits and the child IDs are equal |
| CombinedIds.ChildMaskCollision | app/src/main/java/xyz/thaihuynh/expandablerecyclerview/BaseExpandableRecyclerAdapter.java:197-199 | as written, child ID 2^32 in group 0 gets the same combined ID as child 0 in group 1 |
| CombinedIds.CombinedChildIdMasked | app/src/main/java/xyz/thaihuynh/expandablerecyclerview/BaseExpandableRecyclerAdapter.java:186-199 | with a `long` mask, the type bit is set, bits 0-31 hold the child ID's low 32 bits, and bits 32-62 hold only the group ID's low 31 bits |
| CombinedIds.MaskedChildIdsInjective | app/src/main/java/xyz/thaihuynh/expandablerecyclerview/BaseExpandableRecyclerAdapter.java:186-199 | with the `long` mask, two child combined IDs are equal exactly when the group IDs agree on their low 31 bits and the child IDs agree on their low 32 bits, for all inputs |
| CombinedIds.MaskedAgreesWhenBounded | app/src/main/java/xyz/thaihuynh/expandablerecyclerview/BaseExpandableRecyclerAdapter.java:197-199 | the code as written and the corrected version agree on every child ID in [0, 2^32) |
| SampleAdapter.Groups | app/src/main/java/xyz/thaihuynh/expandablerecyclerview/MyAdapter.java:26-39 | the hooks as the base adapter sees them: one entry per header, keyed by the header string, with that header's child-list size |
| SampleAdapter.GroupIdsUnique | app/src/main/java/xyz/thaihuynh/expandablerecyclerview/MyAdapter.java:46-49 | two groups' IDs are equal exactly when their positions are equal |
| SampleAdapter.IsChildSelectable | app/src/main/java/xyz/thaihuynh/expandablerecyclerview/MyAdapter.java:81-84 | every child is selectable |
| SampleAdapter.ChildId | app/src/main/java/xyz/thaihuynh/expandablerecyclerview/MyAdapter.java:51-58 | the loop's result is groupPosition times (the requested group's child count + 1), plus childPosition, wrapped to an `int` |
| SampleAdapter.ChildIdsUniqueInGroup | app/src/main/java/xyz/thaihuynh/expandablerecyclerview/MyAdapter.java:51-58 | two different children of one group get different IDs, even when the arithmetic wraps |
| SampleAdapter.ChildIdNoWrap | app/src/main/java/xyz/thaihuynh/expandablerecyclerview/MyAdapter.java:51-58 | when the exact value fits in an `int`, the ID equals it and lies in [0, 2^31) |
| SampleAdapter.BoundRowsHaveData | app/src/main/java/xyz/thaihuynh/expandablerecyclerview/MyAdapter.java:41-44 | every row the adapter binds names an existing header, and a child row's index lies inside that header's child list, so `getChild` never indexes past it |
| SampleAdapter.EqualHeadersShareFlag | app/src/main/java/xyz/thaihuynh/expandablerecyclerview/MyAdapter.java:36-39 | two groups with equal header strings share one expanded flag and have the same children count |
| SampleAdapter.ExampleRows | app/src/main/java/xyz/thaihuynh/expandablerecyclerview/BaseExpandableRecyclerAdapter.java:83-94 | headers A, B and C with 2, 0 and 1 children give three header rows while collapsed; expanding A gives A, its two children, B and C |

## Left out

- `onCreateViewHolder`, `MyAdapter`'s view holders, layout inflation and the bodies of `onBindGroupViewHolder` and `onBindChildViewHolder` are left out. They are UI work on Android views. The bindings (group, child, expanded flag) they receive are modelled.
- `ExpandableRecyclerView` is not part of this model. It is a trivial `RecyclerView` subclass.
- `notifyItemChanged`, `notifyItemRangeInserted` and `notifyItemRangeRemoved` are Android platform calls. They are modelled as the returned `Notification` sequence, and `Replay` gives their meaning.
- `getAdapterPosition` is a platform call. It is modelled as the click's input `adapterPosition`. Its `NO_POSITION` (-1) result, which the source does not guard against, is excluded by the click's requires.
- Click-listener wiring is left out. The click handler itself is `OnGroupClick`.
- Hash-map identity: keys compare with Dafny's `==`. This stands in for Java's `equals`/`hashCode`, which for `String` keys is value equality.
- SampleAdapter.GroupCount, SampleAdapter.ChildrenCount, SampleAdapter.Group, SampleAdapter.Child and SampleAdapter.GroupId model the sample hooks as plain functions with no contract of their own. Their properties are stated by `Groups`, `GroupIdsUnique` and `BoundRowsHaveData`.
- SampleAdapter.ChildId: the model does not prove that the `int` result widens into the `bv64` argument of `getCombinedChildId`. The solver cannot relate unbounded integers to bit-vectors within its limits. The link is stated on each side instead: `ChildIdNoWrap` bounds the ID to [0, 2^31), and `ChildIdRoundTrip` covers every child ID below 2^32.
- GroupState.NotificationsReplayToggle and GroupState.NotifiedCountMatches require the clicked group's key to be unique. With shared keys the source's notifications are wrong, as `SharedKeyMiscount` shows.
- BaseAdapter.ExpandableAdapter.Valid: the model assumes the all-expanded row total fits in an `int`. It does not model overflow of the item count, which no real list reaches.

## Findings

| source | as written | input that shows it | evidently intended | confidence | as-written member | corrected member |
|---|---|---|---|---|---|---|
| app/src/main/java/xyz/thaihuynh/expandablerecyclerview/BaseExpandableRecyclerAdapter.java:198 | the mask is the `int` literal `0xFFFFFFFF`, which is -1 and widens to a `long` of all ones, so `childId & 0xFFFFFFFF` keeps every bit of the child ID | group 0 with child ID 2^32 and group 1 with child ID 0 both give 0x8000_0001_0000_0000 | mask with `0xFFFFFFFFL` so only the child ID's low 32 bits are kept, as the doc comment's layout says | high, not executed | CombinedIds.ChildMaskCollision | CombinedIds.CombinedChildIdMasked |
