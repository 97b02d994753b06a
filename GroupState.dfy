/**
 * The expansion-state store: a map from a group's key object to its
 * expanded flag. Unseen keys are filled in as collapsed; a header click flips
 * one flag and tells the list widget which rows appeared or disappeared.
 */
module GroupState {
  import opened Layout

  datatype Option<T> = None | Some(value: T)

  // ---------------------------------------------------------------------
  // Filling in unseen groups

  function GroupKeys<K>(groups: seq<GroupEntry<K>>): set<K> {
    set j | 0 <= j < |groups| :: groups[j].key
  }

  /** The store after the item count is computed: every group key that was
      missing is added as collapsed, and nothing else changes. */
  function Filled<K>(groups: seq<GroupEntry<K>>, state: map<K, bool>): (r: map<K, bool>)
    ensures r.Keys == state.Keys + GroupKeys(groups)
    ensures forall k :: k in state ==> r[k] == state[k]
    ensures forall k :: k in r && k !in state ==> !r[k]
    ensures Known(groups, r)
  {
    map k | k in state.Keys + GroupKeys(groups) :: if k in state then state[k] else false
  }

  /** Once every group is known, filling in changes nothing; in particular
      filling in twice is the same as once. */
  lemma FilledKnown<K>(groups: seq<GroupEntry<K>>, state: map<K, bool>)
    requires Known(groups, state)
    ensures Filled(groups, state) == state
  {
    var r := Filled(groups, state);
    forall k | k in GroupKeys(groups)
      ensures k in state
    {
      var j :| 0 <= j < |groups| && groups[j].key == k;
    }
    assert r.Keys == state.Keys;
  }

  lemma FilledIdempotent<K>(groups: seq<GroupEntry<K>>, state: map<K, bool>)
    ensures Filled(groups, Filled(groups, state)) == Filled(groups, state)
  {
    FilledKnown(groups, Filled(groups, state));
  }

  // ---------------------------------------------------------------------
  // Toggling one flag

  /** Flip the flag stored under key k. */
  function Toggle<K>(state: map<K, bool>, k: K): (r: map<K, bool>)
    requires k in state
    ensures r.Keys == state.Keys
    ensures r[k] == !state[k]
    ensures forall k' :: k' in state && k' != k ==> r[k'] == state[k']
  {
    state[k := !state[k]]
  }

  /** No other group shares group g's key object. */
  predicate UniqueKey<K(==)>(groups: seq<GroupEntry<K>>, g: nat)
    requires g < |groups|
  {
    forall j :: 0 <= j < |groups| && j != g ==> groups[j].key != groups[g].key
  }

  /** Children of the first i groups whose key is k: the rows a flip of k's
      flag adds or removes. */
  function SharedChildren<K(==)>(groups: seq<GroupEntry<K>>, k: K, i: nat): nat
    requires i <= |groups|
  {
    if i == 0 then 0
    else SharedChildren(groups, k, i - 1) + (if groups[i - 1].key == k then groups[i - 1].childCount else 0)
  }

  lemma {:induction false} SharedChildrenOfUniqueKey<K>(groups: seq<GroupEntry<K>>, g: nat, i: nat)
    requires g < |groups| && UniqueKey(groups, g)
    requires i <= |groups|
    ensures SharedChildren(groups, groups[g].key, i) == if g < i then groups[g].childCount else 0
  {
    if i > 0 {
      SharedChildrenOfUniqueKey(groups, g, i - 1);
    }
  }

  lemma {:induction false} ToggleStart<K>(groups: seq<GroupEntry<K>>, state: map<K, bool>, k: K, i: nat)
    requires KnownUpTo(groups, state, i)
    requires k in state
    ensures KnownUpTo(groups, Toggle(state, k), i)
    ensures state[k] ==> Start(groups, Toggle(state, k), i) + SharedChildren(groups, k, i) == Start(groups, state, i)
    ensures !state[k] ==> Start(groups, Toggle(state, k), i) == Start(groups, state, i) + SharedChildren(groups, k, i)
  {
    if i > 0 {
      ToggleStart(groups, state, k, i - 1);
    }
  }

  /** Flipping the flag of key k shows or hides the children of every group
      whose key is k: equal keys share one flag. */
  lemma ToggleItemCount<K>(groups: seq<GroupEntry<K>>, state: map<K, bool>, k: K)
    requires Known(groups, state)
    requires k in state
    ensures Known(groups, Toggle(state, k))
    ensures state[k] ==> ItemCount(groups, Toggle(state, k)) + SharedChildren(groups, k, |groups|) == ItemCount(groups, state)
    ensures !state[k] ==> ItemCount(groups, Toggle(state, k)) == ItemCount(groups, state) + SharedChildren(groups, k, |groups|)
  {
    ToggleStart(groups, state, k, |groups|);
  }

  // ---------------------------------------------------------------------
  // Change notifications

  /** The incremental-update calls made to the list widget. */
  datatype Notification =
    | ItemChanged(position: int)
    | ItemRangeInserted(positionStart: int, itemCount: int)
    | ItemRangeRemoved(positionStart: int, itemCount: int)

  /** What a header click at flat position p reports: the header row itself
      changed, and its children were removed (if the group was expanded) or
      inserted (if it was collapsed) right after it. */
  function ToggleNotifications(p: int, wasExpanded: bool, childCount: int): seq<Notification> {
    [ItemChanged(p),
     if wasExpanded then ItemRangeRemoved(p + 1, childCount) else ItemRangeInserted(p + 1, childCount)]
  }

  /** Net number of rows the notifications announce. */
  function CountChange(events: seq<Notification>): int {
    if events == [] then 0
    else
      (match events[0]
       case ItemChanged(_) => 0
       case ItemRangeInserted(_, n) => n
       case ItemRangeRemoved(_, n) => -n)
      + CountChange(events[1..])
  }

  /** What the widget does with its copy of the rows on one notification;
      `inserted` supplies the rows it then binds for an insertion. None when
      the notification does not fit the rows. */
  function Apply(rows: seq<Item>, e: Notification, inserted: seq<Item>): Option<seq<Item>> {
    match e
    case ItemChanged(p) =>
      if 0 <= p < |rows| then Some(rows) else None
    case ItemRangeInserted(s, n) =>
      if 0 <= s <= |rows| && n == |inserted| then Some(rows[..s] + inserted + rows[s..]) else None
    case ItemRangeRemoved(s, n) =>
      if 0 <= s && 0 <= n && s + n <= |rows| then Some(rows[..s] + rows[s + n..]) else None
  }

  function Replay(rows: seq<Item>, events: seq<Notification>, inserted: seq<Item>): Option<seq<Item>>
    decreases |events|
  {
    if events == [] then Some(rows)
    else
      match Apply(rows, events[0], inserted)
      case None => None
      case Some(next) => Replay(next, events[1..], inserted)
  }

  lemma ReplayPair(rows: seq<Item>, e0: Notification, e1: Notification, inserted: seq<Item>)
    ensures Replay(rows, [e0, e1], inserted) ==
      match Apply(rows, e0, inserted)
      case None => None
      case Some(next) => Apply(next, e1, inserted)
  {
    var events := [e0, e1];
    assert events[1..] == [e1];
    assert [e1][1..] == [];
    match Apply(rows, e0, inserted)
    case None =>
    case Some(next) =>
      match Apply(next, e1, inserted)
      case None =>
      case Some(last) =>
        assert Replay(last, [], inserted) == Some(last);
  }

  lemma {:induction false} RowsFrame<K>(groups: seq<GroupEntry<K>>, s1: map<K, bool>, s2: map<K, bool>, i: nat)
    requires KnownUpTo(groups, s1, i) && KnownUpTo(groups, s2, i)
    requires forall j :: 0 <= j < i ==> s1[groups[j].key] == s2[groups[j].key]
    ensures Rows(groups, s1, i) == Rows(groups, s2, i)
  {
    if i > 0 {
      RowsFrame(groups, s1, s2, i - 1);
    }
  }

  /** after is before with n rows cut out after position p (was expanded),
      or with ins spliced in there (was collapsed). */
  predicate CutOrSplice(before: seq<Item>, after: seq<Item>, p: nat, n: nat, wasExpanded: bool, ins: seq<Item>) {
    && p + 1 <= |before|
    && (wasExpanded ==> p + 1 + n <= |before| && after == before[..p + 1] + before[p + 1 + n..])
    && (!wasExpanded ==> after == before[..p + 1] + ins + before[p + 1..])
  }

  /** Rows appended after the changed spot are carried along. */
  lemma CutOrSpliceAppend(before: seq<Item>, after: seq<Item>, p: nat, n: nat, wasExpanded: bool, ins: seq<Item>, b: seq<Item>)
    requires CutOrSplice(before, after, p, n, wasExpanded, ins)
    ensures CutOrSplice(before + b, after + b, p, n, wasExpanded, ins)
  {
    var q := p + 1;
    assert (before + b)[..q] == before[..q];
    if wasExpanded {
      assert (before + b)[q + n..] == before[q + n..] + b;
    } else {
      assert (before + b)[q..] == before[q..] + b;
    }
  }

  /** What a flip of group g's flag (its key unique) does to the rows of the
      first i > g groups. */
  predicate ToggledRows<K>(groups: seq<GroupEntry<K>>, state: map<K, bool>, g: nat, i: nat)
    requires Known(groups, state)
    requires g < i <= |groups|
  {
    var k := groups[g].key;
    CutOrSplice(Rows(groups, state, i), Rows(groups, Toggle(state, k), i),
                Start(groups, state, g), groups[g].childCount, state[k], ChildRows(g, groups[g].childCount))
  }

  lemma ToggleRowsOwnBlock<K>(groups: seq<GroupEntry<K>>, state: map<K, bool>, g: nat)
    requires Known(groups, state)
    requires g < |groups| && UniqueKey(groups, g)
    ensures ToggledRows(groups, state, g, g + 1)
  {
    var k := groups[g].key;
    var t := Toggle(state, k);
    var n := groups[g].childCount;
    var c := ChildRows(g, n);
    RowsFrame(groups, state, t, g);
    RowsLength(groups, state, g);
    var r := Rows(groups, state, g);
    assert Start(groups, state, g) == |r|;
    if state[k] {
      assert Block(groups, state, g) == [Header(g)] + c;
      assert Block(groups, t, g) == [Header(g)];
      CutOwnChildren(r, Header(g), c);
    } else {
      assert Block(groups, state, g) == [Header(g)];
      assert Block(groups, t, g) == [Header(g)] + c;
      SpliceOwnChildren(r, Header(g), c);
    }
  }

  lemma CutOwnChildren(r: seq<Item>, h: Item, c: seq<Item>)
    ensures var before := r + ([h] + c);
            |r| + 1 + |c| <= |before| && before[..|r| + 1] + before[|r| + 1 + |c|..] == r + [h]
  {
    var before := r + ([h] + c);
    assert before[..|r| + 1] == r + [h];
    assert before[|r| + 1 + |c|..] == [];
  }

  lemma SpliceOwnChildren(r: seq<Item>, h: Item, c: seq<Item>)
    ensures var before := r + [h];
            before[..|r| + 1] + c + before[|r| + 1..] == r + ([h] + c)
  {
    var before := r + [h];
    assert before[..|r| + 1] == before;
    assert before[|r| + 1..] == [];
  }

  lemma ToggleRowsLaterBlock<K>(groups: seq<GroupEntry<K>>, state: map<K, bool>, g: nat, i: nat)
    requires Known(groups, state)
    requires g < i < |groups| && UniqueKey(groups, g)
    requires ToggledRows(groups, state, g, i)
    ensures ToggledRows(groups, state, g, i + 1)
  {
    var k := groups[g].key;
    var t := Toggle(state, k);
    var n := groups[g].childCount;
    assert groups[i].key != k;
    assert Block(groups, t, i) == Block(groups, state, i);
    CutOrSpliceAppend(Rows(groups, state, i), Rows(groups, t, i), Start(groups, state, g), n, state[k],
                      ChildRows(g, n), Block(groups, state, i));
  }

  /** After flipping group g's flag (its key unique), the rows of the first
      i > g groups are the old ones with g's children cut out right after its
      header, or spliced in there. */
  lemma {:induction false} ToggleRows<K>(groups: seq<GroupEntry<K>>, state: map<K, bool>, g: nat, i: nat)
    requires Known(groups, state)
    requires g < i <= |groups| && UniqueKey(groups, g)
    ensures ToggledRows(groups, state, g, i)
  {
    if i == g + 1 {
      ToggleRowsOwnBlock(groups, state, g);
    } else {
      var j := i - 1;
      ToggleRows(groups, state, g, j);
      ToggleRowsLaterBlock(groups, state, g, j);
    }
  }

  /** The notifications of a click on group g's header describe the change
      exactly: replaying them on the old flat list, with g's children as the
      inserted rows, gives the new flat list. */
  lemma NotificationsReplayToggle<K>(groups: seq<GroupEntry<K>>, state: map<K, bool>, g: nat)
    requires Known(groups, state)
    requires g < |groups| && UniqueKey(groups, g)
    ensures Known(groups, Toggle(state, groups[g].key))
    ensures Replay(AllRows(groups, state),
                   ToggleNotifications(Start(groups, state, g), state[groups[g].key], groups[g].childCount),
                   ChildRows(g, groups[g].childCount))
            == Some(AllRows(groups, Toggle(state, groups[g].key)))
  {
    var k := groups[g].key;
    var p := Start(groups, state, g);
    var n := groups[g].childCount;
    var ins := ChildRows(g, n);
    var rows := AllRows(groups, state);
    var after := AllRows(groups, Toggle(state, k));
    ToggleRows(groups, state, g, |groups|);
    var events := ToggleNotifications(p, state[k], n);
    assert Apply(rows, events[0], ins) == Some(rows);
    assert Apply(rows, events[1], ins) == Some(after);
    ReplayPair(rows, events[0], events[1], ins);
  }

  /** The new item count matches the notified insertion or removal. */
  lemma NotifiedCountMatches<K>(groups: seq<GroupEntry<K>>, state: map<K, bool>, g: nat)
    requires Known(groups, state)
    requires g < |groups| && UniqueKey(groups, g)
    ensures Known(groups, Toggle(state, groups[g].key))
    ensures ItemCount(groups, Toggle(state, groups[g].key)) ==
      ItemCount(groups, state) + CountChange(ToggleNotifications(Start(groups, state, g), state[groups[g].key], groups[g].childCount))
  {
    var k := groups[g].key;
    var n: int := groups[g].childCount;
    ToggleItemCount(groups, state, k);
    SharedChildrenOfUniqueKey(groups, g, |groups|);
    var events := ToggleNotifications(Start(groups, state, g), state[k], n);
    assert CountChange(events[1..][1..]) == 0;
    assert CountChange(events[1..]) == if state[k] then -n else n;
    assert CountChange(events) == if state[k] then -n else n;
  }

  /** Two groups with one key object: expanding the first notifies one
      inserted row, but two rows appear. */
  lemma SharedKeyMiscount()
    ensures var groups := [GroupEntry(7, 1), GroupEntry(7, 1)];
            var state := map[7 := false];
            && Known(groups, state)
            && ItemCount(groups, state) == 2
            && ItemCount(groups, Toggle(state, 7)) == 4
            && CountChange(ToggleNotifications(Start(groups, state, 0), false, 1)) == 1
  {
    var groups := [GroupEntry(7, 1), GroupEntry(7, 1)];
    var state := map[7 := false];
    var events := ToggleNotifications(0, false, 1);
    assert events[1..][1..] == [];
  }
}
