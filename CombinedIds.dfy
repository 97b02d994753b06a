/**
 * Stable 64-bit identifiers for the list widget, packed from a group ID and
 * a child ID (Java `long` values, here `bv64`). The code keeps the type flag
 * in bit 63 (set for a child, clear for a group), the low 31 bits of the
 * group ID in bits 32-62, and the child ID in bits 0-31.
 */
module CombinedIds {

  /** Bit 63: set in a child's combined ID, clear in a group's. */
  const TYPE_BIT: bv64 := 0x8000_0000_0000_0000
  /** The `0x7FFFFFFF` mask: the low 31 bits of the group ID. */
  const GROUP_MASK: bv64 := 0x7FFF_FFFF
  const LOW_32: bv64 := 0xFFFF_FFFF
  /** Shift distance of the group-ID field. */
  const HALF: bv64 := 32

  /** Java's widening of an `int` operand of a `long` operation: sign extension. */
  function WidenInt(x: bv32): (r: bv64)
    ensures r & LOW_32 == x as bv64
    ensures x & 0x8000_0000 == 0 ==> r >> HALF == 0
    ensures x & 0x8000_0000 != 0 ==> r >> HALF == 0xFFFF_FFFF
  {
    if x & 0x8000_0000 == 0 then x as bv64 else (x as bv64) | 0xFFFF_FFFF_0000_0000
  }

  /** The child mask as the code writes it: the `int` literal `0xFFFFFFFF`,
      which is -1, widened to a `long`. */
  const CHILD_MASK: bv64 := WidenInt(0xFFFF_FFFF)

  /** The child mask clears nothing. */
  lemma ChildMaskIsAllOnes()
    ensures CHILD_MASK == 0xFFFF_FFFF_FFFF_FFFF
  {
  }

  /** getCombinedGroupId. */
  function CombinedGroupId(groupId: bv64): (r: bv64)
    ensures r & TYPE_BIT == 0
    ensures r & LOW_32 == 0
    ensures r >> HALF == groupId & GROUP_MASK
  {
    (groupId & GROUP_MASK) << HALF
  }

  /** getCombinedChildId as written. The child ID's bits above 31 are not
      cleared and land in the group-ID and type fields. */
  function CombinedChildId(groupId: bv64, childId: bv64): (r: bv64)
    ensures r & TYPE_BIT == TYPE_BIT
    ensures r & LOW_32 == childId & LOW_32
    ensures (r >> HALF) & GROUP_MASK == (groupId & GROUP_MASK) | ((childId >> HALF) & GROUP_MASK)
  {
    TYPE_BIT | ((groupId & GROUP_MASK) << HALF) | (childId & CHILD_MASK)
  }

  /** A group's combined ID never equals a child's. */
  lemma GroupAndChildIdsDiffer(groupId: bv64, otherGroupId: bv64, childId: bv64)
    ensures CombinedGroupId(groupId) != CombinedChildId(otherGroupId, childId)
  {
    var r := CombinedGroupId(groupId);
    assert r & TYPE_BIT == 0;
  }

  /** Group combined IDs differ exactly when the low 31 bits of the group
      IDs differ. */
  lemma GroupIdsInjective(a: bv64, b: bv64)
    ensures CombinedGroupId(a) == CombinedGroupId(b) <==> a & GROUP_MASK == b & GROUP_MASK
  {
    if CombinedGroupId(a) == CombinedGroupId(b) {
      assert CombinedGroupId(a) >> HALF == CombinedGroupId(b) >> HALF;
    }
  }

  /** For a child ID in [0, 2^32) the fields decode back: bits 32-62 hold
      the low 31 bits of the group ID, bits 0-31 the child ID. */
  lemma ChildIdRoundTrip(groupId: bv64, childId: bv64)
    requires childId < 0x1_0000_0000
    ensures (CombinedChildId(groupId, childId) >> HALF) & GROUP_MASK == groupId & GROUP_MASK
    ensures CombinedChildId(groupId, childId) & LOW_32 == childId
  {
    assert (childId >> HALF) & GROUP_MASK == 0;
    assert childId & LOW_32 == childId;
  }

  /** For child IDs in [0, 2^32), child combined IDs are equal exactly when
      the group IDs agree on their low 31 bits and the child IDs agree. */
  lemma ChildIdsInjective(g1: bv64, c1: bv64, g2: bv64, c2: bv64)
    requires c1 < 0x1_0000_0000 && c2 < 0x1_0000_0000
    ensures CombinedChildId(g1, c1) == CombinedChildId(g2, c2) <==>
      g1 & GROUP_MASK == g2 & GROUP_MASK && c1 == c2
  {
    if CombinedChildId(g1, c1) == CombinedChildId(g2, c2) {
      ChildIdRoundTrip(g1, c1);
      ChildIdRoundTrip(g2, c2);
    }
    if g1 & GROUP_MASK == g2 & GROUP_MASK && c1 == c2 {
      assert CombinedChildId(g1, c1) == CombinedChildId(g2, c2);
    }
  }

  /** The mask as written lets a child ID of 2^32 in group 0 collide with
      child 0 of group 1. */
  lemma ChildMaskCollision()
    ensures CombinedChildId(0, 0x1_0000_0000) == CombinedChildId(1, 0)
  {
    ChildMaskIsAllOnes();
  }

  /** getCombinedChildId with the `long` mask `0xFFFFFFFFL` the layout
      calls for: only the low 32 bits of the child ID are kept. */
  function CombinedChildIdMasked(groupId: bv64, childId: bv64): (r: bv64)
    ensures r & TYPE_BIT == TYPE_BIT
    ensures r & LOW_32 == childId & LOW_32
    ensures (r >> HALF) & GROUP_MASK == groupId & GROUP_MASK
  {
    TYPE_BIT | ((groupId & GROUP_MASK) << HALF) | (childId & LOW_32)
  }

  /** With the corrected mask, combined child IDs are equal exactly when the
      fields they keep are equal, for every child ID. */
  lemma MaskedChildIdsInjective(g1: bv64, c1: bv64, g2: bv64, c2: bv64)
    ensures CombinedChildIdMasked(g1, c1) == CombinedChildIdMasked(g2, c2) <==>
      g1 & GROUP_MASK == g2 & GROUP_MASK && c1 & LOW_32 == c2 & LOW_32
  {
    var r1, r2 := CombinedChildIdMasked(g1, c1), CombinedChildIdMasked(g2, c2);
    if g1 & GROUP_MASK == g2 & GROUP_MASK && c1 & LOW_32 == c2 & LOW_32 {
      assert r1 == r2;
    }
  }

  /** The two versions agree on every child ID in [0, 2^32). */
  lemma MaskedAgreesWhenBounded(groupId: bv64, childId: bv64)
    requires childId < 0x1_0000_0000
    ensures CombinedChildIdMasked(groupId, childId) == CombinedChildId(groupId, childId)
  {
    ChildMaskIsAllOnes();
    assert childId & LOW_32 == childId;
  }
}
