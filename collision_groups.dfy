/** A model of the collision groups of the Rapier physics engine: a body's
    memberships and filters are 32-bit masks (`Group::from_bits_truncate` keeps all
    32 bits, so it is the identity here), and two bodies interact only when each
    one's memberships meet the other one's filters. */
module RapierGroups {

  type Group = bv32

  datatype CollisionGroups = CollisionGroups(memberships: Group, filters: Group)

  /** Rapier's two-way test (`InteractionGroups::test`). */
  predicate Interacts(a: CollisionGroups, b: CollisionGroups) {
    a.memberships & b.filters != 0 && b.memberships & a.filters != 0
  }
}
