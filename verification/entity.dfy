/** `BaseEntity` and `Permission` as one immutable record, with the
    uuid-only identity that `equals` and `hashCode` define. */
module Entity {
  import opened Wrappers
  import opened Jvm

  /** A `java.util.UUID`: its most and least significant 64 bits. */
  datatype Uuid = Uuid(msb: bv64, lsb: bv64)

  /** The persisted permission record. Every field but `uuid` is nullable. */
  datatype Permission = Permission(
    id: Option<Long>,
    uuid: Uuid,
    createdDate: Option<Long>,
    modifiedDate: Option<Long>,
    createdBy: Option<string>,
    modifiedBy: Option<string>,
    version: Option<Long>,
    name: Option<string>,
    description: Option<string>)

  /** `Permission(uuid)`: the uuid the caller supplies (by default a random
      one) and every other field null. */
  function NewPermission(uuid: Uuid): Permission {
    Permission(None, uuid, None, None, None, None, None, None, None)
  }

  /** The argument of `equals(other: Any?)`: null, an entity, or any other object. */
  datatype Ref = NullRef | EntityRef(entity: Permission) | OtherRef

  /** `BaseEntity.equals`: the other object is an entity with the same uuid. */
  predicate Equals(self: Permission, other: Ref) {
    other.EntityRef? && self.uuid == other.entity.uuid
  }

  /** `UUID.hashCode()`: the two halves xor-ed, folded to a 32-bit int. */
  function UuidHashCode(u: Uuid): bv32 {
    var hilo := u.msb ^ u.lsb;
    ((((hilo >> 32) ^ hilo) as int) % 0x1_0000_0000) as bv32
  }

  /** `BaseEntity.hashCode`: the hash of the uuid alone. */
  function HashCode(e: Permission): bv32 {
    UuidHashCode(e.uuid)
  }

  /** Two entities are equal exactly when their uuids are; nothing else is compared,
      and no entity equals null or a non-entity. */
  lemma EqualsIsUuidEquality(a: Permission, b: Permission)
    ensures Equals(a, EntityRef(b)) <==> a.uuid == b.uuid
    ensures !Equals(a, NullRef) && !Equals(a, OtherRef)
  {
  }

  /** `equals` is an equivalence relation on entities. */
  lemma EqualsIsEquivalence(a: Permission, b: Permission, c: Permission)
    ensures Equals(a, EntityRef(a))
    ensures Equals(a, EntityRef(b)) <==> Equals(b, EntityRef(a))
    ensures Equals(a, EntityRef(b)) && Equals(b, EntityRef(c)) ==> Equals(a, EntityRef(c))
  {
  }

  /** `hashCode` agrees with `equals`: equal entities hash alike. */
  lemma HashCodeConsistentWithEquals(a: Permission, b: Permission)
    ensures Equals(a, EntityRef(b)) ==> HashCode(a) == HashCode(b)
  {
  }

  /** Two permissions with one uuid are equal whatever their other fields hold. */
  lemma SameUuidMeansEqual(a: Permission, b: Permission)
    requires a.uuid == b.uuid
    requires a.name != b.name || a.description != b.description || a.id != b.id || a.version != b.version
    ensures Equals(a, EntityRef(b))
    ensures a != b
  {
  }
}
