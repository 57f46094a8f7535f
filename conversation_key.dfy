/** The directional key of a conversation: equality on all five fields, with
    null-safe string comparison, and the matching Objects.hash. */
module ConversationKeys {
  import opened JavaLang

  /** A field that may hold null. */
  type NullableString = Option<string>

  datatype ConversationKey = ConversationKey(
    srcIP: NullableString, srcPort: int, dstIP: NullableString, dstPort: int, proto: NullableString)

  /** What equals may be handed: another key, or an object of any other class. */
  datatype JavaObject = KeyObject(key: ConversationKey) | OtherObject

  /** Objects.equals on two nullable strings. */
  predicate ObjectsEquals(a: NullableString, b: NullableString) {
    match (a, b)
    case (None, None) => true
    case (Some(x), Some(y)) => x == y
    case _ => false
  }

  /** equals: any other class is unequal; a key is equal when every field is. */
  predicate Equals(k: ConversationKey, o: JavaObject) {
    match o
    case OtherObject => false
    case KeyObject(other) =>
      k.srcPort == other.srcPort && k.dstPort == other.dstPort
      && ObjectsEquals(k.srcIP, other.srcIP) && ObjectsEquals(k.dstIP, other.dstIP)
      && ObjectsEquals(k.proto, other.proto)
  }

  /** Objects.hashCode: 0 for null, String.hashCode otherwise. */
  function NullableHash(s: NullableString): (r: int)
    ensures -TwoTo31 <= r < TwoTo31
  {
    match s
    case None => 0
    case Some(x) => StringHash(x)
  }

  /** Arrays.hashCode: start at 1, then 31 * h + element hash, in int arithmetic. */
  function ArraysHash(hs: seq<int>): (r: int)
    ensures -TwoTo31 <= r < TwoTo31
  {
    if hs == [] then 1 else Wrap32(31 * ArraysHash(hs[..|hs| - 1]) + hs[|hs| - 1])
  }

  /** The ports are Integer objects, whose hash is their value (they are int). */
  function HashCode(k: ConversationKey): (r: int)
    requires -TwoTo31 <= k.srcPort < TwoTo31 && -TwoTo31 <= k.dstPort < TwoTo31
    ensures -TwoTo31 <= r < TwoTo31
  {
    ArraysHash([NullableHash(k.srcIP), k.srcPort, NullableHash(k.dstIP), k.dstPort, NullableHash(k.proto)])
  }

  /** The key with its endpoints swapped. */
  function Reversed(k: ConversationKey): ConversationKey {
    ConversationKey(k.dstIP, k.dstPort, k.srcIP, k.srcPort, k.proto)
  }

  /** Null-safe string equality is equality of the nullable values. */
  lemma ObjectsEqualsIsEquality(a: NullableString, b: NullableString)
    ensures ObjectsEquals(a, b) <==> a == b
  {
  }

  /** Two keys are equal exactly when all five fields are. */
  lemma EqualsIffSameFields(k: ConversationKey, other: ConversationKey)
    ensures Equals(k, KeyObject(other)) <==> k == other
  {
    ObjectsEqualsIsEquality(k.srcIP, other.srcIP);
    ObjectsEqualsIsEquality(k.dstIP, other.dstIP);
    ObjectsEqualsIsEquality(k.proto, other.proto);
  }

  /** equals is reflexive and never holds for another class. */
  lemma EqualsReflexive(k: ConversationKey)
    ensures Equals(k, KeyObject(k))
    ensures !Equals(k, OtherObject)
  {
    EqualsIffSameFields(k, k);
  }

  /** equals is symmetric and transitive. */
  lemma EqualsIsEquivalence(a: ConversationKey, b: ConversationKey, c: ConversationKey)
    ensures Equals(a, KeyObject(b)) ==> Equals(b, KeyObject(a))
    ensures Equals(a, KeyObject(b)) && Equals(b, KeyObject(c)) ==> Equals(a, KeyObject(c))
  {
    EqualsIffSameFields(a, b);
    EqualsIffSameFields(b, a);
    EqualsIffSameFields(b, c);
    EqualsIffSameFields(a, c);
  }

  /** Equal keys have equal hash codes. */
  lemma HashConsistentWithEquals(k: ConversationKey, other: ConversationKey)
    requires -TwoTo31 <= k.srcPort < TwoTo31 && -TwoTo31 <= k.dstPort < TwoTo31
    requires -TwoTo31 <= other.srcPort < TwoTo31 && -TwoTo31 <= other.dstPort < TwoTo31
    requires Equals(k, KeyObject(other))
    ensures HashCode(k) == HashCode(other)
  {
    EqualsIffSameFields(k, other);
  }

  /** The key is directional: the reversed key is equal only when both
      addresses and both ports coincide. */
  lemma ReversedEqualIffSymmetric(k: ConversationKey)
    ensures Equals(k, KeyObject(Reversed(k))) <==> k.srcIP == k.dstIP && k.srcPort == k.dstPort
  {
    EqualsIffSameFields(k, Reversed(k));
  }
}
