/**
 * The change comparator: `compareEvents` decides whether an existing Discord
 * event already matches the payload mapped from the calendar, so that no
 * write is needed.
 */
module Comparator {
  import opened Wrappers
  import opened EventTypes

  /** `entity_metadata?.location`: missing when there is no metadata or it has no location. */
  function MetadataLocation(m: Option<EntityMetadata>): (r: Option<string>)
    ensures r.Some? <==> m.Some? && m.value.location.Some?
    ensures r.Some? ==> r.value == m.value.location.value
  {
    if m.Some? then m.value.location else None
  }

  /** The eight values `compareEvents` looks at, in the form in which it compares them. */
  datatype Fingerprint = Fingerprint(
    name: string,
    description: string,
    channelId: Option<string>,
    privacyLevel: int,
    entityType: EntityType,
    location: Option<string>,
    end: Option<Instant>,
    start: Instant)

  function FingerprintOf(e: EventData): Fingerprint {
    Fingerprint(e.name, e.description, e.channelId, e.privacyLevel, e.entityType,
                MetadataLocation(e.entityMetadata), e.end, e.start)
  }

  /**
   * `compareEvents`: no field differs. Instants are compared as epoch
   * milliseconds and the location through the optional metadata.
   */
  function CompareEvents(e1: EventData, e2: EventData): (same: bool)
    ensures same <==> FingerprintOf(e1) == FingerprintOf(e2)
  {
    !(e1.name != e2.name
      || e1.description != e2.description
      || e1.channelId != e2.channelId
      || e1.privacyLevel != e2.privacyLevel
      || e1.entityType != e2.entityType
      || MetadataLocation(e1.entityMetadata) != MetadataLocation(e2.entityMetadata)
      || e1.end != e2.end
      || e1.start != e2.start)
  }

  /** `compareEvents` is an equivalence: reflexive, symmetric and transitive. */
  lemma CompareIsEquivalence(e1: EventData, e2: EventData, e3: EventData)
    ensures CompareEvents(e1, e1)
    ensures CompareEvents(e1, e2) == CompareEvents(e2, e1)
    ensures CompareEvents(e1, e2) && CompareEvents(e2, e3) ==> CompareEvents(e1, e3)
  {
  }

  /**
   * No metadata and metadata without a location compare equal; a missing
   * location and a present one (even an empty one) do not.
   */
  lemma MissingLocations(e: EventData, location: string)
    ensures CompareEvents(e.(entityMetadata := None), e.(entityMetadata := Some(EntityMetadata(None))))
    ensures !CompareEvents(e.(entityMetadata := None), e.(entityMetadata := Some(EntityMetadata(Some(location)))))
  {
  }

  /** Metadata that is either absent or carries a location, as every mapped payload's does. */
  predicate PlainMetadata(e: EventData) {
    e.entityMetadata.None? || e.entityMetadata.value.location.Some?
  }

  /** Between events with plain metadata, `compareEvents` is exactly equality. */
  lemma CompareIsEquality(e1: EventData, e2: EventData)
    requires PlainMetadata(e1) && PlainMetadata(e2)
    ensures CompareEvents(e1, e2) <==> e1 == e2
  {
  }

}
