/**
 * The records the reconciliation engine exchanges with Google Calendar and
 * Discord, as declared in interfaces.ts and the two Discord client files.
 * Instants are epoch milliseconds; fields the engine never reads (guild id,
 * status, creator, user count, time zone) are omitted.
 */
module EventTypes {
  import opened Wrappers

  /** Epoch milliseconds, what `new Date(s).getTime()` yields. */
  type Instant = int

  /** Discord's EventEntityType: stage instance, voice or external. */
  datatype EntityType = StageInstance | Voice | External

  /** EventPrivacyLevel.GUILD_ONLY, the only privacy level the engine uses. */
  const GuildOnly: int := 2

  /** ChannelType.GUILD_VOICE and ChannelType.GUILD_STAGE_VOICE. */
  const GuildVoice: int := 2
  const GuildStageVoice: int := 13

  /** A calendar start or end: an all-day `date` and/or a timed `dateTime`. */
  datatype EventDateTime = EventDateTime(date: Option<string>, dateTime: Option<string>)

  /** A Google Calendar event; every field may be missing. */
  datatype CalendarEvent = CalendarEvent(
    id: Option<string>,
    summary: Option<string>,
    start: Option<EventDateTime>,
    end: Option<EventDateTime>,
    htmlLink: Option<string>,
    location: Option<string>,
    description: Option<string>)

  /** A guild channel; `kind` is Discord's raw channel type number. */
  datatype Channel = Channel(id: string, kind: int, name: string)

  /** `entity_metadata`: an object whose `location` may be missing. */
  datatype EntityMetadata = EntityMetadata(location: Option<string>)

  /**
   * The fields of a scheduled event that the engine writes and compares: the
   * create/patch payload, and the same part of an event Discord returns.
   */
  datatype EventData = EventData(
    name: string,
    description: string,
    privacyLevel: int,
    start: Instant,
    end: Option<Instant>,
    entityType: EntityType,
    channelId: Option<string>,
    entityMetadata: Option<EntityMetadata>)

  /** A scheduled event as Discord lists it. */
  datatype DiscordEvent = DiscordEvent(id: string, creatorId: string, data: EventData)

}
