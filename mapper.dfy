/**
 * The event mapper: one Google Calendar event becomes the payload of a Discord
 * scheduled event, or `None` when the event must be skipped. It reads the
 * channel list only from its parameter and writes nothing.
 *
 * `parseDate` stands for JavaScript's `new Date(s)`; instants are kept as
 * epoch milliseconds, which is what `toISOString` preserves and `getTime`
 * recovers.
 */
module Mapper {
  import opened Wrappers
  import opened Text
  import opened EventTypes
  import opened ChannelResolver

  const DiscordPrefix: string := "Discord"
  const VoicePrefix: string := "Discord Voice:"
  const StagePrefix: string := "Discord Stage:"

  /** The line that carries the correlation key, the calendar permalink. */
  const LinkLabel: string := "Calendar event link: "

  /** Location of an event that has none: the shrug emoji U+1F937. */
  const Shrug: string := "\U{1F937}"

  /** The same emoji as the Node service spells it: its UTF-8 bytes read as Windows-1252. */
  const MisencodedShrug: string := "\U{F0}\U{178}\U{A4}\U{B7}"

  /** JavaScript truthiness of an optional string: present and not empty. */
  predicate Truthy(s: Option<string>) {
    s.Some? && s.value != []
  }

  predicate BothDates(start: EventDateTime, end: EventDateTime) {
    Truthy(start.date) && Truthy(end.date)
  }

  predicate BothDateTimes(start: EventDateTime, end: EventDateTime) {
    Truthy(start.dateTime) && Truthy(end.dateTime)
  }

  /**
   * `parseDates`: start and end must have the same granularity; when both
   * granularities are present the timed one is used.
   */
  function ParseDates(start: EventDateTime, end: EventDateTime, parseDate: string -> Instant)
    : (r: Option<(Instant, Instant)>)
    ensures r.Some? <==> BothDates(start, end) || BothDateTimes(start, end)
    ensures BothDateTimes(start, end)
            ==> r == Some((parseDate(start.dateTime.value), parseDate(end.dateTime.value)))
    ensures BothDates(start, end) && !BothDateTimes(start, end)
            ==> r == Some((parseDate(start.date.value), parseDate(end.date.value)))
  {
    var fromDates :=
      if BothDates(start, end) then Some((parseDate(start.date.value), parseDate(end.date.value)))
      else None;
    if BothDateTimes(start, end) then Some((parseDate(start.dateTime.value), parseDate(end.dateTime.value)))
    else fromDates
  }

  /** Where an event takes place: its entity type and the location text or channel query. */
  datatype Location = Location(kind: EntityType, text: string)

  /**
   * `parseEventLocation`: case-sensitive prefix tests. A location that does not
   * start with "Discord" is an external location; "Discord Voice:" and
   * "Discord Stage:" introduce a channel query; any other "Discord..." is
   * rejected.
   */
  function ParseEventLocation(location: string): (r: Option<Location>)
    ensures r.None? <==> StartsWith(location, DiscordPrefix)
                         && !StartsWith(location, VoicePrefix) && !StartsWith(location, StagePrefix)
    ensures r.Some? ==> Trimmed(r.value.text)
    ensures r.Some? && r.value.kind == External ==> r.value.text == Trim(location)
    ensures r.Some? ==> (r.value.kind == External <==> !StartsWith(location, DiscordPrefix))
    ensures r.Some? && r.value.kind == Voice
            ==> StartsWith(location, VoicePrefix) && r.value.text == Trim(SecondPiece(location, VoicePrefix))
    ensures r.Some? && r.value.kind == StageInstance
            ==> StartsWith(location, StagePrefix) && r.value.text == Trim(SecondPiece(location, StagePrefix))
  {
    if !StartsWith(location, DiscordPrefix) then Some(Location(External, Trim(location)))
    else if StartsWith(location, VoicePrefix) then Some(Location(Voice, Trim(SecondPiece(location, VoicePrefix))))
    else if StartsWith(location, StagePrefix) then Some(Location(StageInstance, Trim(SecondPiece(location, StagePrefix))))
    else None
  }

  /** A permalink whose last character is not whitespace, so trimming never reaches it. */
  predicate SolidLink(link: string) {
    link != [] && !IsWhitespace(link[|link| - 1])
  }

  /**
   * The Discord description: the calendar description (empty when missing),
   * a newline and the link line, trimmed: a slice of that text with only
   * whitespace cut off around it and no whitespace at its ends (which, by
   * `Text.CutIsTrim`, leaves only one candidate). With a solid permalink the
   * result ends with the link line; a trimmed calendar description is kept
   * verbatim on the lines before it, and a missing or blank one leaves the
   * link line alone.
   */
  function EventDescription(description: Option<string>, link: string): (r: string)
    ensures Trimmed(r)
    ensures WhitespaceCut((if description.Some? then description.value else "") + "\n" + LinkLabel + link, r)
    ensures SolidLink(link) ==> EndsWith(r, LinkLabel + link)
    ensures SolidLink(link) && description.Some? && description.value != [] && Trimmed(description.value)
            ==> r == description.value + "\n" + LinkLabel + link
    ensures SolidLink(link) && (description.None? || AllWhitespace(description.value))
            ==> r == LinkLabel + link
  {
    var text := if description.Some? then description.value else "";
    if SolidLink(link) then
      LinkLine(text, link);
      Trim(text + "\n" + LinkLabel + link)
    else
      Trim(text + "\n" + LinkLabel + link)
  }

  /**
   * Trimming the calendar text followed by the link line keeps the link line
   * at the end, keeps a trimmed non-empty text in front of it, and drops a
   * blank text together with its newline.
   */
  lemma LinkLine(text: string, link: string)
    requires SolidLink(link)
    ensures EndsWith(Trim(text + "\n" + LinkLabel + link), LinkLabel + link)
    ensures text != [] && Trimmed(text) ==> Trim(text + "\n" + LinkLabel + link) == text + "\n" + LinkLabel + link
    ensures AllWhitespace(text) ==> Trim(text + "\n" + LinkLabel + link) == LinkLabel + link
  {
    LinkSurvivesTrim(text + "\n" + LinkLabel + link, link);
    if text != [] && Trimmed(text) {
      TrimmedText(text, link);
    }
    if AllWhitespace(text) {
      BlankText(text, link);
    }
  }

  /** A trimmed, non-empty text followed by the link line is already trimmed. */
  lemma TrimmedText(text: string, link: string)
    requires SolidLink(link) && text != [] && Trimmed(text)
    ensures Trimmed(text + "\n" + LinkLabel + link)
  {
    var full := text + "\n" + LinkLabel + link;
    assert full[0] == text[0];
    assert full[|full| - 1] == link[|link| - 1];
  }

  /** A blank text and its newline are cut off in front of the link line. */
  lemma BlankText(text: string, link: string)
    requires SolidLink(link) && AllWhitespace(text)
    ensures Trim(text + "\n" + LinkLabel + link) == LinkLabel + link
  {
    var line := LinkLabel + link;
    assert line[0] == 'C' && line[|line| - 1] == link[|link| - 1];
    var blank := text + "\n";
    assert AllWhitespace(blank) by {
      assert forall k :: 0 <= k < |text| ==> blank[k] == text[k];
      assert blank[|text|] == '\n';
    }
    assert text + "\n" + LinkLabel + link == blank + line;
    TrimAfterWhitespace(blank, line);
  }

  /** The link line ends the description: trimming cannot reach into it. */
  lemma LinkSurvivesTrim(full: string, link: string)
    requires EndsWith(full, LinkLabel + link) && SolidLink(link)
    ensures EndsWith(Trim(full), LinkLabel + link)
  {
    var tail := LinkLabel + link;
    assert tail[0] == 'C' && tail[|tail| - 1] == link[|link| - 1];
    CutKeepsTail(full, Trim(full), tail);
  }

  /** The calendar fields without which an event is never synced. */
  predicate HasRequiredFields(calEvent: CalendarEvent) {
    Truthy(calEvent.id) && Truthy(calEvent.summary) && calEvent.start.Some? && calEvent.end.Some?
    && Truthy(calEvent.htmlLink)
  }

  /** The location of a calendar event: parsed when present, the placeholder otherwise. */
  function EventLocation(location: Option<string>, placeholder: string): (r: Option<Location>)
    ensures Truthy(location) ==> r == ParseEventLocation(location.value)
    ensures !Truthy(location) ==> r == Some(Location(External, placeholder))
  {
    if Truthy(location) then ParseEventLocation(location.value) else Some(Location(External, placeholder))
  }

  /** Where the event goes on Discord: `channel_id` and `entity_metadata`. */
  datatype Placement = Placement(channelId: Option<string>, entityMetadata: Option<EntityMetadata>)

  /**
   * The `switch` on the entity type: an external event carries its location
   * in the metadata; a voice or stage event needs the id of the first channel
   * whose name contains the query, and is skipped when there is none or the
   * id is empty.
   */
  function Place(channels: seq<Channel>, location: Location): (r: Option<Placement>)
    ensures location.kind == External
            ==> r == Some(Placement(None, Some(EntityMetadata(Some(location.text)))))
    ensures location.kind != External && r.Some?
            ==> var found := FindChannel(channels, location.text);
                found.Some? && channels[found.value].id != [] && r.value == Placement(Some(channels[found.value].id), None)
    ensures location.kind != External && r.None?
            ==> var found := FindChannel(channels, location.text);
                found.None? || channels[found.value].id == []
  {
    var found := FindChannel(channels, location.text);
    var channelIdFromLocation := if found.Some? then Some(channels[found.value].id) else None;
    match location.kind
    case External => Some(Placement(None, Some(EntityMetadata(Some(location.text)))))
    case Voice => if Truthy(channelIdFromLocation) then Some(Placement(channelIdFromLocation, None)) else None
    case StageInstance => if Truthy(channelIdFromLocation) then Some(Placement(channelIdFromLocation, None)) else None
  }

  /**
   * `calendarToDiscordEvent`: the payload for one calendar event, or `None`
   * (skip) when a required field is missing, the start and end granularities
   * differ, the location is rejected or empty, or no channel matches a channel
   * query.
   */
  function CalendarToDiscordEvent(
    channels: seq<Channel>, calEvent: CalendarEvent, placeholder: string, parseDate: string -> Instant)
    : (r: Option<EventData>)
    ensures !HasRequiredFields(calEvent) ==> r.None?
    ensures r.Some? ==> r.value.end.Some?
                        && ParseDates(calEvent.start.value, calEvent.end.value, parseDate)
                           == Some((r.value.start, r.value.end.value))
    ensures r.Some? ==> r.value.name == calEvent.summary.value && r.value.privacyLevel == GuildOnly
    ensures r.Some? ==> (r.value.channelId.Some? <==> r.value.entityMetadata.None?)
    ensures r.Some? ==> (r.value.entityType == External <==> r.value.entityMetadata.Some?)
    ensures r.Some? && r.value.channelId.Some?
            ==> r.value.channelId.value != [] && exists c :: c in channels && c.id == r.value.channelId.value
    ensures r.Some? ==> r.value.description == EventDescription(calEvent.description, calEvent.htmlLink.value)
    ensures r.Some? ==> Trimmed(r.value.description)
    ensures r.Some? && SolidLink(calEvent.htmlLink.value)
            ==> EndsWith(r.value.description, LinkLabel + calEvent.htmlLink.value)
    ensures r.Some? && SolidLink(calEvent.htmlLink.value) && Truthy(calEvent.description)
            && Trimmed(calEvent.description.value)
            ==> r.value.description == calEvent.description.value + "\n" + LinkLabel + calEvent.htmlLink.value
  {
    if !HasRequiredFields(calEvent) then None
    else
      var dates := ParseDates(calEvent.start.value, calEvent.end.value, parseDate);
      var location := EventLocation(calEvent.location, placeholder);
      if dates.None? || location.None? || location.value.text == [] then None
      else
        var placement := Place(channels, location.value);
        if placement.None? then None
        else
          Some(EventData(
            name := calEvent.summary.value,
            description := EventDescription(calEvent.description, calEvent.htmlLink.value),
            privacyLevel := GuildOnly,
            start := dates.value.0,
            end := Some(dates.value.1),
            entityType := location.value.kind,
            channelId := placement.value.channelId,
            entityMetadata := placement.value.entityMetadata))
  }

  /** An event that passes the field and granularity checks, so only its location decides. */
  predicate Admissible(calEvent: CalendarEvent, parseDate: string -> Instant) {
    HasRequiredFields(calEvent) && ParseDates(calEvent.start.value, calEvent.end.value, parseDate).Some?
  }

  /**
   * A location that does not start with "Discord" (compared case-sensitively)
   * becomes an external event at the trimmed location; one that is only
   * whitespace makes the event skipped.
   */
  lemma ExternalLocation(
    channels: seq<Channel>, calEvent: CalendarEvent, placeholder: string, parseDate: string -> Instant)
    requires Admissible(calEvent, parseDate)
    requires Truthy(calEvent.location) && !StartsWith(calEvent.location.value, DiscordPrefix)
    ensures var r := CalendarToDiscordEvent(channels, calEvent, placeholder, parseDate);
            (r.Some? <==> !AllWhitespace(calEvent.location.value))
            && (r.Some? ==> r.value.entityType == External && r.value.channelId == None
                            && r.value.entityMetadata == Some(EntityMetadata(Some(Trim(calEvent.location.value)))))
  {
  }

  /** "Discord Voice:" and "Discord Stage:" both start with "Discord" and exclude each other. */
  lemma ChannelPrefixes(s: string)
    ensures StartsWith(s, VoicePrefix) ==> StartsWith(s, DiscordPrefix) && !StartsWith(s, StagePrefix)
    ensures StartsWith(s, StagePrefix) ==> StartsWith(s, DiscordPrefix) && !StartsWith(s, VoicePrefix)
  {
    if StartsWith(s, VoicePrefix) {
      assert s[..|DiscordPrefix|] == s[..|VoicePrefix|][..|DiscordPrefix|];
      assert s[8] == s[..|VoicePrefix|][8] == 'V';
    }
    if StartsWith(s, StagePrefix) {
      assert s[..|DiscordPrefix|] == s[..|StagePrefix|][..|DiscordPrefix|];
      assert s[8] == s[..|StagePrefix|][8] == 'S';
    }
  }

  /**
   * "Discord Voice: q" and "Discord Stage: q" become a voice or stage event in
   * the channel of the first listed channel whose lower-cased name contains the
   * lower-cased trimmed query, with no metadata; an empty query, no matching
   * channel or a matching channel with an empty id makes the event skipped.
   */
  lemma ChannelLocation(
    channels: seq<Channel>, calEvent: CalendarEvent, placeholder: string, parseDate: string -> Instant,
    prefix: string)
    requires Admissible(calEvent, parseDate)
    requires prefix == VoicePrefix || prefix == StagePrefix
    requires Truthy(calEvent.location) && StartsWith(calEvent.location.value, prefix)
    ensures var r := CalendarToDiscordEvent(channels, calEvent, placeholder, parseDate);
            var query := Trim(SecondPiece(calEvent.location.value, prefix));
            var found := FindChannel(channels, query);
            (r.Some? <==> query != [] && found.Some? && channels[found.value].id != [])
            && (r.Some? ==> r.value.entityType == (if prefix == VoicePrefix then Voice else StageInstance)
                            && r.value.entityMetadata == None
                            && r.value.channelId == Some(channels[found.value].id))
  {
    var location := calEvent.location.value;
    ChannelPrefixes(location);
    var kind := if prefix == VoicePrefix then Voice else StageInstance;
    var query := Trim(SecondPiece(location, prefix));
    assert EventLocation(calEvent.location, placeholder) == Some(Location(kind, query));
    var r := CalendarToDiscordEvent(channels, calEvent, placeholder, parseDate);
    if query != [] {
      var placement := Place(channels, Location(kind, query));
      assert r.Some? <==> placement.Some?;
    }
  }

  /** Any other location starting with "Discord" makes the event skipped. */
  lemma UnknownDiscordLocation(
    channels: seq<Channel>, calEvent: CalendarEvent, placeholder: string, parseDate: string -> Instant)
    requires Truthy(calEvent.location) && StartsWith(calEvent.location.value, DiscordPrefix)
    requires !StartsWith(calEvent.location.value, VoicePrefix) && !StartsWith(calEvent.location.value, StagePrefix)
    ensures CalendarToDiscordEvent(channels, calEvent, placeholder, parseDate) == None
  {
  }

  /**
   * A missing or empty location gives an external event at the placeholder
   * location (the shrug emoji in both programs).
   */
  lemma MissingLocation(
    channels: seq<Channel>, calEvent: CalendarEvent, placeholder: string, parseDate: string -> Instant)
    requires Admissible(calEvent, parseDate)
    requires !Truthy(calEvent.location) && placeholder != []
    ensures var r := CalendarToDiscordEvent(channels, calEvent, placeholder, parseDate);
            r.Some? && r.value.entityType == External && r.value.channelId == None
            && r.value.entityMetadata == Some(EntityMetadata(Some(placeholder)))
  {
  }

  /** The text after the prefix in "Discord Stage: General" is " General". */
  lemma TownHallPiece()
    ensures StartsWith("Discord Stage: General", StagePrefix)
    ensures SecondPiece("Discord Stage: General", StagePrefix) == " General"
  {
    var location := "Discord Stage: General";
    assert location[..|StagePrefix|] == StagePrefix;
    assert location[|StagePrefix|..] == " General";
    assert IndexOf(" General", StagePrefix) == None;
  }

  /** The channel query of "Discord Stage: General" is "General". */
  lemma TownHallQuery()
    ensures StartsWith("Discord Stage: General", StagePrefix)
    ensures Trim(SecondPiece("Discord Stage: General", StagePrefix)) == "General"
  {
    TownHallPiece();
    var piece := " General";
    assert IsWhitespace(piece[0]) && !IsWhitespace(piece[1]) && !IsWhitespace(piece[7]);
    assert SkipLeading(piece, 0) == SkipLeading(piece, 1) == 1;
    assert SkipTrailing(piece, 1, 8) == 8;
    assert piece[1..8] == "General";
  }

  /** "general-stage" matches the query "General" case-insensitively. */
  lemma TownHallChannelMatches()
    ensures NameMatches(Channel("42", GuildStageVoice, "general-stage"), "General")
  {
    assert Lower("General") == "general";
    assert Lower("general-stage") == "general-stage";
    assert "general-stage"[..|"general"|] == "general";
  }

  /** A calendar event held in a stage channel, and the guild's one stage channel. */
  const TownHall: CalendarEvent := CalendarEvent(
    id := Some("c1"), summary := Some("Town Hall"),
    start := Some(EventDateTime(None, Some("2024-01-01T10:00:00Z"))),
    end := Some(EventDateTime(None, Some("2024-01-01T11:00:00Z"))),
    htmlLink := Some("https://cal/c1"), location := Some("Discord Stage: General"),
    description := None)
  const TownHallChannels: seq<Channel> := [Channel("42", GuildStageVoice, "general-stage")]

  /** The town hall event has every required field, one granularity, a stage location and a link ending in '1'. */
  lemma TownHallFields(parseDate: string -> Instant)
    ensures Admissible(TownHall, parseDate)
    ensures Truthy(TownHall.location) && StartsWith(TownHall.location.value, StagePrefix)
    ensures SolidLink(TownHall.htmlLink.value)
  {
    var link := TownHall.htmlLink.value;
    assert link[|link| - 1] == '1';
    TownHallPiece();
  }

  /**
   * "Discord Stage: General" resolves, case-insensitively, to the stage
   * channel "general-stage", and the description ends with the link line.
   */
  lemma TownHallScenario(parseDate: string -> Instant)
    ensures var r := CalendarToDiscordEvent(TownHallChannels, TownHall, Shrug, parseDate);
            r.Some? && r.value.entityType == StageInstance && r.value.channelId == Some("42")
            && r.value.entityMetadata == None
            && EndsWith(r.value.description, LinkLabel + TownHall.htmlLink.value)
  {
    TownHallFields(parseDate);
    TownHallQuery();
    TownHallChannelMatches();
    assert FindChannel(TownHallChannels, "General") == Some(0);
    ChannelLocation(TownHallChannels, TownHall, Shrug, parseDate, StagePrefix);
  }

}
