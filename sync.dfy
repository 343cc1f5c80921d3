/**
 * The reconciliation pass as the two programs run it: a sink object standing
 * for Discord's scheduled-event endpoints, the loops that write to it, and the
 * two entry points, mod.ts's `syncEvents` and the Node service's
 * `EventSync.sync`. Fetching is done by the caller: the fetched lists are
 * parameters.
 */
module Sync {
  import opened Wrappers
  import opened EventTypes
  import opened ChannelResolver
  import opened Mapper
  import opened Comparator
  import opened Reconciler

  /**
   * Discord's event endpoints and the pacing timer, as one pass sees them.
   * Every call is recorded in `trace`; the reply to the n-th write is
   * `answer(n)`, a failing write standing for the exception the HTTP client
   * throws.
   */
  class DiscordSink {
    const answer: nat -> Reply
    var writes: nat
    ghost var trace: seq<Op>

    constructor (answer: nat -> Reply)
      ensures this.answer == answer && writes == 0 && trace == []
    {
      this.answer := answer;
      writes := 0;
      trace := [];
    }

    /** `createEvent`: the reply carries the id of the new event. */
    method CreateEvent(data: EventData) returns (reply: Reply)
      modifies this
      ensures reply == answer(old(writes))
      ensures writes == old(writes) + 1 && trace == old(trace) + [Create(data)]
    {
      reply := answer(writes);
      writes := writes + 1;
      trace := trace + [Create(data)];
    }

    /** `patchEvent`: the reply carries the id of the updated event. */
    method PatchEvent(id: string, data: EventData) returns (reply: Reply)
      modifies this
      ensures reply == answer(old(writes))
      ensures writes == old(writes) + 1 && trace == old(trace) + [Patch(id, data)]
    {
      reply := answer(writes);
      writes := writes + 1;
      trace := trace + [Patch(id, data)];
    }

    /** `deleteEvent`. */
    method DeleteEvent(id: string) returns (reply: Reply)
      modifies this
      ensures reply == answer(old(writes))
      ensures writes == old(writes) + 1 && trace == old(trace) + [Delete(id)]
    {
      reply := answer(writes);
      writes := writes + 1;
      trace := trace + [Delete(id)];
    }

    /** `discordApiTimeout`: the fixed delay between writes. */
    method Pause()
      modifies this
      ensures writes == old(writes) && trace == old(trace) + [Wait]
    {
      trace := trace + [Wait];
    }
  }

  /** The processed record holds exactly the ids of `processed`, each set to true. */
  predicate Records(discordEventsProcessed: map<string, bool>, processed: set<string>) {
    discordEventsProcessed.Keys == processed && forall id :: id in discordEventsProcessed ==> discordEventsProcessed[id]
  }

  /**
   * The `try` block of a pass: create, patch or keep each mapped calendar event,
   * then delete every owned event not marked processed. A failing write ends
   * the block; the error is swallowed.
   */
  method ApplyChanges(sink: DiscordSink, converted: seq<Converted>, discordEvents: seq<DiscordEvent>)
    modifies sink
    ensures var done := Run(converted, discordEvents, sink.answer, old(sink.writes));
            sink.trace == old(sink.trace) + done.trace && sink.writes == done.writes
  {
    ghost var before := sink.trace;
    ghost var applied := ApplyAll(converted, discordEvents, sink.answer, Start(sink.writes));
    var discordEventsProcessed, ok := ApplyCalendar(sink, converted, discordEvents);
    if !ok {
      DeleteAllAfterFailure(discordEvents, sink.answer, applied);
      return;
    }
    DeleteUnprocessed(sink, discordEvents, discordEventsProcessed, before, applied);
  }

  /**
   * The calendar loop of the `try` block: the processed record it fills in,
   * and whether every write succeeded.
   */
  method ApplyCalendar(sink: DiscordSink, converted: seq<Converted>, discordEvents: seq<DiscordEvent>)
    returns (discordEventsProcessed: map<string, bool>, ok: bool)
    modifies sink
    ensures var applied := ApplyAll(converted, discordEvents, sink.answer, Start(old(sink.writes)));
            ok == !applied.failed && sink.trace == old(sink.trace) + applied.trace && sink.writes == applied.writes
            && (ok ==> Records(discordEventsProcessed, applied.processed))
  {
    ghost var before := sink.trace;
    ghost var start := Start(sink.writes);
    ghost var st := start;
    discordEventsProcessed := map[];
    for i := 0 to |converted|
      invariant st == ApplyAll(converted[..i], discordEvents, sink.answer, start)
      invariant !st.failed && sink.trace == before + st.trace && sink.writes == st.writes
      invariant Records(discordEventsProcessed, st.processed)
    {
      assert converted[..i + 1][..i] == converted[..i];
      discordEventsProcessed, ok := ApplyEvent(sink, converted[i], discordEvents, discordEventsProcessed, before, st);
      st := ApplyOne(st, converted[i], discordEvents, sink.answer);
      if !ok {
        ApplyAllStopped(converted, discordEvents, sink.answer, start, i + 1);
        return;
      }
    }
    assert converted[..|converted|] == converted;
    ok := true;
  }

  /**
   * One iteration of the calendar loop: keep, patch or create the mapped
   * event, mark the kept or returned id processed, and pause after a write.
   */
  method ApplyEvent(
    sink: DiscordSink, item: Converted, discordEvents: seq<DiscordEvent>, discordEventsProcessed: map<string, bool>,
    ghost before: seq<Op>, ghost st: PassState)
    returns (processed: map<string, bool>, ok: bool)
    requires !st.failed && sink.trace == before + st.trace && sink.writes == st.writes
    requires Records(discordEventsProcessed, st.processed)
    modifies sink
    ensures var next := ApplyOne(st, item, discordEvents, sink.answer);
            ok == !next.failed && sink.trace == before + next.trace && sink.writes == next.writes
            && (ok ==> Records(processed, next.processed))
  {
    processed, ok := discordEventsProcessed, true;
    var Converted(calEvent, discordEvent) := item;
    if discordEvent.None? {
      return;
    }
    var existing := FindExisting(discordEvents, calEvent.htmlLink);
    var response;
    if existing.Some? {
      var existingDiscordEvent := discordEvents[existing.value];
      if CompareEvents(discordEvent.value, existingDiscordEvent.data) {
        processed := processed[existingDiscordEvent.id := true];
        return;
      }
      response := sink.PatchEvent(existingDiscordEvent.id, discordEvent.value);
    } else {
      response := sink.CreateEvent(discordEvent.value);
    }
    if response.Err? {
      return processed, false;
    }
    processed := processed[response.id := true];
    sink.Pause();
  }

  /** The deletion loop of the `try` block, after a calendar loop in which no write failed. */
  method DeleteUnprocessed(
    sink: DiscordSink, discordEvents: seq<DiscordEvent>, discordEventsProcessed: map<string, bool>,
    ghost before: seq<Op>, ghost applied: PassState)
    requires !applied.failed && Records(discordEventsProcessed, applied.processed)
    requires sink.trace == before + applied.trace && sink.writes == applied.writes
    modifies sink
    ensures var run := DeleteAll(discordEvents, sink.answer, applied);
            sink.trace == before + run.trace && sink.writes == run.writes
  {
    ghost var st := applied;
    for i := 0 to |discordEvents|
      invariant st == DeleteAll(discordEvents[..i], sink.answer, applied)
      invariant !st.failed && sink.trace == before + st.trace && sink.writes == st.writes
      invariant st.processed == applied.processed
    {
      assert discordEvents[..i + 1][..i] == discordEvents[..i];
      var ok := DeleteIfUnprocessed(sink, discordEvents[i], discordEventsProcessed, before, st);
      st := DeleteOne(st, discordEvents[i], sink.answer);
      if !ok {
        DeleteAllStopped(discordEvents, sink.answer, applied, i + 1);
        return;
      }
    }
    assert discordEvents[..|discordEvents|] == discordEvents;
  }

  /** One iteration of the deletion loop: an owned event not marked processed is deleted, then a pause. */
  method DeleteIfUnprocessed(
    sink: DiscordSink, event: DiscordEvent, discordEventsProcessed: map<string, bool>,
    ghost before: seq<Op>, ghost st: PassState)
    returns (ok: bool)
    requires !st.failed && sink.trace == before + st.trace && sink.writes == st.writes
    requires Records(discordEventsProcessed, st.processed)
    modifies sink
    ensures var next := DeleteOne(st, event, sink.answer);
            ok == !next.failed && sink.trace == before + next.trace && sink.writes == next.writes
            && next.processed == st.processed
  {
    ok := true;
    if event.id in discordEventsProcessed && discordEventsProcessed[event.id] {
      return;
    }
    var response := sink.DeleteEvent(event.id);
    if response.Err? {
      return false;
    }
    sink.Pause();
  }

  /**
   * mod.ts `syncEvents`: keep the voice and stage channels and the bot's own
   * events, stop if the calendar returned no events, map every calendar event
   * and apply the changes.
   */
  method SyncEvents(
    sink: DiscordSink, applicationId: string, parseDate: string -> Instant,
    channels: seq<Channel>, calendar: Option<seq<CalendarEvent>>, events: seq<DiscordEvent>)
    modifies sink
    ensures var pass := Pass(applicationId, Shrug, parseDate, channels, calendar, events, sink.answer, old(sink.writes));
            sink.trace == old(sink.trace) + pass.trace && sink.writes == pass.writes
  {
    var discordChannels := EligibleChannels(channels);
    var discordEvents := OwnedEvents(events, applicationId);
    if calendar.Some? {
      var gCalEvents := calendar.value;
      if |gCalEvents| == 0 {
        return;
      }
      var converted := Convert(discordChannels, gCalEvents, Shrug, parseDate);
      ApplyChanges(sink, converted, discordEvents);
    }
  }

  /**
   * The Node service's `EventSync`: the same pass as a class that keeps the
   * eligible channels of its last pass in a field, and spells the placeholder
   * location mis-encoded.
   */
  class EventSync {
    const discordApplicationId: string
    const discordEventsClient: DiscordSink
    var discordChannels: seq<Channel>

    constructor (discordApplicationId: string, discordEventsClient: DiscordSink)
      ensures this.discordApplicationId == discordApplicationId
      ensures this.discordEventsClient == discordEventsClient && discordChannels == []
    {
      this.discordApplicationId := discordApplicationId;
      this.discordEventsClient := discordEventsClient;
      discordChannels := [];
    }

    /** `sync`: one pass; the eligible channels are stored before anything else. */
    method Sync(
      parseDate: string -> Instant, channels: seq<Channel>, calendar: Option<seq<CalendarEvent>>,
      events: seq<DiscordEvent>)
      modifies this, discordEventsClient
      ensures discordChannels == EligibleChannels(channels)
      ensures var pass := Pass(discordApplicationId, MisencodedShrug, parseDate, channels, calendar, events,
                               discordEventsClient.answer, old(discordEventsClient.writes));
              discordEventsClient.trace == old(discordEventsClient.trace) + pass.trace
              && discordEventsClient.writes == pass.writes
    {
      discordChannels := EligibleChannels(channels);
      var discordEvents := OwnedEvents(events, discordApplicationId);
      if calendar.Some? {
        var gCalEvents := calendar.value;
        if |gCalEvents| == 0 {
          return;
        }
        var converted := Convert(discordChannels, gCalEvents, MisencodedShrug, parseDate);
        ApplyChanges(discordEventsClient, converted, discordEvents);
      }
    }
  }

}
