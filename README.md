# calsync reconciliation core, modelled in Dafny

calsync mirrors a Google Calendar into a Discord guild's scheduled events. One
sync pass does the following:

- fetches the guild's channels and keeps the voice and stage channels;
- fetches the calendar events of the coming days: a week in `mod.ts`, 30 days in the Node service (`src/index.ts`);
- fetches the guild's scheduled events and keeps those the bot created;
- maps every calendar event to a Discord event payload, skipping the ones it cannot map.

Each mapped event is matched to an owned Discord event whose description ends with the calendar permalink. The pass then:

- keeps the matched event when it already equals the payload;
- patches it when it differs;
- creates a new event when nothing matches;
- deletes every owned event that was neither kept nor written.

Every write that returns is followed by a one-second pause. The first write whose client call throws ends the pass at once, with no pause, and its error is swallowed.

The repository implements this pass twice:

- the Deno script `mod.ts`, with `syncEvents` and the top-level `calendarToDiscordEvent`;
- the Node service `src/eventsSync/EventSync.ts`, in the class `EventSync`.

The two passes are written the same way, except that:

- the Node class stores the filtered channel list in a field;
- the Node class spells the placeholder location (U+1F937) as its UTF-8 bytes read as Windows-1252;
- their Discord clients fail differently. The Node client (axios) throws on any error status. The client of `mod.ts` throws in three cases:
  - `fetch` itself rejects, for instance on a network failure (`discord.ts:38`);
  - a rate limit arrives without a reset header (`discord.ts:47-54`);
  - the body of a create or patch response is not JSON (`discord.ts:103`, `discord.ts:155`).

  For any other error status it hands the error body back, and the pass goes on (see "## Left out").

The project has these modules:

- `Text`: the JavaScript string operations the core relies on (`trim`, `startsWith`, `endsWith`, `includes`, `split(p)[1]`, `toLowerCase`).
- `EventTypes`: the records of `interfaces.ts` that the core reads.
- `ChannelResolver`: the voice/stage filter and the channel-name lookup.
- `Mapper`: `calendarToDiscordEvent`, including `parseDates` and `parseEventLocation`.
- `Comparator`: `compareEvents`.
- `Reconciler`: one pass as a function of what was fetched and of Discord's replies.
- `Sync`: the imperative pass. It has a `DiscordSink` class that stands for the Discord client and the pacing timer, the two loops, `syncEvents`, and the class `EventSync`. It is proved to issue exactly the operations `Reconciler` computes.
- `PassProperties`: what a pass promises.

The central result is `PassIssuesPlan`. A pass issues a plan of writes:

- first the creates and patches the calendar calls for, in calendar order, which are fixed by what the pass fetched;
- then one delete for every owned event left unprocessed, in fetch order.

Which owned events are left unprocessed depends on Discord's replies as well, because the id a create or patch returns is marked processed: a patched event is spared only because the patch reply carries its id. The replies also decide how much of the plan is issued: all of it, or up to and including the first failing write.

The description built by the mapper ends with the line `Calendar event link: <permalink>`, and the matching step looks for that permalink as a suffix. The code tests the location prefixes `Discord`, `Discord Voice:` and `Discord Stage:` case-sensitively; only the channel-name lookup lower-cases.

## Model

| member | source | states |
|---|---|---|
| Text.Trim | mod.ts:54 | `trim` cuts only whitespace from the two ends, leaves no whitespace at either end, is empty exactly when the string is all whitespace, and leaves an already trimmed string unchanged |
| Text.TrimAfterWhitespace | mod.ts:115 | trimming whitespace followed by a trimmed, non-empty string gives exactly that string |
| Text.CutIsTrim | mod.ts:115 | a non-empty whitespace cut with no whitespace at its ends is the trim, so `Trim` is the only result its contract allows |
| Text.CutKeepsTail | mod.ts:115 | trimming keeps a suffix whose first and last characters are not whitespace |
| Text.StartsWith | src/eventsSync/EventSync.ts:73-80 | `startsWith`: the string begins with the prefix |
| Text.EndsWith | src/eventsSync/EventSync.ts:212 | `endsWith`: the string finishes with the suffix |
| Text.IndexOf | mod.ts:92 | the first index at which the needle occurs, and no occurrence before it; `None` when there is none |
| Text.Contains | src/eventsSync/EventSync.ts:85 | `includes`: the needle occurs somewhere in the string, as `IndexOf` finds it |
| Text.SecondPiece | mod.ts:59 | `split(p)[1]` of a string starting with `p`: the text after the prefix up to the next occurrence of `p`, which it does not contain |
| Text.LowerChar | mod.ts:92 | ASCII capitals map to the matching lower-case letter; every other character is kept |
| Text.Lower | mod.ts:92 | lower-casing keeps the length and maps each character by `LowerChar` |
| ChannelResolver.IsEligible | src/eventsSync/EventSync.ts:147-149 | the filter callback: a voice (2) or stage (13) channel |
| ChannelResolver.NameMatches | src/eventsSync/EventSync.ts:85 | the `find` callback: the lower-cased channel name contains the lower-cased query |
| ChannelResolver.EligibleChannels | src/eventsSync/EventSync.ts:145-151 | a channel survives the filter exactly when it was fetched and is a voice (2) or stage (13) channel |
| ChannelResolver.FindChannel | src/eventsSync/EventSync.ts:84-86 | the first channel, in list order, whose lower-cased name contains the lower-cased query; none before it matches |
| ChannelResolver.FirstEligibleMatch | mod.ts:134-142 | reference search over the unfiltered list: the first channel that is both eligible and matching |
| ChannelResolver.LookupAfterFilter | mod.ts:92-93 | searching the filtered channels finds the same channel as the reference search over all channels |
| Comparator.MetadataLocation | src/eventsSync/EventSync.ts:179 | `entity_metadata?.location` is present exactly when the metadata and its location are |
| Comparator.CompareEvents | src/eventsSync/EventSync.ts:168-186 | two events compare equal exactly when name, description, channel, privacy level, entity type, location, end and start all agree |
| Comparator.CompareIsEquivalence | mod.ts:159-178 | `compareEvents` is reflexive, symmetric and transitive |
| Comparator.MissingLocations | mod.ts:172 | no metadata equals metadata without a location, but differs from any present location |
| Comparator.CompareIsEquality | mod.ts:166-177 | between events whose metadata is absent or has a location, `compareEvents` is equality |
| Mapper.ParseDates | src/eventsSync/EventSync.ts:59-71 | dates are produced exactly when both ends are all-day or both are timed; timed values win when both are present |
| Mapper.ParseEventLocation | src/eventsSync/EventSync.ts:72-83 | a location is rejected exactly when it starts with "Discord" but with neither channel prefix; otherwise it is external exactly when it does not start with "Discord"; an external location's text is the trimmed location, and a voice or stage location's text is the trimmed `split(prefix)[1]` |
| Mapper.Truthy | src/eventsSync/EventSync.ts:88 | JavaScript truthiness of an optional string: present and not empty |
| Mapper.EventLocation | src/eventsSync/EventSync.ts:95-97 | a present, non-empty location is parsed; otherwise the event is external at the placeholder |
| Mapper.Place | src/eventsSync/EventSync.ts:103-127 | an external event carries its location in the metadata; a voice or stage event gets the id of the first matching channel, and is skipped when no channel matches or the id is empty |
| Mapper.EventDescription | src/eventsSync/EventSync.ts:128 | the description is the calendar description (empty when missing), a newline and the link line, with only whitespace cut from the two ends and none left at either end; with a permalink that does not end in whitespace it ends with the link line, keeps a non-empty trimmed calendar description verbatim in front of it, and is the link line alone when the description is missing or blank |
| Mapper.LinkLine | mod.ts:115 | trimming the calendar text and link line keeps the link line at the end, keeps a trimmed text in front of it, and drops a blank text with its newline |
| Mapper.LinkSurvivesTrim | mod.ts:115 | trimming the description cannot cut into the link line |
| Mapper.HasRequiredFields | src/eventsSync/EventSync.ts:88-90 | the fields an event needs to be synced: a truthy id, summary and permalink, and present start and end |
| Mapper.CalendarToDiscordEvent | src/eventsSync/EventSync.ts:56-142 | an event missing a required field is skipped; a payload carries the summary, guild-only privacy and the parsed dates, has a channel exactly when it has no metadata and metadata exactly when it is external, has a channel id of an actual listed channel, and has the description `EventDescription` builds, which ends with the link line and keeps a trimmed calendar description verbatim in front of it |
| Mapper.ExternalLocation | mod.ts:53-54 | a location not starting with "Discord" gives an external event at the trimmed location, and a whitespace-only location gives a skip |
| Mapper.ChannelPrefixes | mod.ts:53-67 | both channel prefixes start with "Discord" and exclude each other |
| Mapper.ChannelLocation | mod.ts:92-114 | a channel location gives a voice or stage event in the first matching channel, and is skipped when the query is empty, nothing matches or the id is empty |
| Mapper.UnknownDiscordLocation | mod.ts:68 | any other location starting with "Discord" makes the event skipped |
| Mapper.MissingLocation | mod.ts:81-83 | a missing or empty location gives an external event at the placeholder |
| Mapper.TownHallPiece | mod.ts:62-66 | the text after the stage prefix in "Discord Stage: General" is " General" |
| Mapper.TownHallQuery | mod.ts:62-66 | the channel query of "Discord Stage: General" is "General" |
| Mapper.TownHallChannelMatches | mod.ts:92 | "general-stage" matches the query "General" case-insensitively |
| Mapper.TownHallScenario | mod.ts:30-129 | a stage-located calendar event maps to a stage event in the matching channel, with a description ending in its link line |
| Reconciler.OwnedEvents | src/eventsSync/EventSync.ts:193 | an event is owned exactly when it was fetched and its creator is the application, and any two owned events are listed in the order they were fetched |
| Reconciler.KeepsOrder | src/eventsSync/EventSync.ts:193 | events listed in their fetch order after the first fetched event stay in fetch order, also with that event put in front |
| Reconciler.Convert | src/eventsSync/EventSync.ts:200-203 | one entry per calendar event, in calendar order, and only an event with every required field gets a payload |
| Reconciler.FindExisting | src/eventsSync/EventSync.ts:211-213 | the first owned event whose description ends with the permalink; none when the permalink is missing |
| Reconciler.CorrelationRoundTrip | mod.ts:115 | an owned event that carries the mapped description of a calendar event with a permalink not ending in whitespace is found by the lookup for that permalink, at its position or an earlier one |
| Reconciler.SuffixFound | mod.ts:204-208 | an owned event whose description ends with the link line is found by the lookup for its permalink, at its position or an earlier one |
| Reconciler.Decide | src/eventsSync/EventSync.ts:214-233 | create exactly when nothing matches; otherwise the first match's id, kept exactly when it compares equal, and patched with the payload otherwise |
| Reconciler.Write | src/eventsSync/EventSync.ts:220-234 | a create or patch counts one write; it fails the pass exactly when Discord's reply is an error, and on success marks the returned id processed |
| Reconciler.ApplyOne | src/eventsSync/EventSync.ts:206-234 | after a failure, or for a skipped event, an iteration changes nothing; it makes at most one write |
| Reconciler.ApplyAll | src/eventsSync/EventSync.ts:206-235 | the calendar loop only extends the trace and the processed ids, never lowers the write count, and changes nothing once failed |
| Reconciler.DeleteOne | src/eventsSync/EventSync.ts:238-245 | a deletion iteration never changes the processed ids, skips a processed id or a failed pass, and makes at most one write |
| Reconciler.DeleteAll | src/eventsSync/EventSync.ts:237-246 | the deletion loop keeps the processed ids and only extends the trace |
| Reconciler.Run | src/eventsSync/EventSync.ts:204-253 | the processed ids of the `try` block are those of its calendar loop |
| Reconciler.Pass | src/eventsSync/EventSync.ts:195-199 | an empty or missing calendar ends the pass with nothing issued and nothing failed; no pass lowers the write count |
| Reconciler.ApplyAllStopped | src/eventsSync/EventSync.ts:248-253 | once a write of the calendar loop failed, the rest of the loop changes nothing |
| Reconciler.DeleteAllStopped | src/eventsSync/EventSync.ts:248-253 | once a delete failed, the rest of the deletion loop changes nothing |
| Reconciler.DeleteAllAfterFailure | src/eventsSync/EventSync.ts:204-253 | a failure in the calendar loop skips the deletion loop |
| Sync.DiscordSink.CreateEvent | src/eventsSync/EventSync.ts:228-230 | records the create, counts the write, and returns Discord's reply to it |
| Sync.DiscordSink.PatchEvent | src/eventsSync/EventSync.ts:220-223 | records the patch, counts the write, and returns Discord's reply to it |
| Sync.DiscordSink.DeleteEvent | src/eventsSync/EventSync.ts:242 | records the delete, counts the write, and returns Discord's reply to it |
| Sync.DiscordSink.Pause | src/eventsSync/EventSync.ts:164-166 | records one pacing delay and writes nothing |
| Sync.ApplyEvent | src/eventsSync/EventSync.ts:206-234 | one calendar iteration makes exactly the calls `ApplyOne` computes and keeps the processed record in step |
| Sync.ApplyCalendar | src/eventsSync/EventSync.ts:205-235 | the calendar loop makes exactly the calls of `ApplyAll`, reports whether every write succeeded, and fills the processed record with exactly the processed ids |
| Sync.DeleteIfUnprocessed | src/eventsSync/EventSync.ts:238-245 | one deletion iteration makes exactly the calls `DeleteOne` computes |
| Sync.DeleteUnprocessed | src/eventsSync/EventSync.ts:237-246 | the deletion loop makes exactly the calls of `DeleteAll` |
| Sync.ApplyChanges | src/eventsSync/EventSync.ts:204-253 | the `try` block makes exactly the calls of `Run` |
| Sync.SyncEvents | mod.ts:180-251 | `syncEvents` makes exactly the calls of `Pass` with the U+1F937 placeholder |
| Sync.EventSync.constructor | src/eventsSync/EventSync.ts:38-50 | stores the application id and the client; no channels are known yet |
| Sync.EventSync.Sync | src/eventsSync/EventSync.ts:144-255 | `sync` stores the eligible channels and makes exactly the calls of `Pass` with the mis-encoded placeholder |
| PassProperties.PlanOne | src/eventsSync/EventSync.ts:211-233 | a skipped event writes nothing; an unmatched one is created; a matched one is patched with the payload unless it compares equal |
| PassProperties.PlannedWrites | src/eventsSync/EventSync.ts:206-235 | every write of the calendar loop is a create or patch carrying one of the mapped payloads, and every patch targets an owned event |
| PassProperties.KeptIds | src/eventsSync/EventSync.ts:216 | the kept ids are ids of owned events |
| PassProperties.ReturnedIds | src/eventsSync/EventSync.ts:225 | an id is returned exactly when some successful write in the range replied with it |
| PassProperties.PlannedDeletesExactly | src/eventsSync/EventSync.ts:237-246 | a delete is planned for an owned event exactly when its id is not processed |
| PassProperties.PacedIndex | src/eventsSync/EventSync.ts:234 | in a paced trace the i-th write sits at position 2i and is followed by a delay |
| PassProperties.WriteIssues | src/eventsSync/EventSync.ts:220-234 | a create or patch extends the issued plan by one write and, on success, marks the returned id |
| PassProperties.ApplyOneIssues | src/eventsSync/EventSync.ts:206-235 | one calendar iteration issues the write its event calls for, and marks the kept or returned id |
| PassProperties.ApplyAllIssues | src/eventsSync/EventSync.ts:204-235 | the calendar loop issues exactly the planned creates and patches, and without a failure has processed exactly the kept and returned ids |
| PassProperties.DeleteAllIssues | src/eventsSync/EventSync.ts:237-246 | the deletion loop appends exactly the issue of the planned deletes and leaves the processed ids unchanged |
| PassProperties.DeletePhaseIssues | src/eventsSync/EventSync.ts:237-253 | the pass issues the calendar loop's writes, then the planned deletes, as one paced plan cut at the first failure |
| PassProperties.RunIssuesPlan | src/eventsSync/EventSync.ts:204-253 | the `try` block issues its plan, and the processed ids are the kept and returned ones when no write failed |
| PassProperties.PassIssuesPlan | mod.ts:180-251 | an empty or missing calendar issues nothing; otherwise the pass issues its plan of writes, each paced, up to and including the first failing write |
| PassProperties.PassOwnership | mod.ts:186 | only the bot's own events are patched or deleted, and every create or patch carries the mapped payload of one calendar event |
| PassProperties.PassPacing | mod.ts:231-241 | writes and delays alternate, starting with a write; a failed pass ends with its failing write after only successful ones; the write count matches the trace |
| PassProperties.RunPacing | src/eventsSync/EventSync.ts:204-253 | the two loops of the `try` block alternate writes and delays, count their writes, and stop right after the first failing write |
| PassProperties.PlannedEmpty | mod.ts:209-215 | the calendar loop plans no write exactly when every mapped event has an equal match |
| PassProperties.NoDeletesPlanned | mod.ts:234-237 | no delete is planned exactly when every owned id is processed |
| PassProperties.QuietIffInSync | mod.ts:197-243 | a pass over a non-empty calendar issues nothing exactly when every mapped event has an equal match and every owned event is one of those matches |
| PassProperties.MirroredMatch | src/eventsSync/EventSync.ts:211-213 | when the owned events carry exactly the mapped payloads, each once, and permalinks separate the calendar events, the lookup for a mapped event finds the owned event carrying its payload |
| PassProperties.KeptWhenMirrored | src/eventsSync/EventSync.ts:214-218 | on such a mirrored calendar, every mapped event's match compares equal and is kept |
| PassProperties.KeptOneIn | src/eventsSync/EventSync.ts:216 | the id one calendar event keeps is among the ids the calendar loop keeps |
| PassProperties.SecondPassQuiet | mod.ts:197-243 | idempotence: a pass over a calendar that the owned events already mirror, each permalink belonging to one calendar event, issues nothing |
| PassProperties.OwnedDistinct | mod.ts:186 | filtering to owned events keeps ids distinct |
| PassProperties.PlannedDeletesDistinct | mod.ts:234-243 | with distinct ids, no delete is planned twice |
| PassProperties.DeletedAtMostOnce | mod.ts:234-243 | with distinct event ids, no event is deleted twice in a pass |
| PassProperties.DeletesInFetchOrder | mod.ts:234-243 | of two unprocessed owned events, the one listed first among the owned events, which is the one fetched first (`OwnedEvents`), is deleted first |
| PassProperties.ProcessedNeverDeleted | mod.ts:198-243 | no kept or returned id is deleted, and, when no write fails, every other owned event is deleted |
| PassProperties.KeptNeverDeleted | mod.ts:209-239 | no delete names an id that was kept or returned to a write |
| PassProperties.UnkeptDeleted | mod.ts:234-243 | when no write failed, every owned event neither kept nor returned is deleted |

## Left out

- Fetching and its errors: the channel, calendar and Discord event lists are parameters. An error while fetching, outside the `try` block, is not modelled.
- The HTTP clients, JWT signing, environment configuration and logging are not part of this model. A write is one call on `DiscordSink`, whose reply to the n-th write is a parameter `answer(n)`: an id, or the error the client throws.
- The one-second `setTimeout` delay becomes a `Wait` operation in the trace; time itself is not modelled.
- Mapper.ParseDates: `new Date(s)` is a parameter `parseDate` returning epoch milliseconds. An unparsable date (an Invalid Date, whose `toISOString` throws outside the `try` block) is not modelled. The `toISOString` / `getTime` round trip is taken to be the identity.
- Text.Lower: `toLowerCase` is modelled for ASCII letters only; other characters are kept as they are.
- Sync.ApplyCalendar: the processed record is a `map<string, bool>`. Keys that JavaScript objects inherit from `Object.prototype` (such as `constructor`) are not modelled. Discord ids are numeric snowflakes, which never collide with them.
- The `calEvent === undefined` test in the calendar loop cannot fire on a mapped array and is left out.
- The error bodies of the `mod.ts` client: for an error status other than a rate limit without a reset header, `discord.ts:37-57` returns the response without throwing, and a JSON error body parses without throwing as well. A rejected create or patch (for example a description over 1000 characters, `interfaces.ts:48-49`) then yields an object without an id, so the pass marks the key `undefined` processed, pauses and goes on; a rejected delete is passed over the same way. The model covers this only as an `Ok` reply carrying whatever id the client hands back (such as the string `undefined`); `Err` stands for a call that throws.
- The numeric codes Discord uses for entity types on the wire (`interfaces.ts:1-5`): the model names the three types and never serialises them.
- The sink's `trace` is a ghost field: it records what a pass sends, and is not part of the running program.
