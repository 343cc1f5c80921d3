/**
 * One reconciliation pass, as a function of what it fetched and of what
 * Discord answers to its writes. The imperative pass in module Sync is proved
 * to issue exactly the operations computed here; the lemmas below state what
 * the pass promises about them.
 *
 * `answer(n)` is Discord's reply to the n-th write (create, patch or delete)
 * the sink has received: the id of the event written, or an error.
 */
module Reconciler {
  import opened Wrappers
  import opened Text
  import opened EventTypes
  import opened ChannelResolver
  import opened Mapper
  import opened Comparator

  /** Discord's reply to one write: the id of the created or updated event, or an error. */
  datatype Reply = Ok(id: string) | Err

  /** A call the pass makes on Discord's event endpoints, or one pacing delay. */
  datatype Op = Create(data: EventData) | Patch(id: string, data: EventData) | Delete(id: string) | Wait {
    predicate IsWrite() {
      !Wait?
    }
  }

  /** A calendar event with its mapped payload (`None`: skipped). */
  datatype Converted = Converted(calEvent: CalendarEvent, payload: Option<EventData>)

  /** `x` and `y` were fetched, `x` before `y`. */
  predicate FetchedBefore(x: DiscordEvent, y: DiscordEvent, events: seq<DiscordEvent>) {
    exists a, b :: 0 <= a < b < |events| && x == events[a] && y == events[b]
  }

  /** Every event of `r` was fetched, and any two of them were fetched in the order `r` lists them. */
  predicate InFetchOrder(r: seq<DiscordEvent>, events: seq<DiscordEvent>) {
    (forall e :: e in r ==> e in events)
    && forall i, j :: 0 <= i < j < |r| ==> FetchedBefore(r[i], r[j], events)
  }

  /** The bot's own events, in fetch order: those whose creator is the application. */
  function OwnedEvents(events: seq<DiscordEvent>, applicationId: string): (r: seq<DiscordEvent>)
    ensures |r| <= |events|
    ensures forall e :: e in r <==> e in events && e.creatorId == applicationId
    ensures InFetchOrder(r, events)
  {
    if events == [] then []
    else
      var rest := OwnedEvents(events[1..], applicationId);
      KeepsOrder(events, rest);
      if events[0].creatorId == applicationId then [events[0]] + rest else rest
  }

  /**
   * Events of `events[1..]` listed in their order there stay in fetch order,
   * also when the first fetched event is put in front of them.
   */
  lemma KeepsOrder(events: seq<DiscordEvent>, rest: seq<DiscordEvent>)
    requires events != [] && InFetchOrder(rest, events[1..])
    ensures InFetchOrder(rest, events) && InFetchOrder([events[0]] + rest, events)
  {
    forall i, j | 0 <= i < j < |rest|
      ensures FetchedBefore(rest[i], rest[j], events)
    {
      ShiftedBefore(events, rest[i], rest[j]);
    }
    var whole := [events[0]] + rest;
    forall i, j | 0 <= i < j < |whole|
      ensures FetchedBefore(whole[i], whole[j], events)
    {
      if i == 0 {
        assert whole[j] == rest[j - 1];
        FirstBefore(events, rest[j - 1]);
      } else {
        assert whole[i] == rest[i - 1] && whole[j] == rest[j - 1];
      }
    }
  }

  /** Fetched in order after the first event means fetched in order. */
  lemma ShiftedBefore(events: seq<DiscordEvent>, x: DiscordEvent, y: DiscordEvent)
    requires events != [] && FetchedBefore(x, y, events[1..])
    ensures FetchedBefore(x, y, events)
  {
    var tail := events[1..];
    var a, b :| 0 <= a < b < |tail| && x == tail[a] && y == tail[b];
    assert x == events[a + 1] && y == events[b + 1];
  }

  /** The first fetched event was fetched before any event fetched after it. */
  lemma FirstBefore(events: seq<DiscordEvent>, y: DiscordEvent)
    requires events != [] && y in events[1..]
    ensures FetchedBefore(events[0], y, events)
  {
    var tail := events[1..];
    var b :| 0 <= b < |tail| && tail[b] == y;
    assert y == events[b + 1];
  }

  /** Every calendar event paired with its mapped payload, in calendar order. */
  function Convert(
    channels: seq<Channel>, calendar: seq<CalendarEvent>, placeholder: string, parseDate: string -> Instant)
    : (r: seq<Converted>)
    ensures |r| == |calendar| && forall i :: 0 <= i < |r| ==> r[i].calEvent == calendar[i]
    ensures forall i :: 0 <= i < |r| && r[i].payload.Some? ==> HasRequiredFields(calendar[i])
  {
    seq(|calendar|, i requires 0 <= i < |calendar| =>
      Converted(calendar[i], CalendarToDiscordEvent(channels, calendar[i], placeholder, parseDate)))
  }

  /**
   * `discordEvents.find(...)`: the index of the first owned event whose
   * description ends with the calendar permalink (case-sensitively).
   */
  function FindExisting(owned: seq<DiscordEvent>, link: Option<string>): (r: Option<nat>)
    ensures r.Some? ==> link.Some? && r.value < |owned| && EndsWith(owned[r.value].data.description, link.value)
    ensures forall j :: 0 <= j < |owned| && (r.None? || j < r.value) && link.Some?
                        ==> !EndsWith(owned[j].data.description, link.value)
  {
    if owned == [] || link.None? then None
    else if EndsWith(owned[0].data.description, link.value) then Some(0)
    else
      var rest := FindExisting(owned[1..], link);
      assert forall j :: 1 <= j < |owned| ==> owned[j] == owned[1..][j - 1];
      if rest.None? then None else Some(rest.value + 1)
  }

  /**
   * The correlation key survives the round trip through Discord: an owned
   * event that carries the mapped description of a calendar event with a
   * solid permalink is found by the lookup for that permalink, at its own
   * position or at an earlier one.
   */
  lemma CorrelationRoundTrip(
    owned: seq<DiscordEvent>, k: nat, channels: seq<Channel>, calEvent: CalendarEvent, placeholder: string,
    parseDate: string -> Instant)
    requires CalendarToDiscordEvent(channels, calEvent, placeholder, parseDate).Some?
    requires SolidLink(calEvent.htmlLink.value)
    requires k < |owned|
    requires owned[k].data.description
             == CalendarToDiscordEvent(channels, calEvent, placeholder, parseDate).value.description
    ensures FindExisting(owned, calEvent.htmlLink).Some? && FindExisting(owned, calEvent.htmlLink).value <= k
  {
    SuffixFound(owned, k, calEvent.htmlLink.value);
  }

  /** An owned event whose description ends with the link line is found by the lookup for its permalink. */
  lemma SuffixFound(owned: seq<DiscordEvent>, k: nat, link: string)
    requires k < |owned| && EndsWith(owned[k].data.description, LinkLabel + link)
    ensures FindExisting(owned, Some(link)).Some? && FindExisting(owned, Some(link)).value <= k
  {
    var d := owned[k].data.description;
    assert d[|d| - |link|..] == (LinkLabel + link)[|LinkLabel|..] == link;
  }

  /** What the pass does for one mapped calendar event. */
  datatype Action = Keep(id: string) | Update(id: string, data: EventData) | Insert(data: EventData)

  /**
   * Matched and equal: keep the event with no write. Matched and different:
   * patch it. Unmatched: create an event.
   */
  function Decide(payload: EventData, link: Option<string>, owned: seq<DiscordEvent>): (a: Action)
    ensures a.Insert? <==> FindExisting(owned, link).None?
    ensures !a.Insert? ==> var k := FindExisting(owned, link).value;
                           a.id == owned[k].id && (a.Keep? <==> CompareEvents(payload, owned[k].data))
    ensures !a.Keep? ==> a.data == payload
  {
    match FindExisting(owned, link)
    case None => Insert(payload)
    case Some(k) => if CompareEvents(payload, owned[k].data) then Keep(owned[k].id) else Update(owned[k].id, payload)
  }

  /**
   * The state of a pass: the operations issued so far, the ids marked
   * processed, how many writes the sink has received, and whether a write
   * failed (which ends the pass).
   */
  datatype PassState = PassState(trace: seq<Op>, processed: set<string>, writes: nat, failed: bool)

  function Start(writes: nat): PassState {
    PassState([], {}, writes, false)
  }

  /**
   * A create or patch: on success the returned id is marked processed and a
   * pacing delay follows; on an error the pass stops.
   */
  function Write(st: PassState, op: Op, answer: nat -> Reply): (r: PassState)
    ensures r.writes == st.writes + 1
    ensures r.failed <==> st.failed || answer(st.writes).Err?
    ensures answer(st.writes).Ok? ==> r.processed == st.processed + {answer(st.writes).id}
    ensures answer(st.writes).Err? ==> r.processed == st.processed
  {
    var issued := st.(trace := st.trace + [op], writes := st.writes + 1);
    match answer(st.writes)
    case Ok(id) => issued.(trace := issued.trace + [Wait], processed := st.processed + {id})
    case Err => issued.(failed := true)
  }

  /** One iteration of the loop over the mapped calendar events. */
  function ApplyOne(st: PassState, item: Converted, owned: seq<DiscordEvent>, answer: nat -> Reply): (r: PassState)
    ensures st.failed || item.payload.None? ==> r == st
    ensures st.writes <= r.writes <= st.writes + 1
  {
    if st.failed || item.payload.None? then st
    else
      match Decide(item.payload.value, item.calEvent.htmlLink, owned)
      case Keep(id) => st.(processed := st.processed + {id})
      case Update(id, data) => Write(st, Patch(id, data), answer)
      case Insert(data) => Write(st, Create(data), answer)
  }

  /** The loop over the mapped calendar events, in calendar order. */
  function ApplyAll(items: seq<Converted>, owned: seq<DiscordEvent>, answer: nat -> Reply, st: PassState)
    : (r: PassState)
    ensures st.trace <= r.trace && st.processed <= r.processed && st.writes <= r.writes
    ensures st.failed ==> r == st
    decreases |items|
  {
    if items == [] then st
    else ApplyOne(ApplyAll(items[..|items| - 1], owned, answer, st), items[|items| - 1], owned, answer)
  }

  /** One iteration of the deletion loop: an unprocessed owned event is deleted, then a delay. */
  function DeleteOne(st: PassState, e: DiscordEvent, answer: nat -> Reply): (r: PassState)
    ensures r.processed == st.processed
    ensures st.failed || e.id in st.processed ==> r == st
    ensures st.trace <= r.trace && st.writes <= r.writes <= st.writes + 1
  {
    if st.failed || e.id in st.processed then st
    else
      var issued := st.(trace := st.trace + [Delete(e.id)], writes := st.writes + 1);
      if answer(st.writes).Ok? then issued.(trace := issued.trace + [Wait]) else issued.(failed := true)
  }

  /** The deletion loop over the owned events, in fetch order. */
  function DeleteAll(owned: seq<DiscordEvent>, answer: nat -> Reply, st: PassState): (r: PassState)
    ensures r.processed == st.processed && st.trace <= r.trace && st.writes <= r.writes
    decreases |owned|
  {
    if owned == [] then st
    else DeleteOne(DeleteAll(owned[..|owned| - 1], answer, st), owned[|owned| - 1], answer)
  }

  /** The two loops of a pass over a non-empty calendar. */
  function Run(items: seq<Converted>, owned: seq<DiscordEvent>, answer: nat -> Reply, writes: nat): (r: PassState)
    ensures r.processed == ApplyAll(items, owned, answer, Start(writes)).processed
    ensures writes <= r.writes
  {
    DeleteAll(owned, answer, ApplyAll(items, owned, answer, Start(writes)))
  }

  /**
   * A whole pass over the fetched channels, calendar events (`None` when the
   * response had no items) and Discord events. An empty or missing calendar
   * ends the pass before anything is written.
   */
  function Pass(
    applicationId: string, placeholder: string, parseDate: string -> Instant,
    channels: seq<Channel>, calendar: Option<seq<CalendarEvent>>, events: seq<DiscordEvent>,
    answer: nat -> Reply, writes: nat)
    : (r: PassState)
    ensures calendar.None? || calendar.value == [] ==> r.trace == [] && r.writes == writes && !r.failed
    ensures writes <= r.writes
  {
    if calendar.None? || calendar.value == [] then Start(writes)
    else
      Run(Convert(EligibleChannels(channels), calendar.value, placeholder, parseDate),
          OwnedEvents(events, applicationId), answer, writes)
  }

  /** Once a write has failed, the rest of the calendar loop changes nothing. */
  lemma {:induction false} ApplyAllStopped(
    items: seq<Converted>, owned: seq<DiscordEvent>, answer: nat -> Reply, st: PassState, k: nat)
    requires k <= |items| && ApplyAll(items[..k], owned, answer, st).failed
    ensures ApplyAll(items, owned, answer, st) == ApplyAll(items[..k], owned, answer, st)
    decreases |items|
  {
    if k == |items| {
      assert items[..k] == items;
    } else {
      var init := items[..|items| - 1];
      assert init[..k] == items[..k];
      ApplyAllStopped(init, owned, answer, st, k);
    }
  }

  /** Once a write has failed, the rest of the deletion loop changes nothing. */
  lemma {:induction false} DeleteAllStopped(owned: seq<DiscordEvent>, answer: nat -> Reply, st: PassState, k: nat)
    requires k <= |owned| && DeleteAll(owned[..k], answer, st).failed
    ensures DeleteAll(owned, answer, st) == DeleteAll(owned[..k], answer, st)
    decreases |owned|
  {
    if k == |owned| {
      assert owned[..k] == owned;
    } else {
      var init := owned[..|owned| - 1];
      assert init[..k] == owned[..k];
      DeleteAllStopped(init, answer, st, k);
    }
  }

  /** A pass that failed in the calendar loop deletes nothing. */
  lemma {:induction false} DeleteAllAfterFailure(owned: seq<DiscordEvent>, answer: nat -> Reply, st: PassState)
    requires st.failed
    ensures DeleteAll(owned, answer, st) == st
    decreases |owned|
  {
    if owned != [] {
      DeleteAllAfterFailure(owned[..|owned| - 1], answer, st);
    }
  }

}
