/**
 * Which guild channels a calendar location may name, and how a channel-name
 * query picks one of them: the voice/stage filter applied to the fetched
 * channels, and the first-match, case-insensitive substring search.
 */
module ChannelResolver {
  import opened Wrappers
  import opened Text
  import opened EventTypes

  /** Only voice and stage channels can host a channel event. */
  predicate IsEligible(c: Channel) {
    c.kind == GuildStageVoice || c.kind == GuildVoice
  }

  /** The fetched channel list filtered down to voice and stage channels, order kept. */
  function EligibleChannels(channels: seq<Channel>): (r: seq<Channel>)
    ensures |r| <= |channels|
    ensures forall c :: c in r <==> c in channels && IsEligible(c)
  {
    if channels == [] then []
    else (if IsEligible(channels[0]) then [channels[0]] else []) + EligibleChannels(channels[1..])
  }

  /** The lower-cased channel name contains the lower-cased query. */
  predicate NameMatches(c: Channel, query: string) {
    Contains(Lower(c.name), Lower(query))
  }

  /** The index of the first channel, in list order, whose name matches `query`. */
  function FindChannel(channels: seq<Channel>, query: string): (r: Option<nat>)
    ensures r.Some? ==> r.value < |channels| && NameMatches(channels[r.value], query)
    ensures forall j :: 0 <= j < |channels| && (r.None? || j < r.value) ==> !NameMatches(channels[j], query)
  {
    if channels == [] then None
    else if NameMatches(channels[0], query) then Some(0)
    else
      var rest := FindChannel(channels[1..], query);
      assert forall j :: 1 <= j < |channels| ==> channels[j] == channels[1..][j - 1];
      if rest.None? then None else Some(rest.value + 1)
  }

  /**
   * Reference definition: the index in the unfiltered list of the first
   * eligible channel whose name matches `query`.
   */
  function FirstEligibleMatch(channels: seq<Channel>, query: string): (r: Option<nat>)
    ensures r.Some? ==> r.value < |channels| && IsEligible(channels[r.value]) && NameMatches(channels[r.value], query)
    ensures forall j :: 0 <= j < |channels| && (r.None? || j < r.value) && IsEligible(channels[j])
                        ==> !NameMatches(channels[j], query)
  {
    if channels == [] then None
    else if IsEligible(channels[0]) && NameMatches(channels[0], query) then Some(0)
    else
      var rest := FirstEligibleMatch(channels[1..], query);
      assert forall j :: 1 <= j < |channels| ==> channels[j] == channels[1..][j - 1];
      if rest.None? then None else Some(rest.value + 1)
  }

  /**
   * Searching the filtered list finds exactly the first eligible matching
   * channel of the full list: filtering first never changes which channel wins.
   */
  lemma {:induction false} LookupAfterFilter(channels: seq<Channel>, query: string)
    ensures var found := FindChannel(EligibleChannels(channels), query);
            var reference := FirstEligibleMatch(channels, query);
            found.Some? == reference.Some?
            && (found.Some? ==> EligibleChannels(channels)[found.value] == channels[reference.value])
  {
    if channels != [] {
      var all, tail := EligibleChannels(channels), EligibleChannels(channels[1..]);
      var found, reference := FindChannel(all, query), FirstEligibleMatch(channels, query);
      var found', reference' := FindChannel(tail, query), FirstEligibleMatch(channels[1..], query);
      LookupAfterFilter(channels[1..], query);
      if !IsEligible(channels[0]) {
        assert all == tail;
        assert reference == if reference'.None? then None else Some(reference'.value + 1);
      } else if NameMatches(channels[0], query) {
        assert all[0] == channels[0];
      } else {
        assert all == [channels[0]] + tail;
        FindPastHead(channels[0], tail, query);
        assert reference == if reference'.None? then None else Some(reference'.value + 1);
      }
    }
  }

  /** A head that does not match shifts the first match of the rest by one. */
  lemma FindPastHead(c: Channel, tail: seq<Channel>, query: string)
    requires !NameMatches(c, query)
    ensures var found, found' := FindChannel([c] + tail, query), FindChannel(tail, query);
            found == if found'.None? then None else Some(found'.value + 1)
  {
    assert ([c] + tail)[1..] == tail;
  }

}
