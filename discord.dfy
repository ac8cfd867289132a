/** The Discord scraper (src/gaming_events_scraper/discord_scraper.py): turning a
    chat message into a GamingEvent, choosing the channels to scan, and the scan
    itself. The Discord client is an input: the guild's channels, each with the
    messages its history yields. The current year and time are parameters. */
module Discord {
  import opened Wrappers
  import opened Text
  import opened Extractors
  import opened GamingEvents
  import opened Sequences

  datatype Guild = Guild(id: nat, name: string)

  /** A message as the parser reads it. A content of None stands for a content that
      is not text: reading it raises, and the parser answers None. A guild of None
      is a message outside any guild. */
  datatype Message = Message(content: Option<string>, guild: Option<Guild>, channelId: nat, id: nat)

  const ChannelsUrl: string := "https://discord.com/channels/"

  /** The link to a message in a guild channel. */
  function MessageUrl(guildId: nat, channelId: nat, messageId: nat): string {
    ChannelsUrl + NatToString(guildId) + "/" + NatToString(channelId) + "/" + NatToString(messageId)
  }

  /** _parse_discord_message. */
  function ParseDiscordMessage(m: Message, currentYear: nat, now: string): (r: Option<GamingEvent>)
    ensures r.Some? <==> m.content.Some? && ContainsGamingKeywords(m.content.value)
    ensures r.Some? ==>
      var content := m.content.value;
      && r.value.title == Take(content, 100)
      && r.value.description == Some(content)
      && r.value.source == "discord"
      && r.value.gameSystem == ExtractGameSystem(content)
      && r.value.date == OrUnknown(ExtractDate(content, currentYear))
      && r.value.startTime == OrUnknown(ExtractTime(content))
      && r.value.extractedAt == Some(now)
    ensures r.Some? && m.guild.Some? ==>
      r.value.venue == m.guild.value.name && r.value.sourceUrl == Some(MessageUrl(m.guild.value.id, m.channelId, m.id))
    ensures r.Some? && m.guild.None? ==> r.value.venue == Unknown && r.value.sourceUrl.None?
  {
    match m.content
    case None => None
    case Some(content) =>
      if !ContainsGamingKeywords(content) then None
      else
        var venue := if m.guild.Some? then m.guild.value.name else Unknown;
        var url := if m.guild.Some? then Some(MessageUrl(m.guild.value.id, m.channelId, m.id)) else None;
        Some(NewGamingEvent(Take(content, 100), ExtractGameSystem(content), venue,
          OrUnknown(ExtractDate(content, currentYear)), OrUnknown(ExtractTime(content)),
          "discord", url, Some(content), None, now))
  }

  /** The title is the whole content when it has at most 100 characters, and
      otherwise its first 100; either way it begins the description. */
  lemma DiscordTitle(m: Message, currentYear: nat, now: string)
    requires ParseDiscordMessage(m, currentYear, now).Some?
    ensures var e := ParseDiscordMessage(m, currentYear, now).value;
      && (e.title == m.content.value <==> |m.content.value| <= 100)
      && |e.title| <= 100
      && e.description.Some? && StartsWith(e.description.value, e.title)
  {
  }

  /** The first slash after a run of digits is the one that ends it. */
  lemma FirstSlash(a: string, x: string)
    requires AllDigits(a)
    ensures IndexOf(a + "/" + x, "/") == Some(|a|)
  {
    var s := a + "/" + x;
    assert OccursAt(s, "/", |a|);
    forall j: nat | j < |a| ensures !OccursAt(s, "/", j) {
      assert s[j] == a[j];
    }
  }

  /** Splitting at the first slash after a run of digits. */
  lemma SplitAfterDigits(a: string, x: string, b: string, y: string)
    requires AllDigits(a) && AllDigits(b)
    requires a + "/" + x == b + "/" + y
    ensures a == b && x == y
  {
    var s := a + "/" + x;
    FirstSlash(a, x);
    FirstSlash(b, y);
    assert a == s[..|a|] == b;
    assert x == s[|a| + 1..] == y;
  }

  /** A message link names its guild, channel and message. */
  lemma {:induction false} MessageUrlInjective(g: nat, c: nat, m: nat, g': nat, c': nat, m': nat)
    requires MessageUrl(g, c, m) == MessageUrl(g', c', m')
    ensures g == g' && c == c' && m == m'
  {
    var gs, cs, ms := NatToString(g), NatToString(c), NatToString(m);
    var gs', cs', ms' := NatToString(g'), NatToString(c'), NatToString(m');
    var tail := gs + "/" + (cs + "/" + ms);
    var tail' := gs' + "/" + (cs' + "/" + ms');
    assert MessageUrl(g, c, m) == ChannelsUrl + tail;
    assert MessageUrl(g', c', m') == ChannelsUrl + tail';
    assert tail == (ChannelsUrl + tail)[|ChannelsUrl|..];
    assert tail' == (ChannelsUrl + tail')[|ChannelsUrl|..];
    SplitAfterDigits(gs, cs + "/" + ms, gs', cs' + "/" + ms');
    SplitAfterDigits(cs, ms, cs', ms');
    NatToStringInjective(g, g');
    NatToStringInjective(c, c');
    NatToStringInjective(m, m');
  }

  /** So two guild messages whose events carry the same link are the same message
      of the same channel and guild. */
  lemma SameLinkSameMessage(a: Message, b: Message, currentYear: nat, now: string)
    requires ParseDiscordMessage(a, currentYear, now).Some? && ParseDiscordMessage(b, currentYear, now).Some?
    requires a.guild.Some? && b.guild.Some?
    requires ParseDiscordMessage(a, currentYear, now).value.sourceUrl == ParseDiscordMessage(b, currentYear, now).value.sourceUrl
    ensures a.guild.value.id == b.guild.value.id && a.channelId == b.channelId && a.id == b.id
  {
    MessageUrlInjective(a.guild.value.id, a.channelId, a.id, b.guild.value.id, b.channelId, b.id);
  }

  // ---------------------------------------------------------------------------
  // Channels
  // ---------------------------------------------------------------------------

  const DefaultChannelNames: seq<string> := ["events", "schedule", "announcements", "general"]

  /** A guild channel: whether it is a text channel, and what its history yields,
      newest first; when fails is set, reading the history raises after the
      messages listed. */
  datatype Channel = Channel(name: string, isText: bool, history: seq<Message>, fails: bool)

  /** The channel-selection test: a text channel some configured name of which is
      contained in its name, ignoring case. */
  predicate Watched(channel: Channel, names: seq<string>) {
    channel.isText && exists n :: n in names && Contains(Lower(channel.name), Lower(n))
  }

  /** The names used when none are given. */
  function ChannelNames(channelNames: Option<seq<string>>): (r: seq<string>)
    ensures channelNames.Some? ==> r == channelNames.value
    ensures channelNames.None? ==> r == DefaultChannelNames
  {
    channelNames.GetOr(DefaultChannelNames)
  }

  /** An empty list of names, unlike no list, watches nothing. */
  lemma NoNamesWatchNothing(channel: Channel)
    ensures !Watched(channel, ChannelNames(Some([])))
  {
  }

  /** Case does not matter, on either side. */
  lemma WatchedIgnoresCase(a: Channel, b: Channel, names: seq<string>)
    requires a.isText == b.isText && SameIgnoringCase(a.name, b.name)
    ensures Watched(a, names) <==> Watched(b, names)
  {
    SameIgnoringCaseLower(a.name, b.name);
  }

  /** With the default names, every text channel whose name mentions "events", in
      any case, is scanned. */
  lemma EventChannelsWatched(channel: Channel)
    requires channel.isText && Contains(Lower(channel.name), "events")
    ensures Watched(channel, ChannelNames(None))
  {
    var n := "events";
    assert Lower(n) == n by {
      forall i | 0 <= i < |n| ensures Lower(n)[i] == n[i] {
        assert !IsUpperAscii(n[i]);
      }
    }
    assert n in DefaultChannelNames;
  }

  /** Parsing with a fixed year and time. */
  function MessageParse(currentYear: nat, now: string): Message -> Option<GamingEvent> {
    m => ParseDiscordMessage(m, currentYear, now)
  }

  /** What the scan appends, channel by channel: the events of the first 100 messages
      of each watched channel, stopping after the first channel whose history raises. */
  function ScanChannels(channels: seq<Channel>, names: seq<string>, currentYear: nat, now: string): seq<GamingEvent>
    decreases |channels|
  {
    if channels == [] then []
    else if !Watched(channels[0], names) then ScanChannels(channels[1..], names, currentYear, now)
    else
      var found := FilterMap(Take(channels[0].history, 100), MessageParse(currentYear, now));
      if channels[0].fails then found
      else found + ScanChannels(channels[1..], names, currentYear, now)
  }

  lemma ScanChannelsStep(channels: seq<Channel>, i: nat, names: seq<string>, currentYear: nat, now: string)
    requires i < |channels|
    ensures ScanChannels(channels[i..], names, currentYear, now) ==
      if !Watched(channels[i], names) then ScanChannels(channels[i + 1..], names, currentYear, now)
      else
        var found := FilterMap(Take(channels[i].history, 100), MessageParse(currentYear, now));
        if channels[i].fails then found else found + ScanChannels(channels[i + 1..], names, currentYear, now)
  {
    assert channels[i..][1..] == channels[i + 1..];
  }

  /** Every scanned event is a gaming message of a watched channel, parsed. */
  lemma {:induction false} ScanChannelsFrom(channels: seq<Channel>, names: seq<string>, currentYear: nat, now: string)
    ensures forall e :: e in ScanChannels(channels, names, currentYear, now) ==>
      exists k, j :: (0 <= k < |channels| && Watched(channels[k], names) && 0 <= j < |channels[k].history| && j < 100
        && ParseDiscordMessage(channels[k].history[j], currentYear, now) == Some(e))
    decreases |channels|
  {
    if channels != [] {
      ScanChannelsFrom(channels[1..], names, currentYear, now);
      var msgs := Take(channels[0].history, 100);
      FilterMapMembers(msgs, MessageParse(currentYear, now));
      forall e | e in ScanChannels(channels, names, currentYear, now)
        ensures exists k, j :: (0 <= k < |channels| && Watched(channels[k], names) && 0 <= j < |channels[k].history| && j < 100
          && ParseDiscordMessage(channels[k].history[j], currentYear, now) == Some(e))
      {
        if Watched(channels[0], names) && e in FilterMap(msgs, MessageParse(currentYear, now)) {
          var j :| 0 <= j < |msgs| && MessageParse(currentYear, now)(msgs[j]) == Some(e);
          assert channels[0].history[j] == msgs[j];
        } else {
          assert e in ScanChannels(channels[1..], names, currentYear, now);
          var k, j :| 0 <= k < |channels[1..]| && Watched(channels[1..][k], names) && 0 <= j < |channels[1..][k].history| && j < 100
            && ParseDiscordMessage(channels[1..][k].history[j], currentYear, now) == Some(e);
          assert channels[1..][k] == channels[k + 1];
        }
      }
    }
  }

  // ---------------------------------------------------------------------------
  // The scraper object
  // ---------------------------------------------------------------------------

  /** DiscordEventScraper: the bot token, and the event list that every scan appends
      to and returns. */
  class DiscordEventScraper {
    var botToken: Option<string>
    var events: seq<GamingEvent>

    constructor(botToken: Option<string>)
      ensures this.botToken == botToken && events == []
    {
      this.botToken := botToken;
      events := [];
    }

    /** scrape_server_events. available says whether the Discord library is
        installed; guild is the guild the client finds, if any. Without the library
        or a token the answer is [] and nothing changes; otherwise the watched
        channels' events are appended to the events of earlier scans, and the whole
        list is the answer. */
    method ScrapeServerEvents(available: bool, guild: Option<seq<Channel>>, channelNames: Option<seq<string>>,
                              currentYear: nat, now: string)
      returns (r: seq<GamingEvent>)
      modifies this
      ensures botToken == old(botToken)
      ensures !available || botToken.None? || botToken.value == [] ==> r == [] && events == old(events)
      ensures available && botToken.Some? && botToken.value != [] ==>
        events == old(events) + (if guild.None? then [] else ScanChannels(guild.value, ChannelNames(channelNames), currentYear, now))
        && r == events
    {
      if !available || botToken.None? || botToken.value == [] {
        return [];
      }
      var names := ChannelNames(channelNames);
      if guild.None? {
        assert events + [] == events;
        return events;
      }
      var channels := guild.value;
      ghost var start := events;
      var i := 0;
      assert channels[i..] == channels;
      while i < |channels|
        invariant 0 <= i <= |channels|
        invariant botToken == old(botToken) && start == old(events)
        invariant events + ScanChannels(channels[i..], names, currentYear, now) == start + ScanChannels(channels, names, currentYear, now)
      {
        ScanChannelsStep(channels, i, names, currentYear, now);
        var channel := channels[i];
        if channel.isText && Watched(channel, names) {
          var found := CollectEvents(Take(channel.history, 100), MessageParse(currentYear, now));
          if channel.fails {
            events := events + found;
            assert events + [] == events;
            return events;
          }
          ghost var rest := ScanChannels(channels[i + 1..], names, currentYear, now);
          assert events + found + rest == events + (found + rest);
          events := events + found;
        }
        i := i + 1;
      }
      assert events + [] == events;
      r := events;
    }
  }
}
