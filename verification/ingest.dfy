/** Chat-side routing: which messages are scanned for identifiers
    (`get_user_ids_from_message`), how `on_message` routes a message, the
    merge of identifiers found in missed messages (`find_missed_user_ids`),
    and the statistics reply (`send_stats`). Reactions and sends are
    returned as values. */
module Ingest {
  import opened Outcomes
  import opened Models
  import Search

  datatype Reaction = Reaction(me: bool)

  /** A chat message; `guildId` is `None` for a direct message. */
  datatype Message = Message(
    authorId: int,
    channelId: ChannelId,
    guildId: Option<GuildId>,
    content: string,
    reactions: seq<Reaction>)

  datatype Emoji = ThumbsUp | ThumbsDown

  /** The identifiers found in a message and the reaction added to it. */
  datatype Extraction = Extraction(ids: seq<string>, reaction: Option<Emoji>)

  predicate StartsWith(s: string, prefix: string)
  {
    |prefix| <= |s| && s[..|prefix|] == prefix
  }

  /** `s[1:]` */
  function DropFirst(s: string): string
  {
    if |s| == 0 then s else s[1..]
  }

  /** The early returns of `get_user_ids_from_message`. */
  predicate Skipped(msg: Option<Message>, botId: int, command: string)
  {
    || msg.None?
    || msg.value.authorId == botId
    || |msg.value.content| == 0
    || StartsWith(msg.value.content, command)
    || (exists r :: r in msg.value.reactions && r.me)
  }

  /** `get_user_ids_from_message(message, command)`: skip missing, own,
      empty, command and already-reacted messages; otherwise extract in full
      mode and react thumbs-up exactly when something was found. */
  function GetUserIdsFromMessage(msg: Option<Message>, botId: int, command: string): (e: Extraction)
    ensures Skipped(msg, botId, command) ==> e == Extraction([], None)
    ensures !Skipped(msg, botId, command) ==>
              && e.ids == Search.FindUserIds(msg.value.content, true)
              && e.reaction.Some?
              && (e.reaction.value == ThumbsUp <==> |e.ids| > 0)
  {
    if Skipped(msg, botId, command) then Extraction([], None)
    else
      var ids := Search.FindUserIds(msg.value.content, true);
      Extraction(ids, Some(if |ids| > 0 then ThumbsUp else ThumbsDown))
  }

  /** A reaction is the idempotency mark: once the bot has reacted to a
      message, scanning it again finds nothing and adds no reaction. */
  lemma ReactedMessageIsSkipped(msg: Message, botId: int, command: string)
    requires GetUserIdsFromMessage(Some(msg), botId, command).reaction.Some?
    ensures var marked := msg.(reactions := msg.reactions + [Reaction(true)]);
            GetUserIdsFromMessage(Some(marked), botId, command) == Extraction([], None)
  {
    var marked := msg.(reactions := msg.reactions + [Reaction(true)]);
    assert Reaction(true) in marked.reactions;
  }

  // ---------------------------------------------------------------------
  // on_message

  datatype Route =
    | Ignored                   // not the guild's monitored channel
    | Command(stats: bool)      // handed to `dispatch_command`; `stats` when it runs `send_stats`
    | Ingested(extraction: Extraction, requests: map<string, seq<GuildId>>)

  /** `{u: [guild_id] for u in user_ids}` */
  function RequestsFor(ids: seq<string>, gid: GuildId): (m: map<string, seq<GuildId>>)
    ensures m.Keys == set u | u in ids
    ensures forall u :: u in m ==> m[u] == [gid]
  {
    map u | u in ids :: [gid]
  }

  /** `on_message`: a guild with a monitored channel ignores other channels;
      a message starting with the guild's prefix is a command (statistics
      when the text after its first character starts with `stats`);
      anything else is scanned and each identifier found is registered for
      this guild. A direct message, or a message from a guild without a
      row, crashes the handler. */
  function OnMessage(st: Store, msg: Message, botId: int): (r: Result<Route, Fault>)
    ensures msg.guildId.None? <==> r == Err(NoGuild)
    ensures msg.guildId.Some? ==> (msg.guildId.value !in st.guilds <==> r == Err(UnknownGuild))
    ensures r.Ok? ==>
              var gid := msg.guildId.value;
              var g := st.guilds[gid];
              && (r.value == Ignored <==> g.channel.Some? && g.channel.value != msg.channelId)
              && (r.value.Command? <==> r.value != Ignored && StartsWith(msg.content, g.command))
              && (r.value.Command? ==> (r.value.stats <==> StartsWith(DropFirst(msg.content), "stats")))
              && (r.value.Ingested? ==>
                    && r.value.extraction == GetUserIdsFromMessage(Some(msg), botId, g.command)
                    && r.value.requests.Keys == set u | u in r.value.extraction.ids
                    && forall u :: u in r.value.requests ==> r.value.requests[u] == [gid])
  {
    if msg.guildId.None? then Err(NoGuild)
    else if msg.guildId.value !in st.guilds then Err(UnknownGuild)
    else
      var gid := msg.guildId.value;
      var g := st.guilds[gid];
      if g.channel.Some? && g.channel.value != msg.channelId then Ok(Ignored)
      else if StartsWith(msg.content, g.command) then Ok(Command(StartsWith(DropFirst(msg.content), "stats")))
      else
        var e := GetUserIdsFromMessage(Some(msg), botId, g.command);
        Ok(Ingested(e, RequestsFor(e.ids, gid)))
  }

  /** A message from the bot itself that reaches the scanner registers nothing. */
  lemma OwnMessagesRegisterNothing(st: Store, msg: Message, botId: int)
    requires msg.authorId == botId
    requires OnMessage(st, msg, botId).Ok? && OnMessage(st, msg, botId).value.Ingested?
    ensures OnMessage(st, msg, botId).value.requests == map[]
  {
  }

  // ---------------------------------------------------------------------
  // find_missed_user_ids

  /** Some list among `lists` holds `u`. */
  ghost predicate InSome(lists: seq<seq<string>>, u: string)
  {
    exists k :: 0 <= k < |lists| && u in lists[k]
  }

  lemma InSomeSnoc(lists: seq<seq<string>>)
    requires |lists| > 0
    ensures forall u :: InSome(lists, u) <==> InSome(lists[..|lists| - 1], u) || u in lists[|lists| - 1]
  {
    var n := |lists| - 1;
    assert forall k :: 0 <= k < n ==> lists[..n][k] == lists[k];
  }

  /** The lists one after the other: an element is in the result exactly
      when some list holds it. */
  function Flatten(lists: seq<seq<string>>): (r: seq<string>)
    ensures forall u :: u in r <==> InSome(lists, u)
    decreases |lists|
  {
    if |lists| == 0 then []
    else
      InSomeSnoc(lists);
      Flatten(lists[..|lists| - 1]) + lists[|lists| - 1]
  }

  /** The identifiers each message of the history yields. */
  function IdLists(history: seq<Option<Message>>, botId: int, command: string): (lists: seq<seq<string>>)
    ensures |lists| == |history|
    ensures forall k :: 0 <= k < |history| ==> lists[k] == GetUserIdsFromMessage(history[k], botId, command).ids
  {
    seq(|history|, k requires 0 <= k < |history| => GetUserIdsFromMessage(history[k], botId, command).ids)
  }

  /** Every identifier found in a channel history, message by message: an
      identifier is listed exactly when some message of the history yields it. */
  function HistoryIds(history: seq<Option<Message>>, botId: int, command: string): (ids: seq<string>)
    ensures forall u :: u in ids <==> InSome(IdLists(history, botId, command), u)
  {
    Flatten(IdLists(history, botId, command))
  }

  /** The reaction each message of a history receives: one exactly for the
      messages the scan does not skip, thumbs-up exactly for those in which
      something was found. */
  function HistoryReactions(history: seq<Option<Message>>, botId: int, command: string): (rs: seq<Option<Emoji>>)
    ensures |rs| == |history|
    ensures forall k :: 0 <= k < |history| ==> (rs[k].Some? <==> !Skipped(history[k], botId, command))
    ensures forall k :: 0 <= k < |history| ==>
              (rs[k] == Some(ThumbsUp) <==>
                 !Skipped(history[k], botId, command) && |Search.FindUserIds(history[k].value.content, true)| > 0)
  {
    seq(|history|, k requires 0 <= k < |history| => GetUserIdsFromMessage(history[k], botId, command).reaction)
  }

  /** The message as it is after the bot's reaction, if any, was added. */
  function Marked(msg: Option<Message>, reaction: Option<Emoji>): Option<Message>
  {
    if msg.Some? && reaction.Some? then Some(msg.value.(reactions := msg.value.reactions + [Reaction(true)]))
    else msg
  }

  function MarkAll(history: seq<Option<Message>>, rs: seq<Option<Emoji>>): (marked: seq<Option<Message>>)
    requires |rs| == |history|
    ensures |marked| == |history|
  {
    seq(|history|, k requires 0 <= k < |history| => Marked(history[k], rs[k]))
  }

  lemma SkippedHistoryFindsNothing(history: seq<Option<Message>>, botId: int, command: string)
    requires forall k :: 0 <= k < |history| ==> Skipped(history[k], botId, command)
    ensures HistoryIds(history, botId, command) == []
  {
    FlattenOfEmpties(IdLists(history, botId, command));
  }

  lemma {:induction false} FlattenOfEmpties(lists: seq<seq<string>>)
    requires forall k :: 0 <= k < |lists| ==> lists[k] == []
    ensures Flatten(lists) == []
    decreases |lists|
  {
    if |lists| > 0 {
      FlattenOfEmpties(lists[..|lists| - 1]);
    }
  }


  /** Scanning a channel history twice is harmless: once the reactions of
      the first scan are on the messages, a second scan skips every message,
      finds no identifier and adds no reaction. */
  lemma MarkedHistoryFindsNothing(history: seq<Option<Message>>, botId: int, command: string)
    ensures var marked := MarkAll(history, HistoryReactions(history, botId, command));
            && HistoryIds(marked, botId, command) == []
            && forall k :: 0 <= k < |marked| ==> HistoryReactions(marked, botId, command)[k].None?
  {
    var rs := HistoryReactions(history, botId, command);
    var marked := MarkAll(history, rs);
    forall k | 0 <= k < |marked|
      ensures Skipped(marked[k], botId, command)
    {
      if rs[k].Some? {
        ReactedMessageIsSkipped(history[k].value, botId, command);
      }
    }
    SkippedHistoryFindsNothing(marked, botId, command);
  }

  /** What scanning one guild's history gives: the identifiers found, each
      mapped to this guild, and the reaction added to each message. */
  datatype GuildScan = GuildScan(found: map<string, seq<GuildId>>, reactions: seq<Option<Emoji>>)

  /** `find_missed_user_ids(guild)`: a guild without a row contributes
      nothing; a guild row with no configured channel, or a channel the
      guild cannot resolve (`history` is `None`), crashes on `channel.id`;
      otherwise every identifier found in the history maps to this guild,
      and every message the scan does not skip gets its reaction. */
  function MissedInGuild(st: Store, gid: GuildId, history: Option<seq<Option<Message>>>, botId: int): (r: Result<GuildScan, Fault>)
    ensures gid !in st.guilds ==> r == Ok(GuildScan(map[], []))
    ensures gid in st.guilds ==> (r.Err? <==> st.guilds[gid].channel.None? || history.None?)
    ensures r.Err? ==> r.error == ChannelUnavailable
    ensures r.Ok? ==> forall u :: u in r.value.found ==> r.value.found[u] == [gid]
    ensures r.Ok? && gid in st.guilds ==>
              && r.value.found.Keys == set u | u in HistoryIds(history.value, botId, st.guilds[gid].command)
              && r.value.reactions == HistoryReactions(history.value, botId, st.guilds[gid].command)
  {
    if gid !in st.guilds then Ok(GuildScan(map[], []))
    else if st.guilds[gid].channel.None? || history.None? then Err(ChannelUnavailable)
    else
      var command := st.guilds[gid].command;
      Ok(GuildScan(RequestsFor(HistoryIds(history.value, botId, command), gid),
                   HistoryReactions(history.value, botId, command)))
  }

  function GuildsOf(m: map<string, seq<GuildId>>, u: string): seq<GuildId>
  {
    if u in m then m[u] else []
  }

  /** `results[user_id].extend(guild_ids)` for every entry of one guild's map. */
  function MergeInto(acc: map<string, seq<GuildId>>, d: map<string, seq<GuildId>>): (r: map<string, seq<GuildId>>)
    ensures r.Keys == acc.Keys + d.Keys
    ensures forall u :: u in r ==> r[u] == GuildsOf(acc, u) + GuildsOf(d, u)
  {
    map u | u in acc.Keys + d.Keys :: GuildsOf(acc, u) + GuildsOf(d, u)
  }

  /** Some guild's map among `data` has key `u`. */
  ghost predicate MentionedIn(data: seq<map<string, seq<GuildId>>>, u: string)
  {
    exists k :: 0 <= k < |data| && u in data[k]
  }

  /** The top-level merge over the guilds' maps, in guild order: an
      identifier is a key of the merge exactly when some guild's map has it. */
  function MergeMissed(data: seq<map<string, seq<GuildId>>>): (r: map<string, seq<GuildId>>)
    ensures forall u :: u in r <==> MentionedIn(data, u)
    decreases |data|
  {
    if |data| == 0 then map[]
    else
      var n := |data| - 1;
      var front := MergeMissed(data[..n]);
      assert forall k :: 0 <= k < n ==> data[..n][k] == data[k];
      MergeInto(front, data[n])
  }

  /** The guilds, in order, whose map mentions `u`. */
  function Mentioning(data: seq<map<string, seq<GuildId>>>, gids: seq<GuildId>, u: string): seq<GuildId>
    requires |gids| == |data|
    decreases |data|
  {
    if |data| == 0 then []
    else
      var n := |data| - 1;
      Mentioning(data[..n], gids[..n], u) + (if u in data[n] then [gids[n]] else [])
  }

  /** Pointwise: the merged list of an identifier is the list of guilds
      whose map mentions it. */
  lemma {:induction false} MergeMissedAt(data: seq<map<string, seq<GuildId>>>, gids: seq<GuildId>, u: string)
    requires |gids| == |data|
    requires forall k :: 0 <= k < |data| && u in data[k] ==> data[k][u] == [gids[k]]
    ensures GuildsOf(MergeMissed(data), u) == Mentioning(data, gids, u)
    decreases |data|
  {
    if |data| > 0 {
      var n := |data| - 1;
      var front := data[..n];
      assert forall k :: 0 <= k < n ==> front[k] == data[k] && gids[..n][k] == gids[k];
      MergeMissedAt(front, gids[..n], u);
      var m := MergeMissed(front);
      assert MergeMissed(data) == MergeInto(m, data[n]);
      assert Mentioning(data, gids, u) == Mentioning(front, gids[..n], u) + (if u in data[n] then [gids[n]] else []);
      if u in MergeInto(m, data[n]) {
        assert MergeInto(m, data[n])[u] == GuildsOf(m, u) + GuildsOf(data[n], u);
      } else {
        assert u !in m && u !in data[n];
      }
    }
  }

  /** When guild `k` contributes a map whose entries are all `[gids[k]]`,
      the merge maps every identifier found anywhere to exactly the guilds
      whose history mentioned it, in guild order, and nothing else. */
  lemma MergeMissedCollectsGuilds(data: seq<map<string, seq<GuildId>>>, gids: seq<GuildId>)
    requires |gids| == |data|
    requires forall k, u :: 0 <= k < |data| && u in data[k] ==> data[k][u] == [gids[k]]
    ensures forall u :: u in MergeMissed(data) <==> exists k :: 0 <= k < |data| && u in data[k]
    ensures forall u :: u in MergeMissed(data) ==> MergeMissed(data)[u] == Mentioning(data, gids, u)
  {
    forall u
      ensures u in MergeMissed(data) ==> MergeMissed(data)[u] == Mentioning(data, gids, u)
    {
      MergeMissedAt(data, gids, u);
    }
  }

  /** `find_missed_user_ids()`: every guild's result, in order, then the
      merge; one failing guild fails the whole gather. */
  function FindMissedUserIds(perGuild: seq<Result<GuildScan, Fault>>): (r: Result<map<string, seq<GuildId>>, Fault>)
    ensures r.Err? <==> exists k :: 0 <= k < |perGuild| && perGuild[k].Err?
    ensures r.Ok? ==> r.value == MergeMissed(seq(|perGuild|, k requires 0 <= k < |perGuild| => perGuild[k].value.found))
    decreases |perGuild|
  {
    if |perGuild| == 0 then Ok(map[])
    else
      var n := |perGuild| - 1;
      match FindMissedUserIds(perGuild[..n])
      case Err(e) => Err(e)
      case Ok(m) =>
        match perGuild[n]
        case Err(e) => Err(e)
        case Ok(d) =>
          assert seq(n, k requires 0 <= k < n => perGuild[..n][k].value.found)
              == seq(|perGuild|, k requires 0 <= k < |perGuild| => perGuild[k].value.found)[..n];
          Ok(MergeInto(m, d.found))
  }

  /** A guild that has a row but no configured channel (as every guild is
      right after `on_guild_join`) fails the whole gather of
      `find_missed_user_ids`. */
  lemma UnconfiguredGuildFailsGather(st: Store, gids: seq<GuildId>, histories: seq<Option<seq<Option<Message>>>>, botId: int, k: nat)
    requires |histories| == |gids| && k < |gids|
    requires gids[k] in st.guilds && st.guilds[gids[k]].channel.None?
    ensures var perGuild := seq(|gids|, i requires 0 <= i < |gids| => MissedInGuild(st, gids[i], histories[i], botId));
            FindMissedUserIds(perGuild).Err?
  {
    var perGuild := seq(|gids|, i requires 0 <= i < |gids| => MissedInGuild(st, gids[i], histories[i], botId));
    assert perGuild[k].Err?;
  }

  // ---------------------------------------------------------------------
  // send_stats

  const NoPlayersText: string := "No players are being tracked."

  /** The statistics message: the fixed sentence for an empty table, else
      the banned and total counts (the percentage's formatting is not modelled). */
  datatype StatsMessage = Plain(text: string) | Share(banned: nat, total: nat)

  /** `send_stats(guild_id)`: the channel the reply is sent to and the reply. */
  datatype StatsReply = StatsReply(channel: Option<ChannelId>, message: StatsMessage)

  function SendStats(st: Store, gid: GuildId): (r: Result<StatsReply, Fault>)
    ensures gid !in st.guilds <==> r == Err(UnknownGuild)
    ensures r.Ok? ==> r.value.channel == st.guilds[gid].channel
    ensures r.Ok? ==> (|st.users| == 0 <==> r.value.message == Plain(NoPlayersText))
    ensures r.Ok? && r.value.message.Share? ==>
              && r.value.message.total == |st.users|
              && r.value.message.banned == |BannedIds(st)|
              && r.value.message.banned <= r.value.message.total
  {
    if gid !in st.guilds then Err(UnknownGuild)
    else
      var total := |st.users|;
      var banned := |BannedIds(st)|;
      assert BannedIds(st) <= st.users.Keys;
      SubsetCard(BannedIds(st), st.users.Keys);
      Ok(StatsReply(st.guilds[gid].channel, if total == 0 then Plain(NoPlayersText) else Share(banned, total)))
  }

  lemma SubsetCard<T>(a: set<T>, b: set<T>)
    requires a <= b
    ensures |a| <= |b|
  {
    if a != {} {
      var x :| x in a;
      SubsetCard(a - {x}, b - {x});
    }
  }
}
