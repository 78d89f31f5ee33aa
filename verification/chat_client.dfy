/** The single-connection chat client of `gt-twitch-chat-client.c`: a line
    parser that keeps the command and its parameters as text, PING answered
    with PONG, and channel join/part guarded by the connected flag. The
    socket, the worker thread and the main-loop source are not modelled:
    the source is present or absent, and when present it holds the queued
    messages. */
module ChatClient {
  import opened Wrappers
  import opened CStrings
  import opened Irc

  const PingCmd := "PING"
  const PongCmd := "PONG"
  const JoinCmd := "JOIN"
  const PartCmd := "PART"
  const PrivmsgCmd := "PRIVMSG"

  /** `GtTwitchChatMessage`: every field a possibly-NULL string. */
  datatype ChatMessage = ChatMessage(
    tags: Option<seq<string>>,
    nick: Option<string>,
    user: Option<string>,
    host: Option<string>,
    command: Option<string>,
    params: Option<string>)

  /** The text after a leading '@', and where parsing resumes: just past the
      first space, or NULL when there is none. */
  function AfterTags(line: string): (r: Option<string>)
    requires |line| > 0
    ensures r.None? <==> NoneIn(line[1..], {' '})
    ensures r.Some? ==> exists t :: NoneIn(t, {' '}) && line[1..] == t + " " + r.value
  {
    var (t, rest) := StrSep(Some(line[1..]), {' '});
    if rest.Some? then
      assert line[1..] == t.value + " " + rest.value;
      rest
    else rest
  }

  /** `parse_line`. Unlike the IRC client, a leading '@' makes the WHOLE
      remainder of the line the tag text. A tagged line without a space
      leaves the line pointer NULL and the C code then dereferences it:
      `None`. The prefix is split as in the IRC client; the command is the
      next space-delimited token and the parameters are the verbatim rest. */
  function ParseClientLine(line: string): (r: Option<ChatMessage>)
    ensures (|line| == 0 || line[0] != '@') ==> r.Some? && r.value.tags.None?
    ensures |line| > 0 && line[0] == '@' ==>
              (r.Some? <==> !NoneIn(line[1..], {' '}))
              && (r.Some? ==> r.value.tags == Some(SplitSet(line[1..], TagDelims)))
    ensures r.Some? && r.value.command.None? ==> r.value.params.None?
    ensures r.Some? && r.value.params.Some? ==> NoneIn(r.value.command.value, {' '})
  {
    var tagged := |line| > 0 && line[0] == '@';
    var tags := if tagged then Some(SplitSet(line[1..], TagDelims)) else None;
    var rest := if tagged then AfterTags(line) else Some(line);
    if rest.None? then None
    else
      var (nick, user, host, p) := SplitPrefix(rest.value);
      var (command, params) := StrSep(p, {' '});
      Some(ChatMessage(tags, nick, user, host, command, params))
  }

  /** A plain command line: the command is the text up to the first space
      and the parameters everything after it, spaces included. */
  lemma ClientCommandLine(cmd: string, params: string)
    requires NoneIn(cmd, {' '})
    requires |cmd| == 0 || (cmd[0] != '@' && cmd[0] != ':')
    ensures ParseClientLine(cmd + " " + params)
            == Some(ChatMessage(None, None, None, None, Some(cmd), Some(params)))
  {
    var line := cmd + " " + params;
    assert line == cmd + [' '] + params;
    assert |line| > 0 && line[0] != '@' && line[0] != ':' by {
      if |cmd| == 0 { assert line[0] == ' '; } else { assert line[0] == cmd[0]; }
    }
    StrSepAfter(cmd, ' ', params, {' '});
  }

  /** `k=v` splits into the key and the value. */
  lemma TagPair(k: string, v: string)
    requires NoneIn(k, TagDelims) && NoneIn(v, TagDelims)
    ensures SplitSet(k + "=" + v, TagDelims) == [k, v]
  {
    assert k + "=" + v == k + ['='] + v;
    PiecesAfter(k, '=', v, TagDelims);
  }

  /** The tag text runs to the end of the line: for `@k=v rest` the last tag
      value is `v`, the space and the whole rest of the message, where the
      IRC client stops at the space. */
  lemma ClientTagsSwallowRest(k: string, v: string, rest: string)
    requires NoneIn(k, {';', '=', ' '}) && NoneIn(v, {';', '=', ' '})
    requires NoneIn(rest, TagDelims)
    ensures ParseClientLine("@" + k + "=" + v + " " + rest).Some?
    ensures ParseClientLine("@" + k + "=" + v + " " + rest).value.tags == Some([k, v + " " + rest])
    ensures SplitTags("@" + k + "=" + v + " " + rest).0 == Some([k, v])
  {
    var line := "@" + k + "=" + v + " " + rest;
    var t := k + "=" + v;
    var vr := v + " " + rest;
    assert NoneIn(k, TagDelims) && NoneIn(v, TagDelims);
    assert NoneIn(vr, TagDelims) by {
      NoneInConcat(v, " ", TagDelims);
      NoneInConcat(v + " ", rest, TagDelims);
    }
    assert NoneIn(t, {' '}) by {
      NoneInConcat(k, "=", {' '});
      NoneInConcat(k + "=", v, {' '});
    }
    assert line[1..] == t + " " + rest;
    assert line[1..] == k + "=" + vr;
    TagPair(k, vr);
    assert !NoneIn(line[1..], {' '}) by {
      assert line[1..][|t|] == ' ';
    }
    assert line == "@" + t + " " + rest;
    TagsFirstToken(t, rest);
    TagPair(k, v);
  }

  /** `parse_line` as evidently intended: only the first space-delimited
      token after '@' is split into tags, as the IRC client does; everything
      else is parsed as in `ParseClientLine`. */
  function ParseClientLineIntended(line: string): (r: Option<ChatMessage>)
    ensures r.Some? <==> ParseClientLine(line).Some?
    ensures r.Some? ==> r.value == ParseClientLine(line).value.(tags := SplitTags(line).0)
  {
    var (tags, rest) := SplitTags(line);
    if rest.None? then None
    else
      var (nick, user, host, p) := SplitPrefix(rest.value);
      var (command, params) := StrSep(p, {' '});
      Some(ChatMessage(tags, nick, user, host, command, params))
  }

  /** With the intended split, `@k=v rest` carries exactly the tag `k=v`,
      and the rest of the line is parsed as the message. */
  lemma ClientTagsIntended(k: string, v: string, rest: string)
    requires NoneIn(k, {';', '=', ' '}) && NoneIn(v, {';', '=', ' '})
    ensures var r := ParseClientLineIntended("@" + k + "=" + v + " " + rest);
            r.Some? && r.value.tags == Some([k, v])
  {
    var t := k + "=" + v;
    assert NoneIn(t, {' '}) by {
      NoneInConcat(k, "=", {' '});
      NoneInConcat(k + "=", v, {' '});
    }
    assert "@" + k + "=" + v + " " + rest == "@" + t + " " + rest;
    TagsFirstToken(t, rest);
    TagPair(k, v);
  }

  /** The client's own state: the connected flag, the current channel and
      the main-loop source, which queues messages while it exists. */
  datatype Client = Client(connected: bool, curChan: Option<string>, source: Option<seq<ChatMessage>>)

  /** A transition's new state and the lines it wrote to the socket. */
  datatype Out = Out(client: Client, sent: seq<string>)

  /** `handle_message`: PING (compared with `g_strcmp0`, so a NULL command
      is not PING) is answered with `PONG <params>` and never queued; any
      other message is queued when a source exists and dropped otherwise. */
  function HandleClientMessage(c: Client, m: ChatMessage): (r: Out)
    ensures m.command == Some(PingCmd) ==> r == Out(c, [CmdText(PongCmd, m.params)])
    ensures m.command != Some(PingCmd) ==> r.sent == [] && r.client.connected == c.connected
                                            && r.client.curChan == c.curChan
    ensures m.command != Some(PingCmd) && c.source.Some? ==> r.client.source == Some(c.source.value + [m])
    ensures c.source.None? ==> r.client == c
  {
    if StrCmp0(m.command, Some(PingCmd)) == 0 then Out(c, [CmdText(PongCmd, m.params)])
    else if c.source.Some? then Out(c.(source := Some(c.source.value + [m])), [])
    else Out(c, [])
  }

  /** A server PING is answered with its parameters echoed verbatim, and
      nothing is queued. */
  lemma ClientPingPong(c: Client, params: string)
    ensures var m := ParseClientLine(PingCmd + " " + params);
            m.Some? && HandleClientMessage(c, m.value) == Out(c, ["PONG " + params + CrLf])
  {
    ClientCommandLine(PingCmd, params);
    assert CmdText(PongCmd, Some(params)) == "PONG " + params + CrLf;
  }

  /** `gt_twitch_chat_client_part`: nothing while disconnected; otherwise
      PART for the current channel if there is one, and afterwards no
      current channel and no source. */
  function PartClient(c: Client): (r: Out)
    ensures !c.connected ==> r == Out(c, [])
    ensures c.connected ==> r.client == Client(true, None, None)
    ensures c.connected && c.curChan.Some? ==> r.sent == [CmdText(PartCmd, c.curChan)]
    ensures c.curChan.None? ==> r.sent == []
  {
    if !c.connected then Out(c, [])
    else
      var sent := if c.curChan.Some? then [CmdText(PartCmd, c.curChan)] else [];
      Out(c.(curChan := None, source := None), sent)
  }

  /** `gt_twitch_chat_client_join`: nothing while disconnected; otherwise
      part, create a fresh source, and send JOIN with the channel
      '#'-prefixed unless it already is, recording that name as current. */
  function JoinClient(c: Client, channel: string): (r: Out)
    ensures !c.connected ==> r == Out(c, [])
    ensures c.connected ==> r.client == Client(true, Some(HashName(channel)), Some([]))
    ensures c.connected ==> r.sent == PartClient(c).sent + [CmdText(JoinCmd, Some(HashName(channel)))]
  {
    if !c.connected then Out(c, [])
    else
      var p := PartClient(c);
      var chan := HashName(channel);
      Out(p.client.(source := Some([]), curChan := Some(chan)), p.sent + [CmdText(JoinCmd, Some(chan))])
  }

  /** Joining a second channel parts the first one before joining, and the
      messages queued for the first channel are dropped with its source. */
  lemma JoinSwitchesChannel(c: Client, first: string, second: string)
    requires c.connected
    ensures var j1 := JoinClient(c, first).client;
            var j2 := JoinClient(j1, second);
            j2.sent == ["PART " + HashName(first) + CrLf, "JOIN " + HashName(second) + CrLf]
            && j2.client.curChan == Some(HashName(second)) && j2.client.source == Some([])
  {
    var j1 := JoinClient(c, first).client;
    assert j1.curChan == Some(HashName(first));
    assert PartClient(j1).sent == [CmdText(PartCmd, Some(HashName(first)))];
    assert CmdText(PartCmd, Some(HashName(first))) == "PART " + HashName(first) + CrLf;
    assert CmdText(JoinCmd, Some(HashName(second))) == "JOIN " + HashName(second) + CrLf;
  }

  /** After a part nothing is queued any more until the next join. */
  lemma PartStopsQueueing(c: Client, m: ChatMessage)
    requires c.connected
    ensures var p := PartClient(c).client;
            HandleClientMessage(p, m).client == p
  {
  }
}
