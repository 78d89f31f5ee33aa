/** The Twitch IRC client of `src/gt-irc.c`: command and reply
    classification, the line parser for the message format of section 2.3.1
    of RFC 2812 (optional `@tags`, optional `:prefix`, command, parameters),
    and the connection state machine driven by the two sockets' readers.

    Sockets, worker threads and the mutex are not modelled: every reader
    step is one sequential call on an immutable connection record, and the
    lines written to the sockets are returned.
 */
module Irc {
  import opened Wrappers
  import opened CStrings
  import opened Emotes

  const CrLf := "\r\n"

  // ---------------------------------------------------------------------
  // Classification

  /** The commands the client distinguishes; `Reply` covers every numeric
      command. */
  datatype Command =
    | Reply | Notice | Privmsg | Cap | Join | Part | Ping
    | Userstate | Roomstate | ChannelMode | Clearchat

  predicate AllDigits(s: string) {
    forall i :: 0 <= i < |s| ==> IsDigit(s[i])
  }

  /** `str_is_numeric`: scans until the terminating NUL and fails at the
      first non-digit, so the empty string counts as numeric. */
  method StrIsNumeric(s: string) returns (r: bool)
    ensures r <==> AllDigits(s)
    ensures |s| == 0 ==> r
  {
    var i := 0;
    while i < |s|
      invariant 0 <= i <= |s|
      invariant forall k :: 0 <= k < i ==> IsDigit(s[k])
    {
      if !IsDigit(s[i]) {
        return false;
      }
      i := i + 1;
    }
    return true;
  }

  /** The command names of the string table. */
  const CommandNames: set<string> :=
    {"NOTICE", "PRIVMSG", "CAP", "JOIN", "PART", "PING", "USERSTATE", "ROOMSTATE", "MODE", "CLEARCHAT"}

  /** `chat_cmd_str_to_enum`; `None` stands for -1. Any all-digit text (the
      empty text included) is a reply, each name of the table maps to its
      own command, and everything else is unknown. */
  function CommandOf(s: string): (r: Option<Command>)
    ensures AllDigits(s) <==> r == Some(Reply)
    ensures r.None? <==> !AllDigits(s) && s !in CommandNames
    ensures |s| == 0 ==> r == Some(Reply)
  {
    if AllDigits(s) then Some(Reply)
    else if s == "NOTICE" then Some(Notice)
    else if s == "PRIVMSG" then Some(Privmsg)
    else if s == "CAP" then Some(Cap)
    else if s == "JOIN" then Some(Join)
    else if s == "PART" then Some(Part)
    else if s == "PING" then Some(Ping)
    else if s == "USERSTATE" then Some(Userstate)
    else if s == "ROOMSTATE" then Some(Roomstate)
    else if s == "MODE" then Some(ChannelMode)
    else if s == "CLEARCHAT" then Some(Clearchat)
    else None
  }

  /** `chat_cmd_enum_to_str`: the table name of every command except
      `Reply`, which has none. Names and commands are in one-to-one
      correspondence: classifying a name gives back its command. */
  function CommandName(c: Command): (r: Option<string>)
    ensures r.None? <==> c == Reply
    ensures r.Some? ==> r.value in CommandNames && CommandOf(r.value) == Some(c)
  {
    NamesNotNumeric();
    match c
    case Reply => None
    case Notice => Some("NOTICE")
    case Privmsg => Some("PRIVMSG")
    case Cap => Some("CAP")
    case Join => Some("JOIN")
    case Part => Some("PART")
    case Ping => Some("PING")
    case Userstate => Some("USERSTATE")
    case Roomstate => Some("ROOMSTATE")
    case ChannelMode => Some("MODE")
    case Clearchat => Some("CLEARCHAT")
  }

  lemma NamesNotNumeric()
    ensures forall s :: s in CommandNames ==> !AllDigits(s)
  {
    forall s | s in CommandNames
      ensures !AllDigits(s)
    {
      assert !IsDigit(s[0]);
    }
  }

  /** Every named command text survives a round trip through the enum. */
  lemma CommandRoundTrip(s: string)
    requires s in CommandNames
    ensures CommandOf(s).Some? && CommandName(CommandOf(s).value) == Some(s)
  {
    assert !AllDigits(s) by {
      assert !IsDigit(s[0]);
    }
  }

  // Numeric reply codes of `GtChatReplyType`.
  const RplWelcome := 1
  const RplYourHost := 2
  const RplCreated := 3
  const RplMyInfo := 4
  const RplMotdStart := 375
  const RplMotd := 372
  const RplEndOfMotd := 376
  const RplNameReply := 353
  const RplEndOfNames := 366

  const KnownReplies: set<nat> :=
    {RplWelcome, RplYourHost, RplCreated, RplMyInfo, RplMotdStart, RplMotd, RplEndOfMotd, RplNameReply, RplEndOfNames}

  /** A reply code written as the three digits of an IRC numeric. */
  function ReplyText(code: nat): (s: string)
    requires code < 1000
    ensures |s| == 3 && AllDigits(s)
  {
    [DigitChar(code / 100), DigitChar(code / 10 % 10), DigitChar(code % 10)]
  }

  /** `chat_reply_str_to_enum`: the code of a known three-digit numeric,
      -1 for any other text. */
  function ReplyOf(s: string): (r: int)
    ensures r == -1 || r in KnownReplies
    ensures r != -1 ==> s == ReplyText(r)
  {
    if s == "001" then RplWelcome
    else if s == "002" then RplYourHost
    else if s == "003" then RplCreated
    else if s == "004" then RplMyInfo
    else if s == "375" then RplMotdStart
    else if s == "372" then RplMotd
    else if s == "376" then RplEndOfMotd
    else if s == "353" then RplNameReply
    else if s == "366" then RplEndOfNames
    else -1
  }

  /** Every known code is read back from its three digits. */
  lemma ReplyOfReplyText(c: nat)
    requires c in KnownReplies
    ensures ReplyOf(ReplyText(c)) == c
  {
    if c == RplWelcome { assert ReplyText(c) == "001"; }
    else if c == RplYourHost { assert ReplyText(c) == "002"; }
    else if c == RplCreated { assert ReplyText(c) == "003"; }
    else if c == RplMyInfo { assert ReplyText(c) == "004"; }
    else if c == RplMotdStart { assert ReplyText(c) == "375"; }
    else if c == RplMotd { assert ReplyText(c) == "372"; }
    else if c == RplEndOfMotd { assert ReplyText(c) == "376"; }
    else if c == RplNameReply { assert ReplyText(c) == "353"; }
    else { assert ReplyText(c) == "366"; }
  }

  // ---------------------------------------------------------------------
  // Messages

  /** Chat privileges carried by the PRIVMSG tags. */
  datatype UserMode = Subscriber | Turbo | Mod | GlobalMod | Admin | Staff | Broadcaster

  /** A `name/version` badge reference from the `badges` tag; the version
      is NULL when the piece has no '/'. */
  datatype BadgeRef = BadgeRef(name: string, version: Option<string>)

  /** The command-specific part of a parsed message. */
  datatype Body =
    | ReplyBody(replyType: int, reply: Option<string>)
    | PingBody(server: Option<string>)
    | PrivmsgBody(target: Option<string>, text: string, userModes: set<UserMode>,
                  badges: seq<BadgeRef>, colour: Option<string>, displayName: Option<string>,
                  emotes: seq<Emote>)
    | NoticeBody(target: Option<string>, notice: Option<string>)
    | JoinBody(joined: Option<string>)
    | PartBody(parted: Option<string>)
    | CapBody(capTarget: Option<string>, subCommand: Option<string>, parameter: Option<string>)
    | ModeBody(modeChannel: Option<string>, modes: Option<string>, modeNick: Option<string>)
    | UserstateBody(userstateChannel: Option<string>)
    | RoomstateBody(roomstateChannel: Option<string>)
    | ClearchatBody(clearedChannel: Option<string>, clearedTarget: Option<string>)
    | NoBody

  datatype Message = Message(
    tags: Option<seq<string>>,
    nick: Option<string>,
    user: Option<string>,
    host: Option<string>,
    command: Option<Command>,
    body: Body)

  const TagDelims: set<char> := {';', '='}

  /** `key` is the key of a whole (key, value) pair starting at `i`. */
  predicate PairKeyAt(kv: seq<string>, key: string, i: int) {
    0 <= i < |kv| - 1 && i % 2 == 0 && kv[i] == key
  }

  /** No whole pair starting before position `n` has key `key`. */
  predicate NoPairKeyBefore(kv: seq<string>, key: string, n: int) {
    forall i :: 0 <= i < n ==> !PairKeyAt(kv, key, i)
  }

  /** The value following `key` in a flat key/value tag list, scanning the
      (key, value) pairs in order: keys sit at even positions, and the first
      pair whose key matches wins. A trailing key without a value is never
      found. */
  function LookupTag(kv: seq<string>, key: string): (r: Option<string>)
    ensures r.None? <==> NoPairKeyBefore(kv, key, |kv|)
    ensures r.Some? ==> exists i :: PairKeyAt(kv, key, i) && kv[i + 1] == r.value && NoPairKeyBefore(kv, key, i)
    decreases |kv|
  {
    if |kv| < 2 then None
    else if kv[0] == key then
      assert PairKeyAt(kv, key, 0);
      Some(kv[1])
    else
      var r := LookupTag(kv[2..], key);
      if r.Some? then
        FirstPairPastFirst(kv, key, r.value);
        r
      else
        KeysPastFirstPair(kv, key, |kv| - 2);
        r
  }

  /** A key absent from the pairs starting before `n` in the list after
      the first pair, and not the first pair's key, is absent from the
      pairs starting before `n + 2` in the whole list. */
  lemma KeysPastFirstPair(kv: seq<string>, key: string, n: int)
    requires |kv| >= 2 && kv[0] != key
    requires NoPairKeyBefore(kv[2..], key, n)
    ensures NoPairKeyBefore(kv, key, n + 2)
  {
    forall j | 0 <= j < n + 2
      ensures !PairKeyAt(kv, key, j)
    {
      if 2 <= j < |kv| {
        assert kv[j] == kv[2..][j - 2];
        assert !PairKeyAt(kv[2..], key, j - 2);
      }
    }
  }

  /** The first matching pair of the list after the first pair, shifted
      by two, is the first matching pair of the whole list when the first
      pair's key differs. */
  lemma FirstPairPastFirst(kv: seq<string>, key: string, v: string)
    requires |kv| >= 2 && kv[0] != key
    requires exists i :: PairKeyAt(kv[2..], key, i) && kv[2..][i + 1] == v && NoPairKeyBefore(kv[2..], key, i)
    ensures exists i :: PairKeyAt(kv, key, i) && kv[i + 1] == v && NoPairKeyBefore(kv, key, i)
  {
    var i :| PairKeyAt(kv[2..], key, i) && kv[2..][i + 1] == v && NoPairKeyBefore(kv[2..], key, i);
    assert PairKeyAt(kv, key, i + 2) && kv[i + 3] == v;
    KeysPastFirstPair(kv, key, i);
  }

  /** Looking up in two tag lists laid end to end, the first made of whole
      pairs, finds the first list's value when it has one and otherwise
      the second's. */
  lemma {:induction false} LookupTagConcat(a: seq<string>, b: seq<string>, key: string)
    requires |a| % 2 == 0
    ensures LookupTag(a + b, key) == if LookupTag(a, key).Some? then LookupTag(a, key) else LookupTag(b, key)
    decreases |a|
  {
    if |a| == 0 {
      assert a + b == b;
    } else {
      assert (a + b)[2..] == a[2..] + b;
      LookupTagConcat(a[2..], b, key);
    }
  }

  /** The leading `@tags` token: only the text up to the first space is
      split on ';' and '='; parsing resumes after that space (NULL when
      there is none). */
  function SplitTags(line: string): (r: (Option<seq<string>>, Option<string>))
    ensures (|line| == 0 || line[0] != '@') ==> r == (None, Some(line))
    ensures |line| > 0 && line[0] == '@' ==> r.0.Some?
  {
    if |line| > 0 && line[0] == '@' then
      var (tok, rest) := StrSep(Some(line[1..]), {' '});
      (Some(SplitSet(tok.value, TagDelims)), rest)
    else
      (None, Some(line))
  }

  /** Only the first space-delimited token is taken as tags; the rest of the
      line is left for the prefix and command. */
  lemma TagsFirstToken(t: string, rest: string)
    requires NoneIn(t, {' '})
    ensures SplitTags("@" + t + " " + rest) == (Some(SplitSet(t, TagDelims)), Some(rest))
  {
    var line := "@" + t + " " + rest;
    assert line[1..] == t + [' '] + rest;
    StrSepAfter(t, ' ', rest, {' '});
  }

  /** The `nick!user@host` prefix (without its ':'): the nick is the text
      before the first '!' when there is one, then the user the text before
      the first '@' of what is left when there is one, and the host is the
      remainder. */
  function ParsePrefix(prefix: string): (r: (Option<string>, Option<string>, Option<string>))
    ensures r.2.Some?
    ensures NoneIn(prefix, {'!', '@'}) ==> r == (None, None, Some(prefix))
  {
    var (nick, p1) := if !NoneIn(prefix, {'!'}) then StrSep(Some(prefix), {'!'}) else (None, Some(prefix));
    var afterNick := p1.value;
    var (user, p2) := if !NoneIn(afterNick, {'@'}) then StrSep(p1, {'@'}) else (None, p1);
    (nick, user, p2)
  }

  /** `:a!b@c` gives nick a, user b and host c. */
  lemma PrefixFull(a: string, b: string, c: string)
    requires NoneIn(a, {'!'}) && NoneIn(b, {'@'})
    ensures ParsePrefix(a + "!" + b + "@" + c) == (Some(a), Some(b), Some(c))
  {
    var p := a + "!" + b + "@" + c;
    assert p == a + ['!'] + (b + "@" + c);
    assert p[|a|] == '!';
    StrSepAfter(a, '!', b + "@" + c, {'!'});
    var q := b + "@" + c;
    assert q == b + ['@'] + c;
    assert q[|b|] == '@';
    StrSepAfter(b, '@', c, {'@'});
  }

  /** The optional `:prefix` token; parsing resumes after the following
      space (NULL when there is none). */
  function SplitPrefix(p: string): (r: (Option<string>, Option<string>, Option<string>, Option<string>))
    ensures (|p| == 0 || p[0] != ':') ==> r == (None, None, None, Some(p))
  {
    if |p| > 0 && p[0] == ':' then
      var (pre, rest) := StrSep(Some(p[1..]), {' '});
      var (n, u, h) := ParsePrefix(pre.value);
      (n, u, h, rest)
    else
      (None, None, None, Some(p))
  }

  lemma PrefixToken(pre: string, rest: string)
    requires NoneIn(pre, {' '})
    ensures SplitPrefix(":" + pre + " " + rest)
            == (ParsePrefix(pre).0, ParsePrefix(pre).1, ParsePrefix(pre).2, Some(rest))
  {
    var p := ":" + pre + " " + rest;
    assert p[1..] == pre + [' '] + rest;
    StrSepAfter(pre, ' ', rest, {' '});
  }

  /** A CTCP message (`\001WORD text\001`) loses its first word and its
      final character; a CTCP message without a space makes the C code take
      `strlen(NULL)`, modelled as `None`. */
  function StripCtcp(text: string): (r: Option<string>)
    ensures (|text| == 0 || text[0] != '\U{0001}') ==> r == Some(text)
  {
    if |text| > 0 && text[0] == '\U{0001}' then
      var (_, rest) := StrSep(Some(text), {' '});
      if rest.None? then None
      else
        var m := rest.value;
        Some(if |m| > 0 then m[..|m| - 1] else m)
    else Some(text)
  }

  /** `\001ACTION waves\001` becomes `waves`. */
  lemma CtcpAction(word: string, m: string)
    requires NoneIn(word, {' '})
    ensures StripCtcp("\U{0001}" + word + " " + m + "\U{0001}") == Some(m)
  {
    var t := "\U{0001}" + word + " " + m + "\U{0001}";
    assert t == ("\U{0001}" + word) + [' '] + (m + "\U{0001}");
    assert NoneIn("\U{0001}" + word, {' '});
    StrSepAfter("\U{0001}" + word, ' ', m + "\U{0001}", {' '});
    assert (m + "\U{0001}")[..|m|] == m;
  }

  /** The privilege modes set by the tags: subscriber and turbo set
      independent bits, user-type at most one of MOD, GLOBAL_MOD, ADMIN,
      STAFF (first match wins). */
  function UserTypeMode(userType: Option<string>): (r: set<UserMode>)
    ensures r == {} || r == {Mod} || r == {GlobalMod} || r == {Admin} || r == {Staff}
    ensures userType == Some("mod") <==> r == {Mod}
    ensures userType.None? ==> r == {}
  {
    if userType == Some("mod") then {Mod}
    else if userType == Some("global_mod") then {GlobalMod}
    else if userType == Some("admin") then {Admin}
    else if userType == Some("staff") then {Staff}
    else {}
  }

  function FlagMode(flag: string, m: UserMode): (r: set<UserMode>)
    ensures r == {} || r == {m}
  {
    if Atoi(flag) != 0 then {m} else {}
  }

  /** One `name/version` piece of the badges tag; an empty piece splits into
      an empty vector whose second element the C code reads out of bounds,
      modelled as `None`. */
  function ParseBadge(piece: string): (r: Option<BadgeRef>)
    ensures r.Some? <==> |piece| > 0
  {
    var v := SplitSet(piece, {'/'});
    if |v| == 0 then None
    else Some(BadgeRef(v[0], if |v| > 1 then Some(v[1]) else None))
  }

  function ParseBadges(pieces: seq<string>): (r: Option<seq<BadgeRef>>)
    ensures r.Some? ==> |r.value| == |pieces|
  {
    if |pieces| == 0 then Some([])
    else
      var b :- ParseBadge(pieces[0]);
      var rest :- ParseBadges(pieces[1..]);
      Some([b] + rest)
  }

  /** The PRIVMSG parameters: the target, then the text after the first
      ':'. Without tags nothing else is read. With tags the subscriber,
      turbo and badges tags must be present (the C code calls `atoi(NULL)`
      or asserts otherwise), and the emotes are sorted by start. */
  function ParsePrivmsg(tags: Option<seq<string>>, p: Option<string>): (r: Option<Body>)
    ensures r.Some? ==> r.value.PrivmsgBody?
    ensures r.Some? && tags.None? ==> r.value.userModes == {} && r.value.emotes == []
    ensures r.Some? ==> SortedByStart(r.value.emotes)
  {
    var (target, p1) := StrSep(p, {' '});
    var (_, p2) := StrSep(p1, {':'});
    if p2.None? then None
    else
      var text :- StripCtcp(p2.value);
      if tags.None? then
        Some(PrivmsgBody(target, text, {}, [], None, None, []))
      else
        var kv := tags.value;
        var subscriber :- LookupTag(kv, "subscriber");
        var turbo :- LookupTag(kv, "turbo");
        var modes := FlagMode(subscriber, Subscriber) + FlagMode(turbo, Turbo)
                     + UserTypeMode(LookupTag(kv, "user-type"));
        var badgesText :- LookupTag(kv, "badges");
        var badges :- ParseBadges(SplitSet(badgesText, {','}));
        var emotes :- ParseEmoteTag(LookupTag(kv, "emotes"));
        Some(PrivmsgBody(target, text, modes, badges, LookupTag(kv, "color"),
                         LookupTag(kv, "display-name"), SortByStart(emotes)))
  }

  /** The parameters of each command, read with successive `strsep` calls. */
  function ParseBody(command: Option<Command>, cmd: string, tags: Option<seq<string>>, p: Option<string>): (r: Option<Body>)
    ensures command == Some(Reply) ==> r == Some(ReplyBody(ReplyOf(cmd), p))
    ensures command == Some(Ping) ==> r == Some(PingBody(p))
    ensures command.None? ==> r == Some(NoBody)
  {
    match command
    case None => Some(NoBody)
    case Some(Reply) => Some(ReplyBody(ReplyOf(cmd), p))
    case Some(Ping) => Some(PingBody(p))
    case Some(Privmsg) => ParsePrivmsg(tags, p)
    case Some(Notice) =>
      var (target, p1) := StrSep(p, {' '});
      var (_, p2) := StrSep(p1, {':'});
      Some(NoticeBody(target, StrSep(p2, {':'}).0))
    case Some(Join) => Some(JoinBody(StrSep(p, {' '}).0))
    case Some(Part) => Some(PartBody(StrSep(p, {' '}).0))
    case Some(Cap) =>
      var (target, p1) := StrSep(p, {' '});
      var (sub, p2) := StrSep(p1, {' '});
      Some(CapBody(target, sub, StrSep(p2, {' '}).0))
    case Some(ChannelMode) =>
      var (channel, p1) := StrSep(p, {' '});
      var (modes, p2) := StrSep(p1, {' '});
      Some(ModeBody(channel, modes, StrSep(p2, {' '}).0))
    case Some(Userstate) => Some(UserstateBody(StrSep(p, {' '}).0))
    case Some(Roomstate) => Some(RoomstateBody(StrSep(p, {' '}).0))
    case Some(Clearchat) =>
      var (channel, p1) := StrSep(p, {' '});
      var (_, p2) := StrSep(p1, {':'});
      Some(ClearchatBody(channel, StrSep(p2, {':'}).0))
  }

  /** `parse_line`: tags, prefix, command, then the command's parameters.
      `None` marks the lines on which the C code dereferences NULL: tags or
      a prefix with nothing after them, or a PRIVMSG without ':'. */
  function ParseLine(line: string): (r: Option<Message>)
    ensures r.Some? ==> r.value.tags == SplitTags(line).0
    ensures r.Some? && r.value.command == Some(Reply) ==> r.value.body.ReplyBody?
    ensures r.Some? && r.value.command == Some(Ping) ==> r.value.body.PingBody?
  {
    var (tags, p0) := SplitTags(line);
    if p0.None? then None
    else
      var (nick, user, host, p1) := SplitPrefix(p0.value);
      var (cmd, p2) := StrSep(p1, {' '});
      if cmd.None? then None
      else
        var command := CommandOf(cmd.value);
        var body :- ParseBody(command, cmd.value, tags, p2);
        Some(Message(tags, nick, user, host, command, body))
  }

  /** A server PING: the whole rest of the line is kept as the server
      parameter. */
  lemma ParsePing(server: string)
    ensures ParseLine("PING " + server)
            == Some(Message(None, None, None, None, Some(Ping), PingBody(Some(server))))
  {
    var line := "PING " + server;
    assert line == "PING" + [' '] + server;
    StrSepAfter("PING", ' ', server, {' '});
  }

  /** A numeric reply from a server prefix: command Reply, the reply code
      of the numeric, and the rest of the line as its text. */
  lemma ParseNumeric(server: string, code: nat, rest: string)
    requires NoneIn(server, {' ', '!', '@'})
    requires code in KnownReplies
    ensures ParseLine(":" + server + " " + ReplyText(code) + " " + rest)
            == Some(Message(None, None, None, Some(server), Some(Reply), ReplyBody(code, Some(rest))))
  {
    var num := ReplyText(code);
    var after := num + " " + rest;
    var line := ":" + server + " " + num + " " + rest;
    assert line == ":" + server + " " + after;
    assert SplitTags(line) == (None, Some(line));
    assert NoneIn(server, {' '});
    PrefixToken(server, after);
    assert ParsePrefix(server) == (None, None, Some(server));
    assert SplitPrefix(line) == (None, None, Some(server), Some(after));
    assert after == num + [' '] + rest;
    assert NoneIn(num, {' '}) by {
      assert forall i :: 0 <= i < |num| ==> IsDigit(num[i]);
    }
    StrSepAfter(num, ' ', rest, {' '});
    assert CommandOf(num) == Some(Reply);
    ReplyOfReplyText(code);
  }

  /** A PRIVMSG's parameters without tags: the target, then the text after
      the first ':'. */
  lemma PrivmsgParams(target: string, text: string)
    requires NoneIn(target, {' '})
    requires |text| == 0 || text[0] != '\U{0001}'
    ensures ParsePrivmsg(None, Some(target + " :" + text))
            == Some(PrivmsgBody(Some(target), text, {}, [], None, None, []))
    ensures ParseBody(Some(Privmsg), "PRIVMSG", None, Some(target + " :" + text))
            == Some(PrivmsgBody(Some(target), text, {}, [], None, None, []))
  {
    var params := target + " :" + text;
    assert params == target + [' '] + (":" + text);
    StrSepAfter(target, ' ', ":" + text, {' '});
    assert ":" + text == "" + [':'] + text;
    StrSepAfter("", ':', text, {':'});
  }

  /** A line `:prefix rest` without tags: the prefix is split off and
      `rest` is what the command is read from. */
  lemma PrefixLine(line: string, pre: string, rest: string)
    requires line == ":" + pre + " " + rest
    requires NoneIn(pre, {' '})
    ensures |line| > 0 && line[0] != '@'
    ensures SplitPrefix(line) == (ParsePrefix(pre).0, ParsePrefix(pre).1, ParsePrefix(pre).2, Some(rest))
  {
    PrefixToken(pre, rest);
  }

  /** The command token is everything up to the first space. */
  lemma CommandToken(rest: string, cmd: string, params: string)
    requires rest == cmd + " " + params
    requires NoneIn(cmd, {' '})
    ensures StrSep(Some(rest), {' '}) == (Some(cmd), Some(params))
  {
    assert rest == cmd + [' '] + params;
    StrSepAfter(cmd, ' ', params, {' '});
  }

  /** A PRIVMSG without tags: the target is the first parameter and the
      message the text after the first ':'. */
  lemma ParsePlainPrivmsg(line: string, pre: string, target: string, text: string)
    requires line == ":" + pre + " " + ("PRIVMSG " + (target + " :" + text))
    requires NoneIn(pre, {' '}) && NoneIn(target, {' '})
    requires |text| == 0 || text[0] != '\U{0001}'
    ensures ParseLine(line)
            == Some(Message(None, ParsePrefix(pre).0, ParsePrefix(pre).1, ParsePrefix(pre).2,
                            Some(Privmsg), PrivmsgBody(Some(target), text, {}, [], None, None, [])))
  {
    var params := target + " :" + text;
    var after := "PRIVMSG " + params;
    var body := PrivmsgBody(Some(target), text, {}, [], None, None, []);
    var pp := ParsePrefix(pre);
    PrefixLine(line, pre, after);
    CommandToken(after, "PRIVMSG", params);
    PrivmsgParams(target, text);
    PrivmsgLineUntagged(line, pp.0, pp.1, pp.2, after, params, body);
  }

  lemma PrivmsgCommand()
    ensures CommandOf("PRIVMSG") == Some(Privmsg)
  {
    assert !IsDigit("PRIVMSG"[0]);
  }

  /** `ParseLine` on an untagged PRIVMSG line, once its pieces are known. */
  lemma PrivmsgLineUntagged(line: string, n: Option<string>, u: Option<string>, h: Option<string>,
                            after: string, params: string, body: Body)
    requires |line| > 0 && line[0] != '@'
    requires SplitPrefix(line) == (n, u, h, Some(after))
    requires StrSep(Some(after), {' '}) == (Some("PRIVMSG"), Some(params))
    requires ParseBody(Some(Privmsg), "PRIVMSG", None, Some(params)) == Some(body)
    ensures ParseLine(line) == Some(Message(None, n, u, h, Some(Privmsg), body))
  {
    PrivmsgCommand();
    ParseLineUntagged(line, n, u, h, after, "PRIVMSG", Some(params), Some(Privmsg), body);
  }

  /** `ParseLine` on a line without tags, once the prefix, the command
      token and the command's parameters are known. */
  lemma ParseLineUntagged(line: string, n: Option<string>, u: Option<string>, h: Option<string>,
                          after: string, cmd: string, p: Option<string>, command: Option<Command>, body: Body)
    requires |line| == 0 || line[0] != '@'
    requires SplitPrefix(line) == (n, u, h, Some(after))
    requires StrSep(Some(after), {' '}) == (Some(cmd), p)
    requires CommandOf(cmd) == command
    requires ParseBody(command, cmd, None, p) == Some(body)
    ensures ParseLine(line) == Some(Message(None, n, u, h, command, body))
  {
  }

  // ---------------------------------------------------------------------
  // Connection state machine

  /** `GtIrcState`, in its declared order. */
  datatype IrcState = Disconnected | Connecting | Connected | LoggedIn | Joined

  function Rank(s: IrcState): nat {
    match s
    case Disconnected => 0
    case Connecting => 1
    case Connected => 2
    case LoggedIn => 3
    case Joined => 4
  }

  /** The two sockets: the receive connection delivers chat, the send
      connection carries the user's messages. */
  datatype Stream = RecvStream | SendStream

  /** One line written to a socket. */
  datatype Line = Line(stream: Stream, text: string)

  /** The connection's private state. `chan` is the name of the channel
      handed to connect-and-join, `joinOnLogin` whether the one-shot
      "join when logged in" handler is still connected, `queue` the
      messages handed to the chat view. */
  datatype Conn = Conn(
    state: IrcState,
    recvLoggedIn: bool,
    sendLoggedIn: bool,
    chan: Option<string>,
    joinOnLogin: bool,
    queue: seq<Message>)

  /** A transition's new state and the lines it wrote. */
  datatype Step = Step(conn: Conn, sent: seq<Line>)

  const Initial := Conn(Disconnected, false, false, None, false, [])

  /** What every reachable connection satisfies: a channel is set once
      connecting starts; the logged-in states are reached only after both
      sockets saw RPL_WELCOME and with the join handler already used; below
      CONNECTED neither socket is logged in; and CONNECTED never has both
      sockets logged in. */
  predicate Valid(c: Conn) {
    && (Rank(c.state) >= Rank(Connecting) ==> c.chan.Some?)
    && (Rank(c.state) >= Rank(LoggedIn) ==> c.recvLoggedIn && c.sendLoggedIn && !c.joinOnLogin)
    && (Rank(c.state) < Rank(Connected) ==> !c.recvLoggedIn && !c.sendLoggedIn)
    && (c.state == Connected ==> !(c.recvLoggedIn && c.sendLoggedIn))
  }

  lemma InitialValid()
    ensures Valid(Initial) && Initial.state == Disconnected
  {
  }

  /** The framing of `send_cmd`, `"%s %s\r\n"`: a NULL parameter prints
      as glibc's `(null)`. */
  function CmdText(cmd: string, param: Option<string>): (r: string)
    ensures param.Some? ==> r == cmd + " " + param.value + CrLf
    ensures param.None? ==> r == cmd + " (null)" + CrLf
  {
    cmd + " " + param.GetOr("(null)") + CrLf
  }

  /** `send_cmd` on one of the two sockets. */
  function SendCmd(stream: Stream, cmd: string, param: Option<string>): (r: Line)
    ensures r.stream == stream
    ensures param.Some? ==> r.text == cmd + " " + param.value + CrLf
  {
    Line(stream, CmdText(cmd, param))
  }

  /** The channel name with a '#' in front unless it already starts with
      one (an empty name becomes "#"). */
  function HashName(channel: string): (r: string)
    ensures |r| > 0 && r[0] == '#'
    ensures |channel| > 0 && channel[0] == '#' ==> r == channel
    ensures r == channel || r == "#" + channel
  {
    if |channel| > 0 && channel[0] == '#' then channel else "#" + channel
  }

  lemma HashNameIdempotent(channel: string)
    ensures HashName(HashName(channel)) == HashName(channel)
  {
  }

  /** `gt_irc_join`: only when logged in; writes JOIN on both sockets and
      moves to JOINED. */
  function JoinChannel(c: Conn, channel: string): (r: Step)
    ensures c.state != LoggedIn ==> r == Step(c, [])
    ensures c.state == LoggedIn ==>
              r.conn == c.(state := Joined)
              && r.sent == [SendCmd(RecvStream, "JOIN", Some(HashName(channel))),
                            SendCmd(SendStream, "JOIN", Some(HashName(channel)))]
    ensures Valid(c) ==> Valid(r.conn)
  {
    if c.state != LoggedIn then Step(c, [])
    else
      var chan := HashName(channel);
      Step(c.(state := Joined), [SendCmd(RecvStream, "JOIN", Some(chan)), SendCmd(SendStream, "JOIN", Some(chan))])
  }

  /** `logged_in_cb`, run on every state notification: the first time the
      state is LOGGED_IN it joins the connection's channel and disconnects
      itself. */
  function NotifyState(s: Step): (r: Step)
    ensures !(s.conn.state == LoggedIn && s.conn.joinOnLogin) ==> r == s
    ensures s.conn.state == LoggedIn && s.conn.joinOnLogin ==>
              r.conn.state == Joined && !r.conn.joinOnLogin && |r.sent| == |s.sent| + 2
  {
    if s.conn.state == LoggedIn && s.conn.joinOnLogin then
      var j := JoinChannel(s.conn.(joinOnLogin := false), s.conn.chan.GetOr(""));
      Step(j.conn, s.sent + j.sent)
    else s
  }

  /** `gt_irc_part`: only when joined; writes PART with the channel name on
      both sockets and returns to LOGGED_IN. */
  function PartChannel(c: Conn): (r: Step)
    ensures Rank(c.state) < Rank(Joined) ==> r == Step(c, [])
    ensures Valid(c) && c.state == Joined ==>
              r.conn == c.(state := LoggedIn)
              && r.sent == [SendCmd(RecvStream, "PART", c.chan), SendCmd(SendStream, "PART", c.chan)]
    ensures Valid(c) ==> Valid(r.conn)
  {
    if Rank(c.state) < Rank(Joined) then Step(c, [])
    else
      NotifyState(Step(c.(state := LoggedIn), [SendCmd(RecvStream, "PART", c.chan), SendCmd(SendStream, "PART", c.chan)]))
  }

  /** `gt_irc_disconnect`: a no-op below CONNECTED; otherwise parts when
      logged in, then ends DISCONNECTED with an empty queue and both
      logged-in flags cleared. The channel pointer is not cleared. */
  function Disconnect(c: Conn): (r: Step)
    ensures Rank(c.state) < Rank(Connected) ==> r == Step(c, [])
    ensures Rank(c.state) >= Rank(Connected) ==>
              r.conn == Conn(Disconnected, false, false, c.chan, c.joinOnLogin && c.state != Joined, [])
    ensures Valid(c) && c.state == Joined ==> r.sent == PartChannel(c).sent && |r.sent| == 2
    ensures Valid(c) && Rank(c.state) < Rank(Joined) ==> r.sent == []
    ensures Valid(c) ==> Valid(r.conn)
  {
    if Rank(c.state) < Rank(Connected) then Step(c, [])
    else
      var p := if Rank(c.state) >= Rank(LoggedIn) then PartChannel(c) else Step(c, []);
      Step(Conn(Disconnected, false, false, p.conn.chan, p.conn.joinOnLogin, []), p.sent)
  }

  /** What the outside world answers while connecting: whether the badge
      sets loaded without error, the chat server list (`None` on an
      error), the random number that picks a server, and whether both
      sockets then opened. */
  datatype ConnectEnv = ConnectEnv(badgeSetsLoaded: bool, servers: Option<seq<string>>, pick: nat, socketsConnected: bool,
                                   login: Login)

  /** Who logs in: the signed-in user's OAuth token and name (both NULL
      when no one is signed in), and the random number behind an
      anonymous nick. */
  datatype Login = Login(token: Option<string>, name: Option<string>, nickPick: nat)

  /** `utils_str_empty` of the token: NULL or the empty string. */
  predicate Anonymous(l: Login) {
    l.token.None? || |l.token.value| == 0
  }

  /** The bounds of `g_random_int_range(1, 9999999)`: the upper one is
      exclusive. */
  const AnonNickLow := 1
  const AnonNickHigh := 9999999

  /** `g_strdup_printf("justinfan%d", …)` of a random number in range. */
  function AnonNick(nickPick: nat): (r: string)
    ensures exists n :: AnonNickLow <= n < AnonNickHigh && r == "justinfan" + NatToString(n)
  {
    var n := AnonNickLow + nickPick % (AnonNickHigh - AnonNickLow);
    "justinfan" + NatToString(n)
  }

  /** The capability requests the receive socket sends after identifying:
      `CAP REQ :twitch.tv/tags`, then `membership` and `commands`. */
  const CapRequests: seq<string> :=
    [CmdText("CAP REQ", Some(":twitch.tv/tags")),
     CmdText("CAP REQ", Some(":twitch.tv/membership")),
     CmdText("CAP REQ", Some(":twitch.tv/commands"))]

  /** How each socket identifies itself once both are open. Without a
      token both send the same random `justinfan` nick; with one, each
      sends `PASS oauth:<token>` and then the user's name. */
  function IdentLines(l: Login): (r: seq<Line>)
    ensures |r| == (if Anonymous(l) then 2 else 4)
  {
    if Anonymous(l) then
      var nick := AnonNick(l.nickPick);
      [SendCmd(RecvStream, "NICK", Some(nick)), SendCmd(SendStream, "NICK", Some(nick))]
    else
      var pass := "PASS oauth:" + l.token.value + CrLf;
      [Line(RecvStream, pass), SendCmd(RecvStream, "NICK", l.name),
       Line(SendStream, pass), SendCmd(SendStream, "NICK", l.name)]
  }

  /** The tags, membership and commands capability requests, all on the
      receive socket. */
  const CapLines: seq<Line> :=
    [Line(RecvStream, CapRequests[0]), Line(RecvStream, CapRequests[1]), Line(RecvStream, CapRequests[2])]

  /** The lines `gt_irc_connect` writes once both sockets are open, in
      the order it writes them: the identification, then the capability
      requests. */
  function LoginLines(l: Login): (r: seq<Line>)
    ensures |r| == (if Anonymous(l) then 5 else 7)
  {
    IdentLines(l) + CapLines
  }

  /** The text written to socket `s`, in order. */
  function OnStream(lines: seq<Line>, s: Stream): (r: seq<string>)
    ensures |r| <= |lines|
  {
    if |lines| == 0 then []
    else (if lines[0].stream == s then [lines[0].text] else []) + OnStream(lines[1..], s)
  }

  lemma {:induction false} OnStreamConcat(a: seq<Line>, b: seq<Line>, s: Stream)
    ensures OnStream(a + b, s) == OnStream(a, s) + OnStream(b, s)
  {
    if |a| == 0 {
      assert a + b == b;
    } else {
      var h := if a[0].stream == s then [a[0].text] else [];
      assert (a + b)[0] == a[0] && (a + b)[1..] == a[1..] + b;
      assert OnStream(a + b, s) == h + OnStream(a[1..] + b, s);
      OnStreamConcat(a[1..], b, s);
      assert h + (OnStream(a[1..], s) + OnStream(b, s)) == (h + OnStream(a[1..], s)) + OnStream(b, s);
    }
  }

  /** Two lines written to different sockets can be reordered without
      either socket noticing. */
  lemma OnStreamPair(x: Line, y: Line, s: Stream)
    ensures OnStream([x, y], s) == (if x.stream == s then [x.text] else []) + (if y.stream == s then [y.text] else [])
  {
    assert [x, y][1..] == [y];
    assert [y][1..] == [];
  }

  lemma CapsPerSocket()
    ensures OnStream(CapLines, RecvStream) == CapRequests
    ensures OnStream(CapLines, SendStream) == []
  {
    var c := CapLines;
    assert c[1..] == [c[1], c[2]];
    assert [c[1], c[2]][1..] == [c[2]];
    assert [c[2]][1..] == [];
    forall s: Stream
      ensures OnStream(c, s) == if s == RecvStream then [c[0].text, c[1].text, c[2].text] else []
    {
      assert OnStream([c[2]], s) == (if s == RecvStream then [c[2].text] else []);
      assert OnStream([c[1], c[2]], s) == (if s == RecvStream then [c[1].text, c[2].text] else []);
    }
  }

  lemma AnonIdentPerSocket(l: Login)
    requires Anonymous(l)
    ensures OnStream(IdentLines(l), RecvStream) == OnStream(IdentLines(l), SendStream)
    ensures exists n :: AnonNickLow <= n < AnonNickHigh
                        && OnStream(IdentLines(l), SendStream) == ["NICK justinfan" + NatToString(n) + CrLf]
  {
    var nick := AnonNick(l.nickPick);
    var x := SendCmd(RecvStream, "NICK", Some(nick));
    var y := SendCmd(SendStream, "NICK", Some(nick));
    assert IdentLines(l) == [x, y];
    OnStreamPair(x, y, SendStream);
    OnStreamPair(x, y, RecvStream);
    var n :| AnonNickLow <= n < AnonNickHigh && nick == "justinfan" + NatToString(n);
    assert "NICK" + " " + nick + CrLf == "NICK justinfan" + NatToString(n) + CrLf;
  }

  lemma TokenIdentPerSocket(l: Login)
    requires !Anonymous(l)
    ensures OnStream(IdentLines(l), RecvStream) == OnStream(IdentLines(l), SendStream)
    ensures OnStream(IdentLines(l), SendStream)
            == ["PASS oauth:" + l.token.value + CrLf, "NICK " + l.name.GetOr("(null)") + CrLf]
  {
    var pass := "PASS oauth:" + l.token.value + CrLf;
    var p1 := Line(RecvStream, pass);
    var n1 := SendCmd(RecvStream, "NICK", l.name);
    var p2 := Line(SendStream, pass);
    var n2 := SendCmd(SendStream, "NICK", l.name);
    assert IdentLines(l) == [p1, n1] + [p2, n2];
    OnStreamConcat([p1, n1], [p2, n2], SendStream);
    OnStreamConcat([p1, n1], [p2, n2], RecvStream);
    OnStreamPair(p1, n1, SendStream);
    OnStreamPair(p1, n1, RecvStream);
    OnStreamPair(p2, n2, SendStream);
    OnStreamPair(p2, n2, RecvStream);
    assert n1.text == n2.text == "NICK " + l.name.GetOr("(null)") + CrLf;
  }

  /** What each socket sees of the login: the send socket only identifies
      itself, anonymously with a nick number in range or with the token
      and the user's name (glibc's "(null)" when there is none); the
      receive socket sends exactly the same identification and then the
      three capability requests. */
  lemma LoginPerSocket(l: Login)
    ensures var send := OnStream(LoginLines(l), SendStream);
            && OnStream(LoginLines(l), RecvStream) == send + CapRequests
            && (Anonymous(l) ==>
                  exists n :: AnonNickLow <= n < AnonNickHigh && send == ["NICK justinfan" + NatToString(n) + CrLf])
            && (!Anonymous(l) ==>
                  send == ["PASS oauth:" + l.token.value + CrLf, "NICK " + l.name.GetOr("(null)") + CrLf])
  {
    CapsPerSocket();
    OnStreamConcat(IdentLines(l), CapLines, SendStream);
    OnStreamConcat(IdentLines(l), CapLines, RecvStream);
    assert OnStream(LoginLines(l), SendStream) == OnStream(IdentLines(l), SendStream);
    if Anonymous(l) {
      AnonIdentPerSocket(l);
    } else {
      TokenIdentPerSocket(l);
    }
  }

  /** The `%[^:]` conversion of a `host:port` server string: the text up to
      the first ':'. */
  function ServerHost(server: string): (r: string)
    ensures |r| <= |server| && r == server[..|r|]
    ensures forall i :: 0 <= i < |r| ==> r[i] != ':'
    ensures |r| < |server| ==> server[|r|] == ':'
  {
    if |server| == 0 || server[0] == ':' then "" else [server[0]] + ServerHost(server[1..])
  }

  /** `host` is a 20-byte stack buffer: the host name and its NUL must fit. */
  const HostBufferSize := 20

  /** Whether connecting gets as far as `gt_irc_connect`: an error loading
      the badge sets or fetching the servers fails `g_assert_no_error`,
      an empty server list divides by zero in `g_random_int() % 0`, and a
      host name of 20 bytes or more overflows `host`. */
  predicate ConnectSucceeds(env: ConnectEnv) {
    && env.badgeSetsLoaded
    && env.servers.Some? && |env.servers.value| > 0
    && StrLen(ServerHost(env.servers.value[env.pick % |env.servers.value|])) < HostBufferSize
  }

  /** `gt_irc_connect_and_join_channel`: only from DISCONNECTED. Records the
      channel, arms the join-on-login handler and connects; the state is
      CONNECTED when both sockets connect and stays CONNECTING when they do
      not. On the way the badge sets are loaded and a server is picked at
      random; the ways that can abort give `None`. */
  function ConnectAndJoin(c: Conn, channel: string, env: ConnectEnv): (r: Option<Step>)
    ensures c.state != Disconnected ==> r == Some(Step(c, []))
    ensures c.state == Disconnected ==> (r.None? <==> !ConnectSucceeds(env))
    ensures c.state == Disconnected && r.Some? ==>
              r.value.conn.chan == Some(channel) && r.value.conn.joinOnLogin && r.value.conn.queue == c.queue
              && r.value.conn.state == (if env.socketsConnected then Connected else Connecting)
              && r.value.sent == (if env.socketsConnected then LoginLines(env.login) else [])
    ensures r.Some? && Valid(c) ==> Valid(r.value.conn)
  {
    if c.state != Disconnected then Some(Step(c, []))
    else if !ConnectSucceeds(env) then None
    else
      Some(Step(c.(state := if env.socketsConnected then Connected else Connecting,
                   chan := Some(channel), joinOnLogin := true),
                if env.socketsConnected then LoginLines(env.login) else []))
  }

  /** With a single server the random pick always lands on it, so an
      ASCII server whose host name fits the buffer always gets connected
      to, whatever the random number. */
  lemma SingleServerConnects(c: Conn, channel: string, server: string, pick: nat, up: bool, login: Login)
    requires c.state == Disconnected
    requires forall i :: 0 <= i < |server| ==> server[i] as int < 0x80
    requires |ServerHost(server)| < HostBufferSize
    ensures ConnectAndJoin(c, channel, ConnectEnv(true, Some([server]), pick, up, login)).Some?
  {
    var host := ServerHost(server);
    assert pick % 1 == 0;
    assert forall i :: 0 <= i < |host| ==> host[i] == server[i];
  }

  /** `gt_irc_privmsg`: a no-op below JOINED; otherwise one PRIVMSG line on
      the send socket. */
  function SendPrivmsg(c: Conn, text: string): (r: Step)
    ensures Rank(c.state) < Rank(Joined) ==> r == Step(c, [])
    ensures c.state == Joined && c.chan.Some? ==>
              r == Step(c, [Line(SendStream, "PRIVMSG " + c.chan.value + " :" + text + CrLf)])
  {
    if Rank(c.state) < Rank(Joined) then Step(c, [])
    else
      var param := c.chan.GetOr("(null)") + " :" + text;
      assert "PRIVMSG" + " " + param + CrLf == "PRIVMSG " + c.chan.GetOr("(null)") + " :" + text + CrLf;
      Step(c, [SendCmd(SendStream, "PRIVMSG", Some(param))])
  }

  /** The server parameter of a PING (the C code reads it through the
      command union). */
  function PingServer(m: Message): Option<string> {
    if m.body.PingBody? then m.body.server else None
  }

  predicate IsWelcome(m: Message) {
    m.command == Some(Reply) && m.body.ReplyBody? && m.body.replyType == RplWelcome
  }

  /** The socket `stream` has seen RPL_WELCOME: set its flag, and move to
      LOGGED_IN if connected and the other socket is logged in too. */
  function Welcomed(c: Conn, stream: Stream): (r: Conn)
  {
    var c1 := if stream == RecvStream then c.(recvLoggedIn := true) else c.(sendLoggedIn := true);
    if c1.state == Connected && c1.recvLoggedIn && c1.sendLoggedIn then c1.(state := LoggedIn) else c1
  }

  /** Whether socket `stream` has already seen RPL_WELCOME. */
  function LoggedInOn(c: Conn, stream: Stream): bool {
    if stream == RecvStream then c.recvLoggedIn else c.sendLoggedIn
  }

  /** The login-error branch formats `msg->cmd.notice->msg`, the second
      pointer of whatever command struct the message carries. NOTICE,
      PRIVMSG, CAP, MODE and CLEARCHAT have a string there, and a REPLY its
      reply text; the one-field PING, JOIN, PART, USERSTATE and ROOMSTATE
      structs are read past their end, and a message of an unhandled
      command has no struct at all (a NULL pointer). */
  predicate NoticeReadable(m: Message) {
    || m.body.NoticeBody? || m.body.PrivmsgBody? || m.body.ReplyBody?
    || m.body.CapBody? || m.body.ModeBody? || m.body.ClearchatBody?
  }

  /** `handle_message` for a message read from socket `stream`, then whether
      that reader keeps reading. Before login only RPL_WELCOME is accepted;
      anything else raises the error signal, whose handler disconnects, and
      stops the reader, unless building the error text already crashed
      (None). A PING is answered with PONG on the same socket; other
      messages from the receive socket are queued when a channel is set;
      the send socket never queues. */
  function HandleMessage(c: Conn, stream: Stream, m: Message): (r: Option<(Step, bool)>)
    ensures r.None? <==> !LoggedInOn(c, stream) && !IsWelcome(m) && !NoticeReadable(m)
    ensures r.Some? && Valid(c) && Rank(c.state) >= Rank(Connected) ==> Valid(r.value.0.conn)
    ensures r.Some? ==> (!r.value.1 <==> !LoggedInOn(c, stream) && !IsWelcome(m))
    ensures r.Some? && !r.value.1 ==> r.value.0 == Disconnect(c)
    ensures r.Some? && r.value.1 && m.command == Some(Ping) ==>
              |r.value.0.sent| > 0 && r.value.0.sent[|r.value.0.sent| - 1] == SendCmd(stream, "PONG", PingServer(m))
    ensures r.Some? && r.value.1 && m.command != Some(Ping) && stream == RecvStream && c.chan.Some? ==>
              r.value.0.conn.queue == c.queue + [m]
    ensures r.Some? && r.value.1 && (stream == SendStream || c.chan.None?) ==> r.value.0.conn.queue == c.queue
    ensures r.Some? && Valid(c) && c.state == Connected && Rank(r.value.0.conn.state) >= Rank(LoggedIn) ==>
              r.value.1 && IsWelcome(m) && LoggedInOn(c, if stream == RecvStream then SendStream else RecvStream)
  {
    var loggedIn := LoggedInOn(c, stream);
    if !loggedIn && !IsWelcome(m) then
      if NoticeReadable(m) then Some((Disconnect(c), false)) else None
    else
      var s1 := if loggedIn then Step(c, []) else NotifyState(Step(Welcomed(c, stream), []));
      var c1 := s1.conn;
      if m.command == Some(Ping) then
        Some((Step(c1, s1.sent + [SendCmd(stream, "PONG", PingServer(m))]), true))
      else if stream == RecvStream && c1.chan.Some? then
        Some((Step(c1.(queue := c1.queue + [m]), s1.sent), true))
      else
        Some((s1, true))
  }

  /** One iteration of `read_lines`: the reader stops once the state has
      dropped below CONNECTED, and otherwise handles the message. */
  function Receive(c: Conn, stream: Stream, m: Message): (r: Option<(Step, bool)>)
    ensures Rank(c.state) < Rank(Connected) ==> r == Some((Step(c, []), false))
    ensures Rank(c.state) >= Rank(Connected) && r.None? ==> !LoggedInOn(c, stream) && !NoticeReadable(m)
    ensures r.Some? && Valid(c) ==> Valid(r.value.0.conn)
  {
    if Rank(c.state) < Rank(Connected) then Some((Step(c, []), false))
    else HandleMessage(c, stream, m)
  }

  /** Logging in needs RPL_WELCOME on both sockets, in either order: after
      the first the connection is still CONNECTED; after the second it is
      logged in and the armed handler has joined the channel. */
  lemma LoginNeedsBothWelcomes(c: Conn, first: Stream, m1: Message, m2: Message)
    requires Valid(c) && c.state == Connected && !c.recvLoggedIn && !c.sendLoggedIn
    requires c.joinOnLogin
    requires IsWelcome(m1) && IsWelcome(m2)
    ensures var r1 := Receive(c, first, m1);
            var second := if first == RecvStream then SendStream else RecvStream;
            r1.Some? && r1.value.1 && r1.value.0.conn.state == Connected
            && var r2 := Receive(r1.value.0.conn, second, m2);
            r2.Some? && r2.value.1 && r2.value.0.conn.state == Joined
            && r2.value.0.sent == [SendCmd(RecvStream, "JOIN", Some(HashName(c.chan.value))),
                           SendCmd(SendStream, "JOIN", Some(HashName(c.chan.value)))]
  {
  }

  /** A failed connection attempt leaves the client CONNECTING for good:
      neither a new connect nor a disconnect changes anything. */
  lemma FailedConnectIsStuck(c: Conn, channel: string, again: string, env: ConnectEnv, env2: ConnectEnv)
    requires c.state == Disconnected
    requires ConnectSucceeds(env) && !env.socketsConnected
    ensures var s := ConnectAndJoin(c, channel, env).value.conn;
            s.state == Connecting
            && ConnectAndJoin(s, again, env2) == Some(Step(s, []))
            && Disconnect(s) == Step(s, [])
            && Receive(s, RecvStream, Message(None, None, None, None, None, NoBody)) == Some((Step(s, []), false))
  {
  }

  /** A PING line is answered on the socket that read it with the same
      parameter: `PING x` gives `PONG x\r\n`. */
  lemma PingPong(c: Conn, stream: Stream, server: string, m: Message)
    requires Rank(c.state) >= Rank(Connected)
    requires LoggedInOn(c, stream)
    requires ParseLine("PING " + server) == Some(m)
    ensures Receive(c, stream, m) == Some((Step(c, [Line(stream, "PONG " + server + CrLf)]), true))
  {
    ParsePing(server);
    assert PingServer(m) == Some(server);
    assert SendCmd(stream, "PONG", Some(server)) == Line(stream, "PONG " + server + CrLf);
    assert m.command == Some(Ping);
    var s1 := Step(c, []);
    assert HandleMessage(c, stream, m) == Some((Step(c, s1.sent + [SendCmd(stream, "PONG", PingServer(m))]), true));
    assert s1.sent + [SendCmd(stream, "PONG", PingServer(m))] == [Line(stream, "PONG " + server + CrLf)];
  }

  /** A PING that reaches a socket before its RPL_WELCOME takes the login
      error branch, whose message text is read from the one-field ping
      struct: there is no defined outcome, while a NOTICE in the same place
      disconnects cleanly. */
  lemma PingBeforeLoginCrashes(c: Conn, stream: Stream, server: string, m: Message, notice: Message)
    requires Rank(c.state) >= Rank(Connected)
    requires !LoggedInOn(c, stream)
    requires ParseLine("PING " + server) == Some(m)
    requires notice.command == Some(Notice) && notice.body.NoticeBody?
    ensures Receive(c, stream, m).None?
    ensures Receive(c, stream, notice) == Some((Disconnect(c), false))
  {
    ParsePing(server);
  }
}
