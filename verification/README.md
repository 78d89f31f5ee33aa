# gnome-twitch core, modelled in Dafny

This project models the sequential cores of gnome-twitch, a GTK Twitch client written in C, and proves properties of them. Under its widgets, media backends and network plumbing the program has these cores:

- **The Twitch IRC layer** (`src/gt-irc.c`, `src/gt-twitch-chat-client.c`, modules `Irc` and `ChatClient`). It covers:
  - command and numeric-reply classification;
  - the two line parsers for the message format of section 2.3.1 of RFC 2812 (optional `@tags`, optional `:prefix`, command, parameters);
  - PING/PONG;
  - the `emotes` tag grammar (module `Emotes`);
  - the connection state machine DISCONNECTED < CONNECTING < CONNECTED < LOGGED_IN < JOINED.
- **Chat rendering** (`src/gt-twitch-chat-view.c`, `src/gt-chat.c`, modules `ChatView`, `Chat` and `Render`). It covers:
  - emote substitution offsets;
  - default chat colours;
  - per-sender colour tags;
  - user-mode badges;
  - the sticky-scroll flag.
- **Twitch data shaping** (`src/gt-twitch.c`, module `Twitch`). It covers:
  - the HLS master-playlist reader for `#EXT-X-STREAM-INF` (section 4.3.4.2 of RFC 8216);
  - the quality filter;
  - the `Y-M-DTh:m:sZ` time reader (section 5.6 of RFC 3339);
  - the followed-channels merge;
  - memoised chat-badge loading and lookup.
- **HTTP scheduling and caching** (`src/gt-http-soup.c`, `src/gt-cache-file.c`, modules `Http` and `CacheFile`). It covers:
  - a FIFO request queue with a per-category in-flight limit;
  - the cacheability test on Pragma, Cache-Control and Expires (sections 5.4, 5.2 and 5.3 of RFC 7234);
  - the cache-staleness decision;
  - the cache entry table and its JSON save/load shape.
- **Channel identity and the follow/favourite lists** (`src/gt-channel.c`, `src/gt-twitch-channel.c`, the follows and favourites managers and their two channel containers, module `Channels`).
- **Small helpers.** These are:
  - `strrpl` and the GValue accessors of `src/utils.c` (module `Utils`);
  - the panel-markup converter and panel distribution of `src/gt-twitch-channel-info-dlg.c` (module `InfoDialog`).

The model is functional throughout:
- Each piece of mutable C state is an immutable record.
- Each C function that changes that state is a transition function returning the new record together with what it wrote or emitted.
- C strings are `string` values; NULL is `None`.
- Where the C code would dereference NULL, read or write out of bounds, divide by zero or abort on a failed `g_assert`, the model returns `None` instead of imposing a precondition, and says so in the member's comment.

Sockets, threads, libsoup, json-glib, GTK widgets, the clock and randomness are not modelled. Their results are parameters of the functions that use them.

Two modules model the C and GLib library calls the sources rely on:
- `CStrings`: `strsep`, `g_strsplit_set`, `atoi`, `strstr`, `g_strcmp0` and UTF-8 `strlen`.
- `Wrappers`: `Option` and `Result`.

## Model

| member | source | states |
|---|---|---|
| Irc.StrIsNumeric | src/gt-irc.c:237-248 | The loop answers true exactly when every character is an ASCII digit, so the empty string counts as numeric. |
| Irc.CommandOf | src/gt-irc.c:250-275 | Any all-digit command, the empty one included, classifies as REPLY. A command that is neither numeric nor one of the ten names classifies as -1 (`None`). |
| Irc.CommandName | src/gt-irc.c:277-307 | REPLY has no name. Every other command has a name from the string table, and that name classifies back to the command. |
| Irc.NamesNotNumeric | src/gt-irc.c:24-37 | No command name is all digits, so the numeric test never shadows a named command. |
| Irc.CommandRoundTrip | src/gt-irc.c:250-307 | For every named command `s`, `enum_to_str(str_to_enum(s)) == s`. |
| Irc.ReplyText | src/gt-irc.c:14-22 | The reply codes are written as exactly three digits. |
| Irc.ReplyOf | src/gt-irc.c:309-332 | The result is -1 or one of the nine known replies, and a recognised reply is exactly the three-digit text of its code. |
| Irc.ReplyOfReplyText | src/gt-irc.c:309-332 | Each of the nine reply codes (`src/gt-irc.h:28-36`) is read back from its text: 001 gives RPL_WELCOME, 375 gives MOTDSTART, and so on. |
| Irc.LookupTag | src/gt-irc.c:409-422 | The lookup scans (key, value) pairs, with keys at even positions. It finds nothing exactly when no whole pair has the key, so a trailing key without a value is never found. Otherwise it returns the value of the first pair with that key. |
| Irc.LookupTagConcat | src/gt-irc.c:409-422 | For two tag lists laid end to end, the first made of whole pairs, the lookup gives the first list's value when it has one and otherwise the second list's. |
| Irc.SplitTags | src/gt-irc.c:358-362 | A line that does not start with `@` has no tags and is parsed whole. A line that starts with `@` always yields a tag list. |
| Irc.TagsFirstToken | src/gt-irc.c:358-362 | Only the first space-delimited token is split on `;` and `=`. Parsing resumes right after that space. |
| Irc.ParsePrefix | src/gt-irc.c:364-375 | The host is always set. A prefix with neither `!` nor `@` leaves nick and user unset and becomes the host whole. |
| Irc.PrefixFull | src/gt-irc.c:364-375 | The prefix `a!b@c` yields nick `a`, user `b` and host `c`. |
| Irc.SplitPrefix | src/gt-irc.c:364-375 | A line without a leading `:` has no prefix and passes through unchanged. |
| Irc.PrefixToken | src/gt-irc.c:364-375 | A `:prefix ` token is split into nick, user and host, and parsing resumes after the space. |
| Irc.StripCtcp | src/gt-irc.c:396-402 | A message that does not start with `\001` is kept verbatim. |
| Irc.CtcpAction | src/gt-irc.c:396-402 | A CTCP message `\001word text\001` loses its first word and its final character, leaving `text`. |
| Irc.UserTypeMode | src/gt-irc.c:414-418 | `user-type` sets at most one of MOD, GLOBAL_MOD, ADMIN and STAFF. `mod` is exactly the case that gives MOD, and a missing tag gives none. |
| Irc.FlagMode | src/gt-irc.c:409-412 | The subscriber and turbo tags each set at most their own bit, independently. |
| Irc.ParseBadge | src/gt-irc.c:428-432 | A badge piece yields a `name/version` reference exactly when it is non-empty. An empty piece is the out-of-bounds read of the C code. |
| Irc.ParseBadges | src/gt-irc.c:426-443 | Parsing the badges yields one reference per comma-separated piece. |
| Irc.ParsePrivmsg | src/gt-irc.c:391-480 | The result is a PRIVMSG body. Without tags it has no user modes and no emotes. The emote list is always sorted by start. |
| Irc.ParseBody | src/gt-irc.c:380-525 | A numeric command stores its reply type and the verbatim remaining parameters. PING stores the remaining parameters as the server. An unknown command has no body. |
| Irc.ParseLine | src/gt-irc.c:347-529 | The parsed tags are those of the leading `@` token. A REPLY always carries a reply body, and a PING always carries a ping body. |
| Irc.ParsePing | src/gt-irc.c:377-390 | `PING <server>` parses to a PING message whose server is the rest of the line. |
| Irc.ParseNumeric | src/gt-irc.c:364-386 | `:<server> <code> <rest>` parses to a REPLY with host `server`, reply type `code` and reply text `rest`. |
| Irc.PrivmsgParams | src/gt-irc.c:391-405 | An untagged `PRIVMSG <target> :<text>` has that target and that text, and nothing else. |
| Irc.ParsePlainPrivmsg | src/gt-irc.c:347-405 | A whole untagged PRIVMSG line with a prefix parses to the prefix's nick, user and host, together with the target and text. |
| Irc.InitialValid | src/gt-irc.c:763-777 | A fresh connection is DISCONNECTED and satisfies the connection invariant. |
| Irc.CmdText | src/gt-irc.c:210-217 | `send_cmd` writes `cmd param\r\n`. A NULL parameter prints as `(null)`. |
| Irc.SendCmd | src/gt-irc.c:210-217 | The line goes to the given socket with the text `cmd param\r\n`. |
| Irc.HashName | src/gt-irc.c:925-928 | The channel name gets a leading `#` only when it lacks one. |
| Irc.HashNameIdempotent | src/gt-irc.c:925-928 | Adding the `#` twice is the same as adding it once. |
| Irc.JoinChannel | src/gt-irc.c:913-938 | Joining acts only in LOGGED_IN. It then sends `JOIN #chan` on both sockets and moves to JOINED; in any other state nothing changes. It keeps the connection invariant. |
| Irc.NotifyState | src/gt-irc.c:674-689 | The one-shot login handler joins as soon as the state becomes LOGGED_IN and then disconnects itself. Otherwise nothing happens. |
| Irc.PartChannel | src/gt-irc.c:940-964 | Parting below JOINED does nothing. From JOINED it sends PART on both sockets and returns to LOGGED_IN. |
| Irc.Disconnect | src/gt-irc.c:867-911 | Disconnecting below CONNECTED does nothing. Otherwise it parts when joined, ends DISCONNECTED, clears both logged-in flags and empties the queue. |
| Irc.ConnectAndJoin | src/gt-irc.c:966-1013 | The call acts only from DISCONNECTED. From there it aborts (None) exactly when the badge sets or the server list fail to load, when the server list is empty (the random pick takes `% 0`), or when the picked host name does not fit the 20-byte `host` buffer. Otherwise it records the channel and arms the join-on-login handler. When the sockets do not open it writes nothing and stays CONNECTING. When they open it ends CONNECTED, having written exactly the login lines of Irc.LoginPerSocket. |
| Irc.AnonNick | src/gt-irc.c:845 | Without a token the nick is `justinfan` followed by a decimal number in [1, 9999999). |
| Irc.LoginPerSocket | src/gt-irc.c:843-860 | The send socket only identifies itself: with `NICK justinfan<n>` when there is no token, otherwise with `PASS oauth:<token>` and then `NICK <name>`, where a NULL name prints as `(null)`. The receive socket sends the same identification, followed by the three `CAP REQ` lines for tags, membership and commands. |
| Irc.ServerHost | src/gt-irc.c:1002 | The host is the server string up to, not including, its first `:`. |
| Irc.SingleServerConnects | src/gt-irc.c:999-1002 | With a one-entry server list whose ASCII host fits the buffer, connecting does not abort, whatever the random number. |
| Irc.SendPrivmsg | src/gt-irc.c:1051-1065 | Sending below JOINED does nothing. In JOINED it writes `PRIVMSG <chan> :<text>\r\n` on the send socket. |
| Irc.HandleMessage | src/gt-irc.c:534-629 | Before its socket has seen RPL_WELCOME, any other message takes the login-error branch. That branch formats `msg->cmd.notice->msg`. When the message has a string in that slot (NOTICE, PRIVMSG, REPLY, CAP, MODE, CLEARCHAT), the reader stops and the error handler disconnects. When it does not (PING, JOIN, PART, USERSTATE, ROOMSTATE, or an unhandled command with no struct), the result is None, a crash. PING is answered with PONG on the same socket. Other messages are queued only from the receive socket and only when a channel is set. LOGGED_IN is reached from CONNECTED only on a WELCOME when the other socket has already had one. |
| Irc.Receive | src/gt-irc.c:631-664 | A reader below CONNECTED stops without acting. A crash happens only on a socket not yet logged in, for a message without a readable notice text. Every step that does not crash keeps the connection invariant. |
| Irc.LoginNeedsBothWelcomes | src/gt-irc.c:539-626 | After the first WELCOME the state stays CONNECTED. After the second WELCOME, on the other socket, the client is logged in and the handler joins: it sends JOIN on both sockets and ends in JOINED. |
| Irc.FailedConnectIsStuck | src/gt-irc.c:979-980 | When connecting gets past its aborts but the sockets do not open, the connection stays CONNECTING. Connect, disconnect and the readers are then all no-ops, so it never leaves that state. |
| Irc.PingPong | src/gt-irc.c:575-580 | A logged-in socket answers `PING <server>` with exactly `PONG <server>\r\n` on the same socket, and the reader keeps going. |
| Irc.PingBeforeLoginCrashes | src/gt-irc.c:557-618 | On a socket not yet logged in, a `PING` line has no defined outcome, because the error text is read past the end of the one-field ping struct. A NOTICE in the same place disconnects and stops the reader. |
| Emotes.StrSepAll | src/gt-irc.c:454-474 | A `while ((x = strsep(&p, d)))` loop yields no pieces exactly when the pointer is NULL, and no piece contains a delimiter. |
| Emotes.StrSepAllJoin | src/gt-irc.c:454-474 | The loop gives back exactly the delimiter-free pieces that were joined with the delimiter. |
| Emotes.ParseRange | src/gt-irc.c:467-469 | A range yields an emote of the group's id exactly when it contains `-`. Without a `-` the C code reads `atoi(NULL)`. |
| Emotes.ParseRanges | src/gt-irc.c:463-473 | Parsing the ranges gives one emote per comma-separated range, each with the group's id. |
| Emotes.ParseEmoteTag | src/gt-irc.c:450-474 | A missing `emotes` tag gives no emotes. |
| Emotes.CompareByStart | src/gt-irc.c:334-343 | `emote_compare` returns -1, 0 or 1. |
| Emotes.CompareByStartSpec | src/gt-irc.c:334-343 | The comparison is antisymmetric, is 0 exactly on equal starts, and is negative exactly when the first start is smaller. |
| Emotes.InsertByStart | src/gt-irc.c:478 | Inserting into a sorted list keeps it sorted and adds exactly that one emote. |
| Emotes.SortByStart | src/gt-irc.c:478 | `g_list_sort` by `emote_compare` returns a permutation of its input, sorted by start. |
| Emotes.SortSortedIsIdentity | src/gt-irc.c:478 | The sort is stable: a list already sorted by start is returned unchanged. |
| Emotes.FormatRangeParses | src/gt-irc.c:467-469 | A range written `s-e` reads back as start `s` and end `e`. |
| Emotes.FormatRangesParse | src/gt-irc.c:463-473 | A comma-separated list of ranges reads back as one emote per range, in order. |
| Emotes.FormatGroupParses | src/gt-irc.c:460-473 | A group `id:s-e,...` reads back its id and all of its ranges. |
| Emotes.ParseGroupsFormatted | src/gt-irc.c:454-474 | A list of groups reads back as the emotes of every group, in tag order. |
| Emotes.ParseFormatRoundTrip | src/gt-irc.c:450-474 | Parsing the tag Twitch writes, `id:s-e,s-e/id:s-e`, yields exactly one emote per range, in tag order. |
| ChatClient.AfterTags | src/gt-twitch-chat-client.c:145-150 | After the tag split, parsing resumes after the first space of the line. There is no remainder exactly when the line has no space; the C code then dereferences NULL. |
| ChatClient.ParseClientLine | src/gt-twitch-chat-client.c:139-169 | A line without `@` has no tags. With `@`, the line parses exactly when it has a space, and the tags are the split of the whole rest of the line on `;` and `=`. There are no params without a command. The command never contains a space when params follow it. |
| ChatClient.ClientCommandLine | src/gt-twitch-chat-client.c:165-166 | For `cmd params`, the command is the first space-delimited token and params is the verbatim remainder. |
| ChatClient.ClientTagsSwallowRest | src/gt-twitch-chat-client.c:145-150 | For `@k=v rest`, the last tag value becomes `v rest`: it swallows the prefix, command and parameters. The first-token split of `src/gt-irc.c` gives `[k, v]`. |
| ChatClient.ParseClientLineIntended | src/gt-twitch-chat-client.c:145-150 | The corrected parser splits only the first token into tags and agrees with the written parser on everything else. |
| ChatClient.ClientTagsIntended | src/gt-twitch-chat-client.c:145-150 | With the correction, `@k=v rest` carries exactly the tags `[k, v]`. |
| ChatClient.HandleClientMessage | src/gt-twitch-chat-client.c:171-184 | PING is answered with `PONG <params>\r\n` and never queued. Any other message is queued, at the tail, only when a source exists. Nothing else changes. |
| ChatClient.ClientPingPong | src/gt-twitch-chat-client.c:171-184 | The line `PING x` is answered with exactly `PONG x\r\n`. |
| ChatClient.PartClient | src/gt-twitch-chat-client.c:385-402 | Parting while not connected does nothing. Otherwise it sends PART only when a channel is current, and it always leaves no current channel and no source. |
| ChatClient.JoinClient | src/gt-twitch-chat-client.c:356-383 | Joining while not connected does nothing. Otherwise it parts first, opens a new empty source, sends `JOIN` with the `#`-prefixed name, and records that name as current. |
| ChatClient.JoinSwitchesChannel | src/gt-twitch-chat-client.c:356-402 | Joining a second channel sends PART for the first and then JOIN for the second, and ends on the second with an empty queue. |
| ChatClient.PartStopsQueueing | src/gt-twitch-chat-client.c:180-183 | Once parted, incoming messages are no longer queued. |
| Render.RenderedLength | src/gt-twitch-chat-view.c:155-165 | Drawing with emotes shortens the message by exactly the sum of (end - start) over the emotes, which is the final value of the running `deleted`. |
| Render.RenderedPlain | src/gt-twitch-chat-view.c:150-153 | A message without emotes is drawn as its characters. |
| Render.WellFormedSorted | src/gt-twitch-chat-view.c:140 | Emote ranges that are in order and do not overlap are already sorted by start, so the sort leaves them in place. |
| Render.BadgeCells | src/gt-twitch-chat-view.c:217-232 | One badge image followed by a space is drawn for each mode present, in the fixed drawing order. So a badge is shown exactly for the modes that are present, and the badges take two cells per mode. |
| Render.SenderName | src/gt-twitch-chat-view.c:294-295 | The sender is the display name unless it is missing or empty, in which case it is the nick. |
| ChatView.PickRandomColour | src/gt-twitch-chat-view.c:79-85 | The random draw is in [0,12), so the colour is from the palette but never one of its last three entries. |
| ChatView.ModeBit | src/gt-twitch-chat-view.c:15-21 | Each user mode is one of the single bits 1, 4, 8, 16, 32, 64 and 128. |
| ChatView.UserTypeBits | src/gt-twitch-chat-view.c:299-302 | `user-type` sets at most one bit, among MOD, GLOBAL_MOD, ADMIN and STAFF. |
| ChatView.ViewModeBits | src/gt-twitch-chat-view.c:297-302 | The mask fits in a byte. The modes it denotes are exactly the subscriber and turbo flags that are set, plus at most one mode from `user-type`. |
| ChatView.ModesOfBitsSpec | src/gt-twitch-chat-view.c:15-21 | Subscriber and turbo are independent bits, and each user-type bit decodes to its own mode. |
| ChatView.FetchGroups | src/gt-twitch-chat-view.c:108-126 | After parsing, the emote cache holds the old ids plus every group's id. |
| ChatView.FetchedOnce | src/gt-twitch-chat-view.c:119-125 | Each image is downloaded at most once. The downloads are exactly the ids that were not cached before. |
| ChatView.ParseViewEmotes | src/gt-twitch-chat-view.c:99-143 | `parse_emote_string` succeeds exactly when the tag grammar parses. The result is a permutation of the parsed emotes, sorted by start. The cache only grows, each new id is downloaded exactly once, and a NULL tag gives no emotes. |
| ChatView.EmptyTagFetchesEmoteZero | src/gt-twitch-chat-view.c:106-123 | An empty `emotes` tag downloads emote 0, because `atoi("")` is 0, but draws no emote. |
| ChatView.CachedNeverFetched | src/gt-twitch-chat-view.c:119-125 | An id already in the cache is never downloaded again. |
| ChatView.ApplyEmotes | src/gt-twitch-chat-view.c:145-166 | Without emotes the line is unchanged. Each emote replaces its characters by one image, so the line grows by at most one cell per emote. |
| ChatView.ApplyOne | src/gt-twitch-chat-view.c:157-164 | One loop step deletes [start+offset-deleted, end+offset-deleted+1), inserts the image there, and adds end-start to `deleted`. |
| ChatView.ApplyEmotesRenders | src/gt-twitch-chat-view.c:145-166 | With well-formed emotes, the delete-and-insert loop, using the running `deleted` shift, draws exactly the reference rendering. |
| ChatView.InsertMessageRenders | src/gt-twitch-chat-view.c:145-166 | `insert_message_with_emotes` at the correct offset produces the prefix followed by the reference rendering of the message. |
| ChatView.ColourTag | src/gt-twitch-chat-view.c:182-212 | A sender without a colour gets tag `chat_colour_<sender>`; an explicit colour gets the tag named after that colour. Each tag is created once with its colour and reused afterwards. |
| ChatView.SenderColourStable | src/gt-twitch-chat-view.c:186-197 | A sender without a colour keeps the tag, and the colour, of their first message, whatever later random draws give. |
| ChatView.AddChatMsgWith | src/gt-twitch-chat-view.c:168-246 | `add_chat_msg` appends exactly one line, tagged with the sender's colour tag. It leaves the emote cache alone and fails only where emote placement runs outside the line. |
| ChatView.AddChatMsg | src/gt-twitch-chat-view.c:214-241 | With the offset counted in characters, a message with well-formed emotes is drawn as one new line: badges, then the sender, then `: `, then the reference rendering of the text. |
| ChatView.AddChatMsgAsWritten | src/gt-twitch-chat-view.c:214 | The offset as written, `strlen(sender)+2` in UTF-8 bytes, agrees with the character count whenever the sender is ASCII. |
| ChatView.NoBadges | src/gt-twitch-chat-view.c:217-232 | A mask of 0 draws no badges. |
| ChatView.KappaLine | src/gt-twitch-chat-view.c:155-165 | For the line `é: Kappa x`, an offset one too large puts the image over `appa ` instead of over `Kappa`. |
| ChatView.AsWrittenMisplacesEmote | src/gt-twitch-chat-view.c:214 | For sender `é`, which is two UTF-8 bytes, the code as written shifts the emote by one character; the corrected offset places it over `Kappa`. |
| ChatView.KappaCells | src/gt-twitch-chat-view.c:214-241 | The line cells for a one- and a two-cell sender width, written out. |
| ChatView.ViewMessageText | src/gt-twitch-chat-view.c:304-310 | The text is read after the first space or colon, skipping one character. A NULL parameter pointer yields nothing. |
| ChatView.ViewMessageTextColon | src/gt-twitch-chat-view.c:304-310 | `#chan :text` gives `text`, with CTCP unwrapped. |
| ChatView.ViewMessageTextNoColon | src/gt-twitch-chat-view.c:304-305 | Without the colon, the skip drops the first character of the text. |
| ChatView.ViewSourceMessage | src/gt-twitch-chat-view.c:261-323 | The callback draws through `add_chat_msg` as written (sender counted in bytes) or, as the corrected variant, in characters. Either way, only PRIVMSG is drawn, and never from `twitchnotify`. An untagged PRIVMSG is the NULL crash. A drawn message appends one line and keeps the earlier lines, and the emote cache only grows. |
| ChatView.ViewDrawsPrivmsg | src/gt-twitch-chat-view.c:282-312 | As the program is written, and for a sender whose characters are all ASCII: a PRIVMSG with the required tags and well-formed emotes is drawn as one new line. The line holds the badges of its subscriber, turbo and user-type modes, the sender and the rendering of its text. Here counting the sender in bytes and in characters gives the same view. |
| ChatView.ViewDrawsPrivmsgIntended | src/gt-twitch-chat-view.c:282-312 | With the sender counted in characters, the same line is drawn for every sender, ASCII or not. |
| Chat.ByteSumUtf8 | src/gt-chat.c:92-93 | Summing the bytes of a name as signed `char`s equals summing each character's weight: its code for ASCII, or its signed UTF-8 bytes otherwise. |
| Chat.CRem | src/gt-chat.c:95 | C's `%` truncates toward zero. A non-negative total gives the usual remainder in [0,n); a negative total gives a remainder in (-n,0]. |
| Chat.DefaultColour | src/gt-chat.c:86-96 | The colour is chosen deterministically from the name. For an ASCII name it is one of the first 13 of the 15 palette entries. A NULL nick has no colour. |
| Chat.AsciiCodeSum | src/gt-chat.c:92-93 | The character total of an ASCII name is non-negative. |
| Chat.AsciiNeverLastTwo | src/gt-chat.c:95 | For an ASCII name the index `total % 13` never reaches entries 13 and 14, so `#8A2BE2` and `#00FF7F` are never chosen. |
| Chat.CodeSumPermutation | src/gt-chat.c:92-93 | The character total depends only on the multiset of characters. |
| Chat.AnagramsShareColour | src/gt-chat.c:86-96 | Names that are anagrams of each other get the same default colour. |
| Chat.Walk | src/gt-chat.c:190-217 | The character walk ends with nothing more to draw once the index reaches the end of the message. |
| Chat.WalkImageStep | src/gt-chat.c:200-205 | At an emote's start index the walk inserts exactly one image, takes the next emote from the list, and jumps past that emote's end. |
| Chat.WalkCharStep | src/gt-chat.c:198-215 | At any other index the walk copies the character and moves on by one. |
| Chat.WalkRenders | src/gt-chat.c:190-217 | With in-order, non-overlapping emotes, the walk draws exactly the reference rendering: each emote's characters become one image, in list order. |
| Chat.ReceiveMessage | src/gt-chat.c:111-235 | Only a PRIVMSG is drawn. A PRIVMSG from a user with any mode, while the widget holds no badges, reads a NULL `chat_badges` and crashes (None). Drawing appends one line, keeps the earlier lines and colour tags, and leaves sticky, joined, channel, badges and connection alone. |
| Chat.ChatDrawsPrivmsg | src/gt-chat.c:122-223 | When the widget holds badges or the sender has no mode, the new line is tagged with the message's colour, or with the nick's default colour when it has none. It holds the badges of its modes, the sender (display name, else nick), `: ` and the rendered text, and the colour tag then exists. |
| Chat.DefaultColourTagStable | src/gt-chat.c:130-141 | Two colourless messages from the same nick get the same colour tag, and the second adds no tag. |
| Chat.OnScroll | src/gt-chat.c:413-423 | Sticky becomes true on reaching the bottom edge. It becomes false on an upward scroll or a scrollbar press, and is otherwise unchanged. Nothing else changes. |
| Chat.StickyUntilReleased | src/gt-chat.c:475-492 | A sticky view stays sticky through any run of events without an upward scroll or scrollbar press. |
| Chat.ConnectChat | src/gt-chat.c:638-657 | `gt_chat_connect` sets joined and sticky and records the channel. Lines, tags and the IRC connection are untouched. |
| Chat.BadgesLoaded | src/gt-chat.c:237-261 | The badges held so far are always freed. When loading fails, the widget is left without badges and nothing else changes. Otherwise the new badges are kept and the IRC client connects and joins the current channel; an abort while connecting gives None. The lines the client wrote come back with the widget: the login lines when the sockets opened, none otherwise. |
| Chat.FailedReloadLosesBadges | src/gt-chat.c:246-255 | After a successful load, a failed reload leaves the connection as it was but frees the badges. A moded PRIVMSG drawn before the failure crashes after it. |
| Chat.DisconnectChat | src/gt-chat.c:659-670 | `gt_chat_disconnect` clears joined and empties the buffer. It disconnects IRC only when the client is connected, and keeps the connection invariant. |
| Chat.ConnectThenDisconnect | src/gt-chat.c:638-670 | When connecting does not abort, connecting and then disconnecting leaves the widget unjoined and empty, with IRC back at DISCONNECTED, or still at CONNECTING when the sockets never opened. |
| Twitch.QualityName | src/gt-twitch.c:404-418 | Each quality's VIDEO value (`"chunked"`, `"high"`, ... `"audio_only"`) reads back as that quality. |
| Twitch.ApplyAttribute | src/gt-twitch.c:387-420 | An attribute never changes the URL. An attribute whose key is not BANDWIDTH, RESOLUTION or VIDEO leaves the record as it was. |
| Twitch.ApplyAttributes | src/gt-twitch.c:385-421 | Reading a line's attributes never changes the URL. |
| Twitch.ParseLinesShape | src/gt-twitch.c:372-434 | The parser emits one record per line starting with `#EXT-X-STREAM-INF`, and each record's URL is the line that follows it. |
| Twitch.BandwidthAttrRead | src/gt-twitch.c:391-394 | `BANDWIDTH=n` sets the bandwidth to `n`. |
| Twitch.ResolutionAttrRead | src/gt-twitch.c:395-403 | `RESOLUTION=WxH` sets width `W` and height `H`. |
| Twitch.VideoAttrRead | src/gt-twitch.c:404-418 | `VIDEO=<name>` sets the named quality. |
| Twitch.ProgramIdIgnored | src/gt-twitch.c:387-420 | An unrecognised attribute such as `PROGRAM-ID=1` changes nothing. |
| Twitch.WrittenAttrsRead | src/gt-twitch.c:385-421 | Every attribute Twitch writes after the first is read back into the zeroed record. |
| Twitch.AttrsClean | src/gt-twitch.c:385 | The written attributes contain no commas, so the naive split on `,` finds them intact. |
| Twitch.FirstAttributeIgnored | src/gt-twitch.c:385-391 | The first comma piece still carries `#EXT-X-STREAM-INF:` in its key, so it is never recognised and changes nothing. |
| Twitch.WrittenInfoLine | src/gt-twitch.c:380-421 | A stream-info line as Twitch writes it, `PROGRAM-ID` first, is recognised and its attributes read back the record. |
| Twitch.PlaylistRoundTrip | src/gt-twitch.c:372-434 | Reading a playlist written with `PROGRAM-ID` first gives back exactly the streams written, in order. |
| Twitch.BandwidthFirstIsLost | src/gt-twitch.c:385-394 | As written, a line whose first attribute is BANDWIDTH yields bandwidth 0. |
| Twitch.BandwidthFirstIsRead | src/gt-twitch.c:385-394 | With the tag and colon dropped before splitting, the first attribute is read: the bandwidth is `n`. |
| Twitch.IntendedInfoLine | src/gt-twitch.c:380-421 | With the correction, every attribute of a written line, the first included, is read back. |
| Twitch.InfoLineAttributes | src/gt-twitch.c:380-385 | The corrected split of a written line yields exactly the attributes written. |
| Twitch.IntendedAgreesOnTwitchLines | src/gt-twitch.c:372-434 | On playlists as Twitch writes them, the corrected parser returns exactly the streams written, like the one as written. So the correction changes nothing there. |
| Twitch.FilterQuality | src/gt-twitch.c:636-654 | An empty list gives NULL. Otherwise the result is one of the streams. |
| Twitch.FilterQualityFirst | src/gt-twitch.c:642-648 | When a stream has the requested quality, the result is the first such stream. |
| Twitch.FilterQualityFallback | src/gt-twitch.c:642-648 | When no stream has the requested quality, the result is the last stream. |
| Twitch.NewUtc | src/gt-twitch.c:367 | `g_date_time_new_utc` succeeds exactly on a valid calendar time and then keeps its fields. |
| Twitch.ScanInt | src/gt-twitch.c:365 | A `%d` conversion consumes at least one character. |
| Twitch.Expect | src/gt-twitch.c:365 | A literal in the format matches exactly that character and consumes it. |
| Twitch.ParseTime | src/gt-twitch.c:358-370 | A successful read is a valid UTC date and time. |
| Twitch.ScanPadded | src/gt-twitch.c:365 | A zero-padded decimal field reads back as its value. |
| Twitch.ScanField | src/gt-twitch.c:365 | A padded field and its separator read back the value, and the rest is left. |
| Twitch.ParseTimeRoundTrip | src/gt-twitch.c:358-370 | `Y-M-DTh:m:s` followed by any zone text reads back year, month, day, hour, minute and second in that order. |
| Twitch.OffsetIgnored | src/gt-twitch.c:365-367 | The trailing `Z` is never checked, so a time with offset `+02:00` reads as the same UTC time as with `Z`. |
| Twitch.FindData | src/gt-twitch.c:1904 | `g_list_find_custom` finds the first channel matching the stream, or reports that none matches. |
| Twitch.RemoveMatched | src/gt-twitch.c:1902-1922 | Each live stream removes one matched channel, so the remainder has one channel fewer per stream and is drawn from the followed channels. |
| Twitch.MergeFollowed | src/gt-twitch.c:1901-1924 | The merged list has as many entries as the followed channels and ends with the live streams, in order. |
| Twitch.RemoveMatchedOrder | src/gt-twitch.c:1902-1922 | The channels left after the removals keep their order. |
| Twitch.MergeKeepsOrder | src/gt-twitch.c:1901-1924 | The unmatched channels come first, in their original order. |
| Twitch.UnfollowedStreamFails | src/gt-twitch.c:1904-1912 | A live stream that matches no followed channel fails the whole call. |
| Twitch.ChannelsOf | src/gt-twitch.c:1926-1934 | One channel is built per merged entry, in order, from its raw data. |
| Twitch.BadgeKey | src/gt-twitch.c:1382 | Badges are keyed `<set>-<name>-<version>`. |
| Twitch.InsertVersions | src/gt-twitch.c:1364-1390 | Every version of a badge is stored under its key, and earlier entries are kept. A duplicate key is the `g_assert_false` crash. |
| Twitch.InsertBadges | src/gt-twitch.c:1356-1394 | Storing a set's badges keeps every earlier entry. |
| Twitch.FetchBadgeSet | src/gt-twitch.c:1327-1401 | The set name is recorded before the request, so it is recorded even when the request fails. Earlier entries are kept. |
| Twitch.FetchIfMissing | src/gt-twitch.c:1411-1428 | A set already recorded is not fetched again. Afterwards the set is always recorded. |
| Twitch.LoadBadgeSets | src/gt-twitch.c:1403-1434 | `global` is always recorded. On success the channel's set, keyed by its decimal id, is recorded too. |
| Twitch.LoadBadgeSetsMemoised | src/gt-twitch.c:1411-1431 | Once both sets are recorded, loading does nothing and its result does not depend on any response. |
| Twitch.FailedSetNotRetried | src/gt-twitch.c:1339-1341 | A failed `global` fetch stops the load before the channel's set. Because the name was recorded first, `global` is never fetched again. |
| Twitch.FetchChatBadge | src/gt-twitch.c:1438-1473 | The call aborts (None) exactly in three cases: the badge name or version is empty, loading the sets aborts, or the sets loaded but neither key is present. A failed load is reported as an error with no badge. Otherwise the badge returned is the channel-set entry when its key exists, and the `global-` entry when it does not. |
| Twitch.ChannelBadgePreferred | src/gt-twitch.c:1443-1467 | For a non-empty name and version, when both keys exist, the channel's badge wins over the global one. |
| Channels.NewChannel | src/gt-channel.c:59-66 | A new channel has only the given name and id. It is not favourited, followed, online or auto-updating. |
| Channels.UpdateFromRawData | src/gt-channel.c:386-399 | The live properties are copied from the raw record. Name, id and the user's flags are left alone. |
| Channels.FromRawData | src/gt-twitch.c:1926-1934 | A channel built from a raw record has that record's name, id and online state. |
| Channels.ToggleFavourited | src/gt-channel.c:401-409 | The favourited flag is negated and nothing else changes. |
| Channels.ToggleFollowed | src/gt-follows-manager.c:98-106 | The followed flag is negated and nothing else changes. |
| Channels.ToggleTwice | src/gt-channel.c:401-409 | Toggling a flag twice restores the channel. |
| Channels.Compare | src/gt-channel.c:417-441 | The result is FALSE (a match) exactly when the other object is a channel with an equal name and id. |
| Channels.CompareReflexiveSymmetric | src/gt-channel.c:417-441 | A channel matches itself, and the comparison does not depend on the order of its arguments. |
| Channels.CompareIgnoresLiveProperties | src/gt-channel.c:435 | Updating live data or toggling a flag never changes what a channel matches. |
| Channels.Serialize | src/gt-channel.c:366-378 | A channel is saved as exactly its name and id. |
| Channels.Deserialize | src/gt-channel.c:59-66 | A loaded channel has the saved name and id. |
| Channels.SerializeRoundTrip | src/gt-channel.c:366-378 | Saving then loading a channel gives one that matches it. A saved record survives loading and saving unchanged. |
| Channels.Find | src/gt-follows-manager.c:159 | The result is the first position whose channel matches, or none when no channel matches. |
| Channels.RemoveAt | src/gt-follows-manager.c:190 | Unlinking one element keeps those before it and shifts those after it down by one. |
| Channels.ChannelFollowed | src/gt-follows-manager.c:115-200 | A follow always gives a result. An unfollow gives one exactly when the channel is in the list. A failed remote call leaves the list alone and toggles the flag back. Otherwise a follow appends the channel. |
| Channels.UnfollowRemovesFirstMatch | src/gt-follows-manager.c:157-199 | An unfollow removes exactly the first matching element and keeps the rest in order. |
| Channels.FollowThenUnfollow | src/gt-follows-manager.c:115-200 | Following a channel not in the list and then unfollowing it gives the original list back. |
| Channels.IsListed | src/gt-follows-manager.c:603-607 | The answer is TRUE exactly when a matching channel is in the list. `gt_favourites_manager_is_channel_favourited` has the same body. |
| Channels.MarkFollowed | src/gt-follows-manager.c:544-550 | Each loaded channel gets auto-update and followed set, with nothing else changed. |
| Channels.FollowsAll | src/gt-follows-manager.c:430-460 | A failed fetch leaves no follows at all. A successful fetch makes the list exactly the fetched channels, in order, each marked followed. |
| Channels.LoadFollowsFromFile | src/gt-follows-manager.c:510-555 | A missing file gives an empty list. Otherwise there is one channel per saved record, in file order, each carrying that record's name and id and marked followed. |
| Channels.DeserializeAll | src/gt-follows-manager.c:534-553 | One channel is loaded per saved record, in order. |
| Channels.SerializeAll | src/gt-follows-manager.c:584-588 | One record is written per channel, in order. |
| Channels.SaveFollows | src/gt-follows-manager.c:563-601 | An empty list removes the file. Otherwise the file holds one record per channel, in order. |
| Channels.FollowsSaveLoad | src/gt-follows-manager.c:510-601 | Saving the follows and loading them back gives matching channels in the same order, all followed. |
| Channels.ChannelFavourited | src/gt-favourites-manager.c:83-125 | A favourite is appended whatever the remote call does. An unfavourite succeeds exactly when the channel is in the list and then removes one element. |
| Channels.UnfavouriteKeepsOthers | src/gt-favourites-manager.c:107-123 | An unfavourite deletes exactly the first matching element and keeps the rest in order. |
| Channels.FavouriteMembership | src/gt-favourites-manager.c:91-125 | After a favourite the channel is favourited. Unfavouriting a channel that is not in the list fails. |
| Channels.MarkFavourited | src/gt-favourites-manager.c:315-326 | Each fetched channel gets auto-update and favourited set, with nothing else changed. |
| Channels.FavouritesAll | src/gt-favourites-manager.c:300-329 | An error or an empty result keeps the old list. A non-empty result replaces it with the fetched channels, in order, each marked favourited. |
| Channels.FailedFetchContrast | src/gt-favourites-manager.c:307-311 | On a failed fetch the follows are emptied but the favourites are kept. |
| Channels.MoveLocalFavourites | src/gt-favourites-manager.c:245-255 | Accepting the move empties the list. Declining keeps it. |
| Channels.SaveFavourites | src/gt-favourites-manager.c:396-420 | The file holds one record per favourite, in order, each with that favourite's name and id, even when the list is empty. |
| Channels.LoadFavouritesFromFile | src/gt-favourites-manager.c:352-394 | A missing or unreadable file leaves the list unchanged. Otherwise the saved channels are appended after the ones already held, in file order, each marked favourited; the list is not cleared first. |
| Channels.FavouritesSaveLoad | src/gt-favourites-manager.c:396-420 | Saving the favourites and loading them into an empty list gives channels that match the originals position by position, all favourited. |
| Channels.FavouritesLoadTwiceDuplicates | src/gt-favourites-manager.c:352-394 | Loading the same file twice leaves two copies of every saved favourite, while the follows reader leaves one. |
| Channels.SetFilter | src/gt-channels-container-follow.c:41-51 | The stored query is replaced by the new one, which may be NULL. |
| Channels.FilterByName | src/gt-channels-container-follow.c:53-76 | With no query every child is shown. Otherwise a child is shown exactly when its name contains the query. |
| Channels.FilterReplacesQuery | src/gt-channels-container-follow.c:41-76 | After a query is set, filtering is substring search for that query. Clearing the query shows everything. |
| Channels.SortByNameAndOnline | src/gt-channels-container-follow.c:78-116 | Online channels sort before offline ones. Between two online or two offline channels, the order is `g_strcmp0` of their names. |
| Channels.SortAntisymmetric | src/gt-channels-container-follow.c:78-116 | Swapping the arguments negates the result. The result is 0 exactly when both channels have the same online state and name. |
| Http.Increment | src/gt-http-soup.c:116-133 | The category's count goes up by one, and a missing entry counts as 0. Other categories are unchanged. |
| Http.Decrement | src/gt-http-soup.c:94-114 | A count of 0 (stored as NULL) is silently left alone. Otherwise it goes down by one. Other categories are unchanged. |
| Http.DecrementUndoesIncrement | src/gt-http-soup.c:94-133 | A decrement after an increment restores every category's count. |
| Http.FirstEligible | src/gt-http-soup.c:381-389 | The result is the first queued request, from the given position on, whose category is below the limit. It is absent exactly when no such request exists. |
| Http.SendNext | src/gt-http-soup.c:373-408 | With nothing eligible, nothing changes. Otherwise the earliest eligible request leaves the queue, goes to the session, and its category's count rises by one. |
| Http.FirstEligibleUnique | src/gt-http-soup.c:381-389 | Only one queued request is the earliest eligible one. |
| Http.NewScheduler | src/gt-http-soup.c:565-574 | A new scheduler has an empty queue, holds no requests, and satisfies the invariant. |
| Http.DispatchKeepsCountAndBound | src/gt-http-soup.c:373-408 | A dispatch keeps each category's count equal to the number of its requests the session holds, and never above the limit. |
| Http.SettleAfterDispatch | src/gt-http-soup.c:373-408 | When only one category can gain a slot, one dispatch leaves nothing eligible waiting. |
| Http.SettledAfterSend | src/gt-http-soup.c:381-407 | After the earliest eligible request of the only category with room is sent, nothing eligible waits. |
| Http.Enqueue | src/gt-http-soup.c:443 | The request goes to the tail of the queue, and nothing else changes. |
| Http.EnqueueThenDispatch | src/gt-http-soup.c:443-445 | Queuing a request and then making one dispatch attempt preserves the invariant: counts match, limits hold, and nothing eligible waits. |
| Http.GetWithCategory | src/gt-http-soup.c:410-446 | An empty uri, empty category or zero flags does nothing. Otherwise the new request either waits at the tail of the queue or is sent at once. |
| Http.Get | src/gt-http-soup.c:448-453 | A request without a category is filed under `_NO_CATEGORY`. |
| Http.GetKeepsValid | src/gt-http-soup.c:410-446 | A request preserves the scheduler invariant. |
| Http.FindQueued | src/gt-http-soup.c:300 | The result is the first queued position holding the request, or none when it is not queued. |
| Http.Cancel | src/gt-http-soup.c:288-301 | Cancelling removes the request from the queue if it is still there. It changes nothing for a request already sent. |
| Http.CancelKeepsValid | src/gt-http-soup.c:288-301 | Cancelling preserves the scheduler invariant. |
| Http.RemoveQueuedKeepsValid | src/gt-http-soup.c:300 | Dropping any queued request preserves the invariant. |
| Http.AsciiDown | src/gt-http-soup.c:138-142 | Upper-case ASCII letters are lowered, and every other character is kept. |
| Http.Trim | src/gt-http-soup.c:138-142 | A trimmed list item is no longer than the original, and neither starts nor ends with white space. |
| Http.HeaderContainsConcat | src/gt-http-soup.c:138-142 | A header list contains a token exactly when one of its two halves does. |
| Http.CanCache | src/gt-http-soup.c:135-146 | A response may be cached exactly when it has neither `Pragma: no-cache`, nor `Cache-Control: no-cache`, nor `Expires: 0`. |
| Http.CanCacheConcat | src/gt-http-soup.c:135-146 | A response is cacheable exactly when both halves of its header list are. |
| Http.NoCacheIgnoresCase | src/gt-http-soup.c:138 | Header names and tokens are compared without regard to case, so `pragma: No-Cache` forbids caching. |
| Http.OneDirective | src/gt-http-soup.c:138-142 | A value that is a single, trimmed item equal to the token, ignoring case, contains the token. |
| Http.SameLetters | src/gt-http-soup.c:138-142 | Two strings that agree letter by letter after lowering are equal ignoring case. |
| Http.Release | src/gt-http-soup.c:320 | A finished request leaves the session. The queue and the limit are unchanged. |
| Http.Complete | src/gt-http-soup.c:303-371 | The reply is as follows. A cancelled request gets a cancellation error, even when it succeeded. A transport failure gets a send error, and a non-2xx status an unsuccessful-response error. A success with the cache flag and cacheable headers is cached; otherwise a success with the stream flag returns the stream, and a success with neither is silent. |
| Http.CompletionStateIgnoresOutcome | src/gt-http-soup.c:320-370 | The scheduler state after a completion is the same whatever the outcome: every path decrements and then dispatches. |
| Http.CompleteKeepsValid | src/gt-http-soup.c:303-371 | A completion preserves the scheduler invariant. |
| CacheFile.NewEntry | src/gt-cache-file.c:68-89 | A new entry has a fresh id, is created now, and has the given key, expiry and etag. |
| CacheFile.UpdateEntry | src/gt-cache-file.c:91-103 | An update keeps the id and key, sets created to now, and replaces expiry and etag. |
| CacheFile.UpdateOverwrites | src/gt-cache-file.c:91-103 | A second update wipes out the first: updating twice is the same as the last update alone. |
| CacheFile.SaveData | src/gt-cache-file.c:262-298 | An empty key, no data, or neither last-updated nor etag changes nothing. Otherwise: the key is stored with a new creation time, expiry and etag. It keeps its old id when it had one and gets a fresh id otherwise. Other entries are untouched, and the data file named by the id holds the data. |
| CacheFile.GetDataStream | src/gt-cache-file.c:342-382 | An empty key gives no stream. A key not in the database gives the entry-not-found error. A stream returned is the content of the file named by the entry's id. |
| CacheFile.SaveThenRead | src/gt-cache-file.c:262-382 | Reading a key straight after saving data under it gives that data. |
| CacheFile.SaveKeepsOtherData | src/gt-cache-file.c:278-297 | When ids are distinct and the fresh id is new, saving one key leaves what every other key reads unchanged, and keeps the ids distinct. |
| CacheFile.IsDataStale | src/gt-cache-file.c:300-340 | A bad query or a missing key is stale. Otherwise the data is stale exactly when any of these holds: now is past the expiry; the given last-updated time is later than the entry's creation; or both etags exist and differ. |
| CacheFile.StalenessAfterSave | src/gt-cache-file.c:262-340 | Just after a save, staleness depends only on the saved expiry, the save time and the saved etag. |
| CacheFile.StaleStaysStale | src/gt-cache-file.c:311-337 | Data found stale stays stale at every later time. |
| CacheFile.EntryJson | src/gt-cache-file.c:139-157 | Each entry is written as an object of exactly four members. |
| CacheFile.SaveMembers | src/gt-cache-file.c:132-157 | One member is written per key, in iteration order, named by the key and holding that entry's object. |
| CacheFile.SaveDb | src/gt-cache-file.c:119-169 | The database file is an object with one member per entry. |
| CacheFile.EnumeratesCard | src/gt-cache-file.c:132-134 | A hash-table walk visits each key exactly once. |
| CacheFile.Member | src/gt-cache-file.c:210-229 | A member lookup finds a member of that name, or reports that none exists. |
| CacheFile.LoadEntry | src/gt-cache-file.c:199-237 | A loaded entry is keyed by its member name. |
| CacheFile.LoadEntryJson | src/gt-cache-file.c:139-237 | Loading an entry's written object gives back that entry, etag NULL included. |
| CacheFile.EntryJsonMembers | src/gt-cache-file.c:144-154 | The written `id`, `created`, `expiry` and `etag` members are found under those names. |
| CacheFile.MemberAt | src/gt-cache-file.c:210-229 | A lookup returns the value of the first member with that name. |
| CacheFile.LoadMembers | src/gt-cache-file.c:197-239 | Loading only adds entries to the database and never removes one. |
| CacheFile.LoadDb | src/gt-cache-file.c:171-242 | A missing database file gives an empty database. |
| CacheFile.LoadSavedMembers | src/gt-cache-file.c:132-239 | Loading the written members adds exactly the written keys, each with its saved entry, and keeps every other entry. |
| CacheFile.SaveLoadRoundTrip | src/gt-cache-file.c:119-242 | Saving a database and loading the file gives back the same database. |
| InfoDialog.Push | src/gt-twitch-channel-info-dlg.c:73-75 | The current end offset is pushed on the head of the stack, and the text is unchanged. |
| InfoDialog.PopTag | src/gt-twitch-channel-info-dlg.c:122-129 | Popping an empty stack fails. Otherwise the head offset is removed and the tag is applied from it to the end of the text. |
| InfoDialog.Append | src/gt-twitch-channel-info-dlg.c:177-179 | Text is inserted at the end of the buffer. Tags and the stack are unchanged. |
| InfoDialog.StartElement | src/gt-twitch-channel-info-dlg.c:47-102 | `a` with an href, `strong` and `h1` push the end offset. `li` inserts a bullet. Any other element does nothing. An `a` without an href has no defined outcome. |
| InfoDialog.EndElement | src/gt-twitch-channel-info-dlg.c:104-164 | Closing `p` appends a blank line and closing `li` a newline. Closing `a` applies `link`, and closing `strong` applies `bold`. Closing `h1` applies `h1` and then appends a blank line. Any other element does nothing. |
| InfoDialog.ProcessConcat | src/gt-twitch-channel-info-dlg.c:182-199 | Feeding two event sequences in a row is feeding the first and then the second to its result. |
| InfoDialog.OpenStep | src/gt-twitch-channel-info-dlg.c:47-102 | An opening tag appends its opening text and pushes the offset exactly when the element is tagged. |
| InfoDialog.CloseStep | src/gt-twitch-channel-info-dlg.c:104-164 | A closing tag appends its closing text and, for a tagged element, records the span from its pushed offset. |
| InfoDialog.ProcessRenders | src/gt-twitch-channel-info-dlg.c:47-199 | For any well-nested document whose links all have hrefs, the parser appends exactly the document's rendering: its text, and one span per tagged element. The stack is left as it was. |
| InfoDialog.ProcessAllRenders | src/gt-twitch-channel-info-dlg.c:47-199 | The same holds for a sequence of sibling nodes. |
| InfoDialog.SpansInside | src/gt-twitch-channel-info-dlg.c:122-157 | Every span of a rendering lies within that rendering's text. |
| InfoDialog.SpansInsideAll | src/gt-twitch-channel-info-dlg.c:122-157 | Every span of a sequence of siblings lies within their text. |
| InfoDialog.CreateDefaultPanel | src/gt-twitch-channel-info-dlg.c:201-255 | The label is shown exactly for a non-empty title, and shows that title. The image is shown exactly when there is one. The text view is shown exactly when there is a description. A panel without a description always builds. |
| InfoDialog.PanelShowsRendering | src/gt-twitch-channel-info-dlg.c:201-255 | A panel whose description is a well-nested document shows exactly that document's rendering and leaves the shared stack unchanged. |
| InfoDialog.Distribute | src/gt-twitch-channel-info-dlg.c:332-360 | Panel `i` goes to column `i % 3`, in order. The three columns hold ceil(n/3), round(n/3) and floor(n/3) panels. |
| Utils.StrRpl | src/utils.c:35-50 | Without an occurrence the string is returned unchanged. A result of 4096 UTF-8 bytes or more (NUL included, it overruns the stack buffer) gives None, exactly when there is an occurrence. Otherwise the first occurrence is replaced, and the length changes by the difference of the two lengths. |
| Utils.StrStrIsFirst | src/utils.c:41 | `strstr` returns the first position where the needle occurs. |
| Utils.StrRplStepFound | src/utils.c:38-49 | When the first match lies past the first character and the result fits, the rest of the string fits too, and its replacement is the whole result less the first character. |
| Utils.StrRplStep | src/utils.c:35-50 | When the string does not start with `orig` and the result fits, the replacement keeps the first character and works on the rest. |
| Utils.StrRplIsReplaceFirst | src/utils.c:35-50 | Whenever the result fits the buffer, `strrpl` agrees with a character-by-character definition of replacing the first occurrence. |
| Utils.StrRplEmptyOrig | src/utils.c:41-47 | An empty `orig` matches at the start, so when the result fits, `rep` is put in front of the string. |
| Utils.StrRplSame | src/utils.c:35-50 | Replacing a string by itself gives the same string when it fits the buffer. |
| Utils.DupStringAllowNull | src/utils.c:14-21 | The result is a copy of the held string, or NULL when there is none. |
| Utils.RefSinkObject | src/utils.c:5-12 | The result is NULL for a NULL value, for a value not holding an object, and for a NULL object. Otherwise it is that object. |
| Utils.DupStringRoundTrip | src/utils.c:14-21 | A stored string, NULL included, reads back unchanged. |
| Utils.RefSinkRoundTrip | src/utils.c:5-12 | A stored object, NULL included, reads back unchanged. |

## Left out

- Sockets, worker threads, the IRC mutex, `GAsyncQueue` and main-loop sources are not modelled. Every reader and writer is a pure function of the bytes read or the lines written, so there is no concurrency to model.
- GTK widgets, text buffers, pixbufs, signals and reference counts are not modelled. Each widget is reduced to the state the cores read back: cells of a chat line, tag spans, visibility flags and the sticky flag.
- The clock, `GRand`, `g_uuid_string_random`, libsoup, json-glib and every Twitch API response are parameters of the functions that use them.
- The media backends, the player and all floating-point code lie outside these cores.
- The `print_git_version.py` build script is outside these cores.
- `gt_irc_is_connected` is not part of this model. It is taken to mean a state at or above CONNECTED.
- `utils_search_key_value_strv` is not part of this model. It is taken to scan (key, value) pairs and return the first matching value, or NULL for a NULL vector.
- `gt_channel_data_compare` is not part of this model. The followed-channels merge takes the match relation as a parameter.
- The `TWITCH_CHAT_CMD_*` constants are not part of this model. They are taken as `PING`, `PONG`, `JOIN` and `PART`.
- Channels.ToggleFollowed: `gt_channel_toggle_followed` is not part of this model. It is taken to negate the flag as `gt_channel_toggle_favourited` does.
- ChatView.ColourTag: the tag name is printed into a fixed 100-byte buffer as `chat_colour_<sender>`. A sender name of 88 bytes or more would overflow it; the buffer bound is not modelled.
- CStrings.Atoi: the C `int` range of `atoi` and of `%d` conversions is not enforced. Out-of-range input is undefined behaviour in C.
- ChatView.PickRandomColour: the draw comes from `g_rand_int_range(rand, 0, 12)`, so only the first twelve of the fifteen colours can be picked. This is modelled as written, since it may be deliberate.
- Chat.DefaultColour: the index is `total % 13`, so the last two of the fifteen colours are never used (Chat.AsciiNeverLastTwo). This is modelled as written.
- ChatView.EmptyTagFetchesEmoteZero: an empty `emotes` tag downloads the image of emote 0. This is modelled as written.
- ChatView.ViewMessageTextNoColon: a PRIVMSG text without the leading colon loses its first character. This is modelled as written.
- ChatView.ViewSourceMessage: an untagged PRIVMSG reads every tag as NULL, and `atoi(NULL)` crashes the view. The model returns `None` there.
- Twitch.MergeFollowed: the followed channels are fetched before the merge, and that fetch is not modelled. Every page after the first asks for offset 0 again. The merge frees each matched stream's data and then appends the streams list that still points at it; that use after free is not modelled, and the model keeps the streams' values. The `streams` list is also freed twice, once by the append's ownership and once at the end; that double free is not modelled either.
- Irc.ConnectAndJoin: `gt_app_get_user_info` is a parameter (Irc.Login). `utils_str_empty` is not part of this model and is taken to mean a NULL or empty token. The two reader threads start before the login lines are written; their interleaving with those writes is not modelled.
- Irc.ConnectAndJoin: `sscanf` with `%[^:]:%d` leaves `host` or `port` unset for a server string that starts with `:` or has no port number. The uninitialised values are not modelled; only the overflow of `host` is.
- Chat.DisconnectChat: the PART lines that Irc.Disconnect writes are not returned with the widget; Irc.Disconnect states them.
- Irc.ParsePrivmsg: each badge of the `badges` tag is fetched through `gt_twitch_fetch_chat_badge` for the current channel, under `g_assert_null(err)`. The model keeps the parsed `name/version` references instead. The fetch and its aborts are modelled on their own by Twitch.FetchChatBadge: an empty name or version, a badge in neither set, or a failed set load. They are not composed into the parse, so a parse result here is reached in C only when every badge fetch succeeds.
- Chat.ReceiveMessage: the URL regex match and the `url_tag` text tags it applies to the matched characters are not modelled. The tags carry the URL for a click handler; the same characters are inserted with or without them, so the cells of the line do not change.
- Twitch.LoadBadgeSets: a JSON error half-way through a badge set is not modelled. A fetched set arrives whole or fails whole.
- Channels.LoadFavouritesFromFile: the favourites reader differs from the follows reader (Channels.LoadFollowsFromFile). It appends to the current list instead of clearing it, and marks channels favourited rather than followed; both of these are modelled. It also takes no floating reference with `g_object_ref_sink` and emits no started- or finished-loading signals. Reference counting and signals are not modelled.
- Http.NewScheduler: the `max-inflight-per-category` limit is fixed at construction. Changing the property later is not modelled.
- Http.Increment: `guint` wrap-around is not modelled. Counts never exceed the limit, which is at most `G_MAXUINT`.
- Http.Cancel: a cancellable that is already cancelled when it is connected fires before the request is queued. That has the same effect as no cancellation, so it is not modelled separately.
- Http.Complete: `download_response`, buffered reading and `BUFFER_SIZE` are not modelled. `ToCache` stands for the whole download-and-store path.
- Http.Complete: the libsoup session is represented by the `sent` list, and a completion names one of its entries.
- Http.CanCache: `soup_header_contains` with quoted strings is not modelled. Header values are split at commas and trimmed.
- CacheFile.IsDataStale: times are whole seconds. In C, `now` and the `created` time of an entry stored in this session are `GDateTime` values with microseconds, while entries loaded from the file hold whole seconds. So within the second of expiry, or of a Last-Modified equal to the store time, the model can call an entry fresh that C calls stale.
- CacheFile.SaveDb: the JSON writer is taken to write `null` for a NULL etag.
- CacheFile.LoadEntry: an `id` that is not a string stops the load. JSON member lookup returns the first member of a given name.
- CacheFile.SaveData: the data file is written asynchronously in C. It is modelled as written at once, and a failed write is not modelled.
- CacheFile.GetDataStream: a `g_file_read` failure is the `ReadError` outcome. The stream is the file's content.
- Utils.StrRpl: when nothing matches, C returns the very same pointer and otherwise a new allocation. Ownership is not modelled.
- InfoDialog.CreateDefaultPanel: GMarkup well-formedness checks and the parse context's error state are not modelled. A description arrives as its event sequence, and the parse context and offset stack shared across panels are parameters.
- InfoDialog.StartElement: `cur_link` is written but never read, so it is not modelled. The attribute loop of an `a` without an `href` runs past the end of the array, which is undefined behaviour; the model returns `None`.
- InfoDialog.PopTag: popping an empty offset stack dereferences NULL in C. The model returns `None`.

## Findings

| source | as written | input that shows it | evidently intended | confidence | as-written member | corrected member |
|---|---|---|---|---|---|---|
| src/gt-twitch-chat-view.c:214 | The emote offset skips the sender by `strlen(sender) + 2`, which counts UTF-8 bytes, while the text buffer counts characters. | Sender `é`, message `Kappa x`, emotes tag `25:0-4`: the image replaces `appa ` and the `K` stays. | Skip the sender by its length in characters plus 2, so the image replaces `Kappa`. | not executed | ChatView.AsWrittenMisplacesEmote | ChatView.AddChatMsg |
| src/gt-twitch-chat-client.c:145-150 | The tag section is split from the whole rest of the line, so the last tag value swallows the prefix, command and message. | `@k=v :n!u@h PRIVMSG #c :hi` gives the last tag value `v :n!u@h PRIVMSG #c :hi`. | Split only the text up to the first space, as `src/gt-irc.c` does. | not executed | ChatClient.ClientTagsSwallowRest | ChatClient.ClientTagsIntended |
| src/gt-twitch.c:385-391 | The stream-info line is split at commas with the `#EXT-X-STREAM-INF:` tag still in front, so the first attribute's key carries the tag and is never recognised. | `#EXT-X-STREAM-INF:BANDWIDTH=5000` followed by a URL gives bandwidth 0. | Drop the tag before splitting, so the first attribute is read like the others. | not executed | Twitch.BandwidthFirstIsLost | Twitch.BandwidthFirstIsRead |
