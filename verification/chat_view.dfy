/** The chat widget of `gt-twitch-chat-view.c`: it takes the messages the
    chat client queues, keeps the PRIVMSGs, and draws each one as a line of
    badges, the coloured sender, ": " and the message with its emotes
    replaced by images. The text buffer is modelled as its lines of cells,
    the tag table as a map from tag name to foreground colour, and the
    emote image cache as the set of cached ids. */
module ChatView {
  import opened Wrappers
  import opened CStrings
  import opened Emotes
  import opened Irc
  import opened Render
  import opened ChatClient

  // ---------------------------------------------------------------------
  // Colours

  const ViewPalette: seq<string> := [
    "#FF0000", "#0000FF", "#008000", "#B22222", "#FF7F50", "#9ACD32", "#FF4500",
    "#2E8B57", "#DAA520", "#D2691E", "#5F9EA0", "#1E90FF", "#FF69B4", "#8A2BE2", "#00FF7F"]

  /** `pick_random_default_chat_colour`: `draw` is the value of
      `g_rand_int_range(rand, 0, 12)`, whose upper bound is exclusive, so
      the last three of the fifteen colours are never picked. */
  function PickRandomColour(draw: int): (r: string)
    requires 0 <= draw < 12
    ensures r in ViewPalette
    ensures r != "#FF69B4" && r != "#8A2BE2" && r != "#00FF7F"
  {
    ViewPalette[draw]
  }

  // ---------------------------------------------------------------------
  // User modes as bits

  /** The `USER_MODE_*` bit of each mode. */
  function ModeBit(m: UserMode): (r: nat)
    ensures r in {1, 4, 8, 16, 32, 64, 128}
  {
    match m
    case GlobalMod => 1
    case Admin => 4
    case Broadcaster => 8
    case Mod => 16
    case Staff => 32
    case Turbo => 64
    case Subscriber => 128
  }

  /** `user_modes & bit` is non-zero, for a single-bit `bit`. */
  predicate HasBit(bits: int, bit: nat)
    requires bit > 0
  {
    (bits / bit) % 2 == 1
  }

  const AllModes: set<UserMode> := {Subscriber, Turbo, Mod, GlobalMod, Admin, Staff, Broadcaster}

  /** The modes whose bit is set. */
  function ModesOfBits(bits: int): set<UserMode> {
    set m | m in AllModes && HasBit(bits, ModeBit(m))
  }

  /** The bit of the first user-type that matches, as in the C `else if`
      chain. */
  function UserTypeBits(userType: Option<string>): (r: int)
    ensures r in {0, 1, 4, 16, 32}
  {
    if StrCmp0(userType, Some("mod")) == 0 then 16
    else if StrCmp0(userType, Some("global_mod")) == 0 then 1
    else if StrCmp0(userType, Some("admin")) == 0 then 4
    else if StrCmp0(userType, Some("staff")) == 0 then 32
    else 0
  }

  /** The `user_modes` value assembled in `twitch_chat_source_cb`; the bits
      are distinct, so the C `|=` is a sum here. The bits encode exactly the
      modes the IRC client computes as a set for the same tags. */
  function ViewModeBits(subscriber: bool, turbo: bool, userType: Option<string>): (r: int)
    ensures 0 <= r < 256
    ensures ModesOfBits(r) == (if subscriber then {Subscriber} else {})
                              + (if turbo then {Turbo} else {}) + UserTypeMode(userType)
  {
    var r := (if subscriber then 128 else 0) + (if turbo then 64 else 0) + UserTypeBits(userType);
    ModesOfBitsSpec(subscriber, turbo, UserTypeBits(userType));
    assert UserTypeBits(userType) == 16 <==> userType == Some("mod");
    assert UserTypeBits(userType) == 1 <==> userType == Some("global_mod");
    assert UserTypeBits(userType) == 4 <==> userType == Some("admin");
    assert UserTypeBits(userType) == 32 <==> userType == Some("staff");
    r
  }

  lemma ModesOfBitsSpec(subscriber: bool, turbo: bool, u: int)
    requires u in {0, 1, 4, 16, 32}
    ensures var bits := (if subscriber then 128 else 0) + (if turbo then 64 else 0) + u;
            ModesOfBits(bits) == (if subscriber then {Subscriber} else {})
                                 + (if turbo then {Turbo} else {})
                                 + (if u == 16 then {Mod} else if u == 1 then {GlobalMod}
                                    else if u == 4 then {Admin} else if u == 32 then {Staff} else {})
  {
    var bits := (if subscriber then 128 else 0) + (if turbo then 64 else 0) + u;
    assert HasBit(bits, 128) <==> subscriber;
    assert HasBit(bits, 64) <==> turbo;
    assert HasBit(bits, 16) <==> u == 16;
    assert HasBit(bits, 1) <==> u == 1;
    assert HasBit(bits, 4) <==> u == 4;
    assert HasBit(bits, 32) <==> u == 32;
    assert !HasBit(bits, 8);
  }

  // ---------------------------------------------------------------------
  // Emotes

  /** The ids of the `id:ranges` groups, in any order. */
  function GroupIds(groups: seq<string>): set<int> {
    if |groups| == 0 then {} else {GroupId(groups[0])} + GroupIds(groups[1..])
  }

  /** The image cache after walking `groups`, and the ids downloaded on the
      way: a group's image is downloaded only when its id is not cached yet,
      and is cached from then on. */
  function FetchGroups(groups: seq<string>, cache: set<int>): (r: (set<int>, seq<int>))
    ensures r.0 == cache + GroupIds(groups)
    decreases |groups|
  {
    if |groups| == 0 then (cache, [])
    else
      var id := GroupId(groups[0]);
      var rest := FetchGroups(groups[1..], cache + {id});
      if id in cache then rest else (rest.0, [id] + rest.1)
  }

  /** No id occurs twice. */
  predicate NoRepeats(s: seq<int>) {
    |s| == 0 || (s[0] !in s[1..] && NoRepeats(s[1..]))
  }

  /** Every image is downloaded at most once, and exactly the ids that were
      not cached before are downloaded. */
  lemma {:induction false} FetchedOnce(groups: seq<string>, cache: set<int>)
    ensures var r := FetchGroups(groups, cache);
            NoRepeats(r.1) && (forall x :: x in r.1 <==> x in r.0 && x !in cache)
    decreases |groups|
  {
    if |groups| > 0 {
      var id := GroupId(groups[0]);
      var rest := FetchGroups(groups[1..], cache + {id});
      FetchedOnce(groups[1..], cache + {id});
      if id !in cache {
        var f := [id] + rest.1;
        assert f[0] == id && f[1..] == rest.1;
      }
    }
  }

  /** What `parse_emote_string` leaves behind: the emotes sorted by start,
      the image cache, and the ids it downloaded. */
  datatype ViewEmotes = ViewEmotes(emotes: seq<Emote>, cache: set<int>, fetched: seq<int>)

  /** `parse_emote_string`: the same grammar as the IRC client's emote tag;
      each group's image is looked up or downloaded before its ranges are
      read, and the result is sorted by start. */
  function ParseViewEmotes(tag: Option<string>, cache: set<int>): (r: Option<ViewEmotes>)
    ensures r.Some? <==> ParseEmoteTag(tag).Some?
    ensures r.Some? ==> SortedByStart(r.value.emotes)
                        && multiset(r.value.emotes) == multiset(ParseEmoteTag(tag).value)
    ensures r.Some? ==> cache <= r.value.cache
                        && (forall id :: id in r.value.fetched <==> id in r.value.cache && id !in cache)
                        && NoRepeats(r.value.fetched)
    ensures tag.None? ==> r == Some(ViewEmotes([], cache, []))
  {
    var groups := StrSepAll(tag, {'/'});
    var (c, f) := FetchGroups(groups, cache);
    FetchedOnce(groups, cache);
    var es :- ParseEmoteTag(tag);
    Some(ViewEmotes(SortByStart(es), c, f))
  }

  /** An empty `emotes` tag still yields one group, "", whose id is
      `atoi("") == 0`: the image of emote 0 is downloaded although no emote
      is shown. */
  lemma EmptyTagFetchesEmoteZero(cache: set<int>)
    requires 0 !in cache
    ensures ParseViewEmotes(Some(""), cache) == Some(ViewEmotes([], cache + {0}, [0]))
  {
    assert StrSep(Some(""), {'/'}) == (Some(""), None);
    assert StrSepAll(Some(""), {'/'}) == [""];
    assert StrSep(Some(""), {':'}) == (Some(""), None);
    assert GroupId("") == 0;
    assert GroupRanges("") == [];
    var gs: seq<string> := [""];
    assert gs[0] == "" && gs[1..] == [];
    assert FetchGroups(gs[1..], cache + {0}) == (cache + {0}, []);
    assert GroupId(gs[0]) == 0 && 0 !in cache;
    var f1: seq<int> := [0];
    assert f1 + [] == [0];
    assert FetchGroups(gs, cache) == (cache + {0}, [0]);
    assert ParseRanges(0, []) == Some([]);
    assert ParseGroups(gs[1..]) == Some([]);
    var none: seq<Emote> := [];
    assert none + none == [];
    assert ParseGroups(gs) == Some([]);
  }

  /** An image already cached is never downloaded again, however often its
      emote appears. */
  lemma CachedNeverFetched(tag: Option<string>, cache: set<int>, id: int)
    requires id in cache
    ensures var r := ParseViewEmotes(tag, cache);
            r.Some? ==> id !in r.value.fetched && id in r.value.cache
  {
  }

  // ---------------------------------------------------------------------
  // Drawing a message

  /** `insert_message_with_emotes` after the message text is inserted: for
      each emote in turn, the cells from `start + offset - deleted` to
      `end + offset - deleted + 1` are deleted and the emote image put in
      their place; `deleted` grows by `end - start`. GTK refuses a line
      offset outside the line, which leaves the drawing undefined: `None`.
      `gtk_text_buffer_delete` orders its two iterators itself. */
  function ApplyEmotes(line: seq<Cell>, es: seq<Emote>, offset: int, deleted: int): (r: Option<seq<Cell>>)
    ensures |es| == 0 ==> r == Some(line)
    ensures r.Some? ==> |r.value| <= |line| + |es|
    decreases |es|
  {
    if |es| == 0 then Some(line)
    else
      var e := es[0];
      var a := e.start + offset - deleted;
      var b := e.end + offset - deleted + 1;
      if !(0 <= a <= |line| && 0 <= b <= |line|) then None
      else
        var lo := if a <= b then a else b;
        var hi := if a <= b then b else a;
        ApplyEmotes(line[..lo] + [Image(e.id)] + line[hi..], es[1..], offset, deleted + e.end - e.start)
  }

  /** Replacing the characters `msg[s..e]` of a line that ends with
      `msg[from..]` by one image. */
  lemma EmoteSplice(x: seq<Cell>, msg: string, from: int, s: int, e: int, id: int)
    requires 0 <= from <= s <= e < |msg|
    ensures var line := x + Chars(msg[from..]);
            var a := |x| + (s - from);
            var b := a + (e - s) + 1;
            b <= |line| && line[..a] + [Image(id)] + line[b..]
                           == (x + Chars(msg[from..s]) + [Image(id)]) + Chars(msg[e + 1..])
  {
    var u := msg[from..s];
    var w := msg[s..e + 1];
    var z := msg[e + 1..];
    assert msg[from..] == u + w + z;
    CharsConcat(u, w);
    CharsConcat(u + w, z);
    var line := x + Chars(msg[from..]);
    assert line == (x + Chars(u)) + (Chars(w) + Chars(z));
    var a := |x| + (s - from);
    assert line[..a] == x + Chars(u);
    assert line[a + |w|..] == Chars(z);
  }

  /** One round of the emote loop, with the two line offsets it computes. */
  lemma ApplyOne(line: seq<Cell>, es: seq<Emote>, offset: int, deleted: int, a: int, b: int)
    requires |es| > 0
    requires a == es[0].start + offset - deleted && b == es[0].end + offset - deleted + 1
    requires 0 <= a <= b <= |line|
    ensures ApplyEmotes(line, es, offset, deleted)
            == ApplyEmotes(line[..a] + [Image(es[0].id)] + line[b..], es[1..], offset, deleted + es[0].end - es[0].start)
  {
  }

  /** One emote drawn: the line ending in `msg[from..]` becomes the line
      ending in `msg[e.end + 1..]` with `d` grown by the characters before
      the emote and its image. */
  lemma DrawStep(p: seq<Cell>, d: seq<Cell>, d': seq<Cell>, msg: string, es: seq<Emote>, from: int, deleted: int)
    requires |es| > 0 && 0 <= from <= es[0].start <= es[0].end < |msg|
    requires |d| + deleted == from
    requires d' == d + Chars(msg[from..es[0].start]) + [Image(es[0].id)]
    ensures ApplyEmotes(p + d + Chars(msg[from..]), es, |p|, deleted)
            == ApplyEmotes(p + d' + Chars(msg[es[0].end + 1..]), es[1..], |p|, deleted + es[0].end - es[0].start)
  {
    var e := es[0];
    var line := p + d + Chars(msg[from..]);
    EmoteSplice(p + d, msg, from, e.start, e.end, e.id);
    var a := |p + d| + (e.start - from);
    var b := a + (e.end - e.start) + 1;
    ApplyOne(line, es, |p|, deleted, a, b);
    assert p + d + Chars(msg[from..e.start]) + [Image(e.id)] == p + d';
  }

  /** The generalised drawing step: after `d` cells of the message have
      been drawn (with `deleted` characters folded into images), the rest
      of the message is drawn as the reference rendering. */
  lemma {:induction false} ApplyEmotesRenders(p: seq<Cell>, d: seq<Cell>, msg: string, es: seq<Emote>, from: int, deleted: int)
    requires 0 <= from <= |msg| && EmotesFrom(es, from, |msg|)
    requires |d| + deleted == from
    ensures ApplyEmotes(p + d + Chars(msg[from..]), es, |p|, deleted) == Some(p + d + Rendered(msg, es, from))
    decreases |es|
  {
    if |es| > 0 {
      var c := Chars(msg[from..es[0].start]);
      var d' := d + c + [Image(es[0].id)];
      DrawStep(p, d, d', msg, es, from, deleted);
      ApplyEmotesRenders(p, d', msg, es[1..], es[0].end + 1, deleted + es[0].end - es[0].start);
      var rest := Rendered(msg, es[1..], es[0].end + 1);
      assert ApplyEmotes(p + d + Chars(msg[from..]), es, |p|, deleted) == Some(p + d' + rest);
      RenderedStep(msg, es, from);
      SpliceAssoc(p, d, c, Image(es[0].id), rest);
      assert p + d' + rest == p + d + Rendered(msg, es, from);
    } else {
      assert Rendered(msg, es, from) == Chars(msg[from..]);
      assert ApplyEmotes(p + d + Chars(msg[from..]), es, |p|, deleted) == Some(p + d + Chars(msg[from..]));
    }
  }

  lemma SpliceAssoc(p: seq<Cell>, d: seq<Cell>, c: seq<Cell>, img: Cell, rest: seq<Cell>)
    ensures p + (d + c + [img]) + rest == p + d + (c + [img] + rest)
  {
  }

  lemma RenderedStep(msg: string, es: seq<Emote>, from: int)
    requires 0 <= from <= |msg| && EmotesFrom(es, from, |msg|) && |es| > 0
    ensures Rendered(msg, es, from)
            == Chars(msg[from..es[0].start]) + [Image(es[0].id)] + Rendered(msg, es[1..], es[0].end + 1)
  {
  }

  /** Drawing a message with well-formed emotes after a `p` of `|p|` cells
      yields the reference rendering. */
  lemma InsertMessageRenders(p: seq<Cell>, msg: string, es: seq<Emote>)
    requires WellFormedEmotes(es, |msg|)
    ensures ApplyEmotes(p + Chars(msg), es, |p|, 0) == Some(p + Rendered(msg, es, 0))
  {
    assert msg[0..] == msg;
    assert p + [] == p;
    ApplyEmotesRenders(p, [], msg, es, 0, 0);
  }

  /** One drawn line: the colour tag applied to the sender and the cells. */
  datatype ViewLine = ViewLine(colourTag: string, cells: seq<Cell>)

  /** The widget: the tag table (tag name to foreground), the lines drawn
      so far and the ids of the cached emote images. */
  datatype View = View(tags: map<string, string>, lines: seq<ViewLine>, emoteCache: set<int>)

  /** The colour tag for a sender: a missing or empty colour uses the tag
      `chat_colour_<sender>`, created with a randomly drawn colour; a colour
      names its own tag with itself as foreground. An existing tag is
      reused as it is. */
  function ColourTag(tags: map<string, string>, sender: string, colour: Option<string>, draw: int): (r: (map<string, string>, string))
    requires 0 <= draw < 12
    ensures r.1 in r.0
    ensures r.1 in tags ==> r.0 == tags
    ensures r.1 !in tags ==> r.0 == tags[r.1 := if colour.Some? && |colour.value| > 0 then colour.value else PickRandomColour(draw)]
    ensures colour.Some? && |colour.value| > 0 ==> r.1 == colour.value
    ensures !(colour.Some? && |colour.value| > 0) ==> r.1 == "chat_colour_" + sender
  {
    var (name, fg) := if colour.None? || |colour.value| < 1 then ("chat_colour_" + sender, PickRandomColour(draw))
                      else (colour.value, colour.value);
    if name in tags then (tags, name) else (tags[name := fg], name)
  }

  /** The cells of the line `add_chat_msg` draws: the badges, the sender,
      ": " and the message are inserted, then the emotes are applied at
      offset `senderWidth + 2 + 2 * badges`, where `senderWidth` is the
      sender's width in line cells as the caller counts it. */
  function LineCells(sender: string, msg: string, es: seq<Emote>, bits: int, senderWidth: int): (r: Option<seq<Cell>>)
  {
    var badges := BadgeCells(BadgeOrder, ModesOfBits(bits));
    ApplyEmotes(badges + Chars(sender) + Chars(": ") + Chars(msg), es, senderWidth + 2 + |badges|, 0)
  }

  /** `add_chat_msg` with the sender's width given as `senderWidth`: one
      line is added, coloured by the sender's tag and holding the drawn
      cells; nothing else changes. A failing emote application draws
      nothing. */
  function AddChatMsgWith(v: View, sender: string, colour: Option<string>, msg: string, es: seq<Emote>,
                          bits: int, draw: int, senderWidth: int): (r: Option<View>)
    requires 0 <= draw < 12
    ensures r.Some? <==> LineCells(sender, msg, es, bits, senderWidth).Some?
    ensures r.Some? ==> r.value.emoteCache == v.emoteCache && r.value.tags == ColourTag(v.tags, sender, colour, draw).0
    ensures r.Some? ==> r.value.lines == v.lines + [ViewLine(ColourTag(v.tags, sender, colour, draw).1,
                                                              LineCells(sender, msg, es, bits, senderWidth).value)]
  {
    var (tags, tagName) := ColourTag(v.tags, sender, colour, draw);
    var cells :- LineCells(sender, msg, es, bits, senderWidth);
    Some(View(tags, v.lines + [ViewLine(tagName, cells)], v.emoteCache))
  }

  /** `add_chat_msg` as written: the offset counts the sender with
      `strlen`, that is in UTF-8 bytes, while GTK line offsets count
      characters. */
  function AddChatMsgAsWritten(v: View, sender: string, colour: Option<string>, msg: string, es: seq<Emote>,
                               bits: int, draw: int): (r: Option<View>)
    requires 0 <= draw < 12
    ensures (forall i :: 0 <= i < |sender| ==> sender[i] as int < 0x80)
            ==> r == AddChatMsg(v, sender, colour, msg, es, bits, draw)
  {
    AddChatMsgWith(v, sender, colour, msg, es, bits, draw, StrLen(sender))
  }

  /** `add_chat_msg` with the sender counted in characters, as the line
      offsets GTK uses: the message is drawn as the reference rendering. */
  function AddChatMsg(v: View, sender: string, colour: Option<string>, msg: string, es: seq<Emote>,
                      bits: int, draw: int): (r: Option<View>)
    requires 0 <= draw < 12
    ensures r.Some? ==> |r.value.lines| == |v.lines| + 1
    ensures WellFormedEmotes(es, |msg|) ==>
              r.Some? && r.value.lines[|v.lines|].cells
                         == BadgeCells(BadgeOrder, ModesOfBits(bits)) + Chars(sender) + Chars(": ") + Rendered(msg, es, 0)
  {
    var r := AddChatMsgWith(v, sender, colour, msg, es, bits, draw, |sender|);
    if WellFormedEmotes(es, |msg|) then
      var p := BadgeCells(BadgeOrder, ModesOfBits(bits)) + Chars(sender) + Chars(": ");
      assert p + Chars(msg) == BadgeCells(BadgeOrder, ModesOfBits(bits)) + Chars(sender) + Chars(": ") + Chars(msg);
      InsertMessageRenders(p, msg, es);
      r
    else r
  }

  /** A user without modes gets no badges. */
  lemma NoBadges()
    ensures BadgeCells(BadgeOrder, ModesOfBits(0)) == []
  {
    assert forall m :: m in AllModes ==> !HasBit(0, ModeBit(m));
    assert ModesOfBits(0) == {};
  }

  /** The line "é: Kappa x" with emote 25 over "Kappa", as drawn with the
      sender counted in bytes (offset 4) and in characters (offset 3). */
  lemma KappaLine(offset: int)
    requires offset == 3 || offset == 4
    ensures var line := [] + Chars("é") + Chars(": ") + Chars("Kappa x");
            ApplyEmotes(line, [Emote(25, 0, 4)], offset, 0)
            == Some(if offset == 4 then [Char('é'), Char(':'), Char(' '), Char('K'), Image(25), Char('x')]
                    else [Char('é'), Char(':'), Char(' '), Image(25), Char(' '), Char('x')])
  {
    var line := [] + Chars("é") + Chars(": ") + Chars("Kappa x");
    assert line == [Char('é'), Char(':'), Char(' '), Char('K'), Char('a'), Char('p'), Char('p'), Char('a'), Char(' '), Char('x')];
    var es := [Emote(25, 0, 4)];
    assert es[1..] == [];
    assert ApplyEmotes(line, es, offset, 0) == Some(line[..offset] + [Image(25)] + line[offset + 5..]);
    if offset == 4 {
      assert line[..4] == [Char('é'), Char(':'), Char(' '), Char('K')] && line[9..] == [Char('x')];
      assert line[..4] + [Image(25)] + line[9..] == [Char('é'), Char(':'), Char(' '), Char('K'), Image(25), Char('x')];
    } else {
      assert line[..3] == [Char('é'), Char(':'), Char(' ')] && line[8..] == [Char(' '), Char('x')];
      assert line[..3] + [Image(25)] + line[8..] == [Char('é'), Char(':'), Char(' '), Image(25), Char(' '), Char('x')];
    }
  }

  /** A sender with a non-ASCII name: "é" is one character but two bytes,
      so the as-written offset is one cell too far and the emote image
      replaces "appa " instead of "Kappa". */
  lemma AsWrittenMisplacesEmote(v: View)
    ensures var es := [Emote(25, 0, 4)];
            var written := AddChatMsgAsWritten(v, "é", None, "Kappa x", es, 0, 0);
            var intended := AddChatMsg(v, "é", None, "Kappa x", es, 0, 0);
            written.Some? && intended.Some?
            && written.value.lines[|v.lines|].cells
               == [Char('é'), Char(':'), Char(' '), Char('K'), Image(25), Char('x')]
            && intended.value.lines[|v.lines|].cells
               == [Char('é'), Char(':'), Char(' '), Image(25), Char(' '), Char('x')]
  {
    assert StrLen("é") == 2 by {
      assert Utf8Char('é') == [0xC3, 0xA9];
    }
    KappaCells(2);
    KappaCells(1);
  }

  /** The cells of the "é: Kappa x" line for a sender width of 2 (bytes)
      or 1 (characters). */
  lemma KappaCells(w: int)
    requires w == 1 || w == 2
    ensures LineCells("é", "Kappa x", [Emote(25, 0, 4)], 0, w)
            == Some(if w == 2 then [Char('é'), Char(':'), Char(' '), Char('K'), Image(25), Char('x')]
                    else [Char('é'), Char(':'), Char(' '), Image(25), Char(' '), Char('x')])
  {
    NoBadges();
    KappaLine(w + 2);
  }

  /** Once a sender without a colour has a tag, later messages reuse it:
      the foreground drawn for the first message stays, whatever is drawn
      later. */
  lemma SenderColourStable(tags: map<string, string>, sender: string, d1: int, d2: int)
    requires 0 <= d1 < 12 && 0 <= d2 < 12
    ensures var (t1, n1) := ColourTag(tags, sender, None, d1);
            var (t2, n2) := ColourTag(t1, sender, None, d2);
            n2 == n1 && t2 == t1 && t2[n2] == t1[n1]
  {
  }

  // ---------------------------------------------------------------------
  // The message source

  /** The message text of the PRIVMSG parameters: `strsep(&msg_str, " :")`
      stops at the first space OR colon, and then one character is skipped
      (meant to be the ':'). A missing delimiter leaves the pointer NULL and
      an empty remainder makes the skip run past the terminator: `None`.
      A CTCP message is unwrapped as in the IRC client. */
  function ViewMessageText(params: Option<string>): (r: Option<string>)
    ensures params.None? ==> r.None?
  {
    var (_, rest) := StrSep(params, {' ', ':'});
    if rest.None? || |rest.value| == 0 then None
    else StripCtcp(rest.value[1..])
  }

  /** `#chan :text` gives `text`, CTCP unwrapped. */
  lemma ViewMessageTextColon(target: string, text: string)
    requires NoneIn(target, {' ', ':'})
    ensures ViewMessageText(Some(target + " :" + text)) == StripCtcp(text)
  {
    var s := target + " :" + text;
    assert s == target + [' '] + (":" + text);
    StrSepAfter(target, ' ', ":" + text, {' ', ':'});
    assert (":" + text)[1..] == text;
  }

  /** Without the colon the first character of the text is lost. */
  lemma ViewMessageTextNoColon(target: string, c: char, text: string)
    requires NoneIn(target, {' ', ':'})
    requires c != '\U{0001}' && (|text| == 0 || text[0] != '\U{0001}')
    ensures ViewMessageText(Some(target + " " + [c] + text)) == Some(text)
  {
    var s := target + " " + [c] + text;
    assert s == target + [' '] + ([c] + text);
    StrSepAfter(target, ' ', [c] + text, {' ', ':'});
    assert ([c] + text)[1..] == text;
  }

  /** `twitch_chat_source_cb` for one queued message. Only PRIVMSG is
      drawn, and not when it comes from `twitchnotify`. The emote tag is
      parsed (and images fetched) first; the subscriber and turbo tags are
      read with `atoi`, which crashes on a missing tag: `None`. A message
      without tags reads every tag as NULL and so crashes too. `draw` is
      the random colour draw used if a new colour tag is made.

      `bytes` selects how the line is drawn: with the sender counted in
      UTF-8 bytes, as `add_chat_msg` is written (`AddChatMsgAsWritten`), or
      in characters, as intended (`AddChatMsg`). The program is the first. */
  function ViewSourceMessage(v: View, m: ChatMessage, draw: int, bytes: bool): (r: Option<View>)
    requires 0 <= draw < 12
    ensures StrCmp0(m.command, Some(PrivmsgCmd)) != 0 ==> r == Some(v)
    ensures m.command == Some(PrivmsgCmd) && m.nick == Some("twitchnotify") ==> r == Some(v)
    ensures m.command == Some(PrivmsgCmd) && m.nick != Some("twitchnotify") && m.tags.None? ==> r.None?
    ensures r.Some? && r != Some(v) ==> |r.value.lines| == |v.lines| + 1 && r.value.lines[..|v.lines|] == v.lines
    ensures r.Some? ==> v.emoteCache <= r.value.emoteCache
  {
    if StrCmp0(m.command, Some(PrivmsgCmd)) != 0 then Some(v)
    else if StrCmp0(m.nick, Some("twitchnotify")) == 0 then Some(v)
    else
      var kv := m.tags.GetOr([]);
      var emotes :- ParseViewEmotes(LookupTag(kv, "emotes"), v.emoteCache);
      var subscriber :- LookupTag(kv, "subscriber");
      var turbo :- LookupTag(kv, "turbo");
      var sender :- SenderName(LookupTag(kv, "display-name"), m.nick);
      var bits := ViewModeBits(Atoi(subscriber) != 0, Atoi(turbo) != 0, LookupTag(kv, "user-type"));
      var text :- ViewMessageText(m.params);
      if bytes then AddChatMsgAsWritten(v.(emoteCache := emotes.cache), sender, LookupTag(kv, "color"), text, emotes.emotes, bits, draw)
      else AddChatMsg(v.(emoteCache := emotes.cache), sender, LookupTag(kv, "color"), text, emotes.emotes, bits, draw)
  }

  /** With the sender counted in characters, a PRIVMSG with the required
      tags and well-formed emotes is drawn as one new line: the badges of
      its modes, the sender and the reference rendering of its text. */
  lemma ViewDrawsPrivmsgIntended(v: View, m: ChatMessage, draw: int, sub: string, turbo: string, sender: string,
                                 text: string, es: seq<Emote>)
    requires 0 <= draw < 12
    requires m.command == Some(PrivmsgCmd) && m.nick != Some("twitchnotify") && m.tags.Some?
    requires LookupTag(m.tags.value, "subscriber") == Some(sub) && LookupTag(m.tags.value, "turbo") == Some(turbo)
    requires SenderName(LookupTag(m.tags.value, "display-name"), m.nick) == Some(sender)
    requires ViewMessageText(m.params) == Some(text)
    requires ParseEmoteTag(LookupTag(m.tags.value, "emotes")) == Some(es) && WellFormedEmotes(es, |text|)
    ensures var r := ViewSourceMessage(v, m, draw, false);
            r.Some? && |r.value.lines| == |v.lines| + 1
            && r.value.lines[|v.lines|].cells
               == BadgeCells(BadgeOrder, (if Atoi(sub) != 0 then {Subscriber} else {})
                                         + (if Atoi(turbo) != 0 then {Turbo} else {})
                                         + UserTypeMode(LookupTag(m.tags.value, "user-type")))
                  + Chars(sender) + Chars(": ") + Rendered(text, es, 0)
  {
    var kv := m.tags.value;
    var pe := ParseViewEmotes(LookupTag(kv, "emotes"), v.emoteCache);
    WellFormedSorted(es, 0, |text|);
    SortSortedIsIdentity(es);
    assert pe.value.emotes == es;
  }

  /** As the program is written, the same line is drawn when every
      character of the sender is ASCII, so that bytes and characters agree:
      both ways of counting give the same view. */
  lemma ViewDrawsPrivmsg(v: View, m: ChatMessage, draw: int, sub: string, turbo: string, sender: string,
                         text: string, es: seq<Emote>)
    requires 0 <= draw < 12
    requires m.command == Some(PrivmsgCmd) && m.nick != Some("twitchnotify") && m.tags.Some?
    requires LookupTag(m.tags.value, "subscriber") == Some(sub) && LookupTag(m.tags.value, "turbo") == Some(turbo)
    requires SenderName(LookupTag(m.tags.value, "display-name"), m.nick) == Some(sender)
    requires forall i :: 0 <= i < |sender| ==> sender[i] as int < 0x80
    requires ViewMessageText(m.params) == Some(text)
    requires ParseEmoteTag(LookupTag(m.tags.value, "emotes")) == Some(es) && WellFormedEmotes(es, |text|)
    ensures ViewSourceMessage(v, m, draw, true) == ViewSourceMessage(v, m, draw, false)
    ensures var r := ViewSourceMessage(v, m, draw, true);
            r.Some? && |r.value.lines| == |v.lines| + 1
            && r.value.lines[|v.lines|].cells
               == BadgeCells(BadgeOrder, (if Atoi(sub) != 0 then {Subscriber} else {})
                                         + (if Atoi(turbo) != 0 then {Turbo} else {})
                                         + UserTypeMode(LookupTag(m.tags.value, "user-type")))
                  + Chars(sender) + Chars(": ") + Rendered(text, es, 0)
  {
    ViewDrawsPrivmsgIntended(v, m, draw, sub, turbo, sender, text, es);
  }
}
