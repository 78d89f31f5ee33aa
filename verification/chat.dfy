/** The chat widget of `gt-chat.c`, drawn from the messages the IRC client
    parses: a deterministic default colour per nick, the same line layout
    as the older chat view, an emote walk over the message characters, the
    "sticky" auto-scroll flag and the connect/disconnect bookkeeping. The
    text buffer is modelled as its lines of cells and the tag table as a
    map from tag name to foreground colour. */
module Chat {
  import opened Wrappers
  import opened CStrings
  import opened Emotes
  import opened Irc
  import opened Render

  // ---------------------------------------------------------------------
  // Default colours

  const ChatPalette: seq<string> := [
    "#FF0000", "#0000FF", "#00FF00", "#B22222", "#FF7F50", "#9ACD32", "#FF4500",
    "#2E8B57", "#DAA520", "#D2691E", "#5F9EA0", "#1E90FF", "#FF69B4", "#8A2BE2", "#00FF7F"]

  /** A byte read through a (signed) `char`. */
  function SignedChar(b: int): int {
    if b >= 128 then b - 256 else b
  }

  /** The C loop of `get_default_chat_colour`: the sum of the name's bytes,
      each read through `gchar`, which is signed on the platforms the
      program targets, so a byte of 128 or more adds a negative value. */
  function ByteSum(bytes: seq<int>): int {
    if |bytes| == 0 then 0 else SignedChar(bytes[0]) + ByteSum(bytes[1..])
  }

  /** The contribution of one character: the sum of its UTF-8 bytes. */
  function CharWeight(c: char): int {
    ByteSum(Utf8Char(c))
  }

  /** The same sum taken character by character. */
  function CodeSum(s: string): int {
    if |s| == 0 then 0 else CharWeight(s[0]) + CodeSum(s[1..])
  }

  lemma {:induction false} ByteSumConcat(a: seq<int>, b: seq<int>)
    ensures ByteSum(a + b) == ByteSum(a) + ByteSum(b)
  {
    if |a| > 0 {
      assert (a + b)[1..] == a[1..] + b;
      ByteSumConcat(a[1..], b);
    } else {
      assert a + b == b;
    }
  }

  /** Summing the bytes of the whole string is summing per character. */
  lemma {:induction false} ByteSumUtf8(s: string)
    ensures ByteSum(Utf8(s)) == CodeSum(s)
  {
    if |s| > 0 {
      ByteSumConcat(Utf8Char(s[0]), Utf8(s[1..]));
      ByteSumUtf8(s[1..]);
    }
  }

  /** C's `%`, which truncates toward zero: negative for a negative
      dividend. */
  function CRem(a: int, n: int): (r: int)
    requires n > 0
    ensures a >= 0 ==> 0 <= r < n && r == a % n
    ensures a < 0 ==> -n < r <= 0
  {
    if a >= 0 then a % n else -((-a) % n)
  }

  /** `get_default_chat_colour`: entry `total % 13` of the fifteen-entry
      table, where `total` adds up the name's bytes as signed `gchar`
      values. A NULL name is dereferenced and a negative index (possible
      only for non-ASCII names, whose bytes read as negative chars) reads
      outside the table: `None`. */
  function DefaultColour(name: Option<string>): (r: Option<string>)
    ensures name.Some? && (forall i :: 0 <= i < |name.value| ==> name.value[i] as int < 0x80)
            ==> r.Some? && r.value in ChatPalette[..13]
    ensures name.None? ==> r.None?
  {
    if name.None? then None
    else
      var total := ByteSum(Utf8(name.value));
      var idx := CRem(total, 13);
      AsciiSumNonNegative(name.value);
      if idx < 0 then None else Some(ChatPalette[idx])
  }

  /** An ASCII name's bytes are all non-negative chars. */
  lemma AsciiSumNonNegative(s: string)
    ensures (forall i :: 0 <= i < |s| ==> s[i] as int < 0x80) ==> ByteSum(Utf8(s)) >= 0
  {
    if forall i :: 0 <= i < |s| ==> s[i] as int < 0x80 {
      ByteSumUtf8(s);
      AsciiCodeSum(s);
    }
  }

  lemma {:induction false} AsciiCodeSum(s: string)
    requires forall i :: 0 <= i < |s| ==> s[i] as int < 0x80
    ensures CodeSum(s) >= 0
  {
    if |s| > 0 {
      assert s[0] as int < 0x80;
      var one := Utf8Char(s[0]);
      assert one == [s[0] as int] && one[1..] == [];
      assert ByteSum(one) == SignedChar(one[0]) + ByteSum(one[1..]);
      assert CharWeight(s[0]) == s[0] as int;
      assert forall i :: 0 <= i < |s[1..]| ==> s[1..][i] == s[i + 1];
      AsciiCodeSum(s[1..]);
    }
  }

  /** Only the first thirteen colours are ever given to an ASCII nick. */
  lemma AsciiNeverLastTwo(name: string)
    requires forall i :: 0 <= i < |name| ==> name[i] as int < 0x80
    ensures DefaultColour(Some(name)).Some?
    ensures DefaultColour(Some(name)).value != "#8A2BE2" && DefaultColour(Some(name)).value != "#00FF7F"
  {
  }

  lemma {:induction false} CodeSumConcat(a: string, b: string)
    ensures CodeSum(a + b) == CodeSum(a) + CodeSum(b)
  {
    if |a| > 0 {
      assert (a + b)[1..] == a[1..] + b;
      CodeSumConcat(a[1..], b);
    } else {
      assert a + b == b;
    }
  }

  /** The sum does not depend on the order of the characters. */
  lemma {:induction false} CodeSumPermutation(a: string, b: string)
    requires multiset(a) == multiset(b)
    ensures CodeSum(a) == CodeSum(b)
    decreases |a|
  {
    if |a| > 0 {
      assert a[0] in multiset(b);
      var k :| 0 <= k < |b| && b[k] == a[0];
      var b' := b[..k] + b[k + 1..];
      RemoveOne(a, b, k);
      CodeSumPermutation(a[1..], b');
      CodeSumSplit(b, k);
    } else {
      assert |multiset(b)| == 0;
    }
  }

  /** Taking the same character out of two anagrams leaves anagrams. */
  lemma RemoveOne(a: string, b: string, k: int)
    requires |a| > 0 && 0 <= k < |b| && b[k] == a[0] && multiset(a) == multiset(b)
    ensures multiset(a[1..]) == multiset(b[..k] + b[k + 1..])
  {
    var b' := b[..k] + b[k + 1..];
    assert a == [a[0]] + a[1..];
    assert b == b[..k] + [b[k]] + b[k + 1..];
    assert multiset(b) == multiset(b') + multiset{b[k]};
    assert multiset(a) == multiset(a[1..]) + multiset{a[0]};
    assert multiset(a[1..]) == multiset(a) - multiset{a[0]};
    assert multiset(b') == multiset(b) - multiset{b[k]};
  }

  /** The sum with one character taken out. */
  lemma CodeSumSplit(b: string, k: int)
    requires 0 <= k < |b|
    ensures CodeSum(b) == CodeSum(b[..k] + b[k + 1..]) + CharWeight(b[k])
  {
    assert b == b[..k] + ([b[k]] + b[k + 1..]);
    CodeSumConcat(b[..k], [b[k]] + b[k + 1..]);
    CodeSumConcat([b[k]], b[k + 1..]);
    CodeSumConcat(b[..k], b[k + 1..]);
    assert [b[k]][1..] == [];
  }

  /** Anagrams get the same default colour. */
  lemma AnagramsShareColour(a: string, b: string)
    requires multiset(a) == multiset(b)
    ensures DefaultColour(Some(a)) == DefaultColour(Some(b))
  {
    ByteSumUtf8(a);
    ByteSumUtf8(b);
    CodeSumPermutation(a, b);
  }

  // ---------------------------------------------------------------------
  // The emote walk

  /** The character loop of `irc_source_cb`. `l` is the part of the emote
      list not used yet and `cur` the emote last read from it (the C code
      keeps it after the list runs out). At index `i` the current emote, if
      it starts there, is drawn as one image and the loop resumes after its
      end; otherwise the character is drawn. Meeting the kept emote again
      after the list ran out advances a NULL list pointer: `None`. */
  function Walk(msg: string, l: seq<Emote>, cur: Option<Emote>, i: int): (r: Option<seq<Cell>>)
    ensures i >= |msg| ==> r == Some([])
    decreases |l|, |msg| - i
  {
    if i >= |msg| then Some([])
    else if i < 0 then None
    else
      var e := if |l| > 0 then Some(l[0]) else cur;
      if e.Some? && i == e.value.start then
        if |l| == 0 then None
        else
          var rest :- Walk(msg, l[1..], e, e.value.end + 1);
          Some([Image(e.value.id)] + rest)
      else
        var rest :- Walk(msg, l, e, i + 1);
        Some([Char(msg[i])] + rest)
  }

  /** Drawing proceeds one character at a time up to the next emote. */
  lemma RenderedCons(msg: string, es: seq<Emote>, from: int)
    requires 0 <= from < |msg| && EmotesFrom(es, from, |msg|)
    requires |es| == 0 || es[0].start > from
    ensures EmotesFrom(es, from + 1, |msg|)
    ensures Rendered(msg, es, from) == [Char(msg[from])] + Rendered(msg, es, from + 1)
  {
    var end := if |es| == 0 then |msg| else es[0].start;
    var head := msg[from..end];
    assert head[0] == msg[from] && head[1..] == msg[from + 1..end];
    assert Chars(head) == [Char(msg[from])] + Chars(msg[from + 1..end]);
    if |es| == 0 {
      assert head == msg[from..] && msg[from + 1..end] == msg[from + 1..];
    } else {
      var tail := [Image(es[0].id)] + Rendered(msg, es[1..], es[0].end + 1);
      assert Rendered(msg, es, from) == Chars(head) + tail;
      assert Rendered(msg, es, from + 1) == Chars(msg[from + 1..end]) + tail;
    }
  }

  /** The walk at the start of the next emote draws its image and resumes
      after its end. */
  lemma WalkImageStep(msg: string, es: seq<Emote>, cur: Option<Emote>, from: int)
    requires 0 <= from < |msg| && |es| > 0 && from == es[0].start
    ensures Walk(msg, es, cur, from)
            == (match Walk(msg, es[1..], Some(es[0]), es[0].end + 1)
                case None => None
                case Some(rest) => Some([Image(es[0].id)] + rest))
  {
  }

  /** Anywhere else the walk draws the character and moves on. */
  lemma WalkCharStep(msg: string, es: seq<Emote>, cur: Option<Emote>, from: int)
    requires 0 <= from < |msg|
    requires if |es| > 0 then es[0].start != from else cur.None? || cur.value.start != from
    ensures Walk(msg, es, cur, from)
            == (match Walk(msg, es, if |es| > 0 then Some(es[0]) else cur, from + 1)
                case None => None
                case Some(rest) => Some([Char(msg[from])] + rest))
  {
  }

  /** At an emote's start the reference drawing is its image. */
  lemma RenderedImage(msg: string, es: seq<Emote>, from: int)
    requires 0 <= from <= |msg| && EmotesFrom(es, from, |msg|)
    requires |es| > 0 && from == es[0].start
    ensures Rendered(msg, es, from) == [Image(es[0].id)] + Rendered(msg, es[1..], es[0].end + 1)
  {
    assert msg[from..es[0].start] == [];
    assert Chars(msg[from..es[0].start]) == [];
  }

  /** For well-formed emotes the walk draws the reference rendering. */
  lemma {:induction false} WalkRenders(msg: string, es: seq<Emote>, cur: Option<Emote>, from: int)
    requires 0 <= from <= |msg| && EmotesFrom(es, from, |msg|)
    requires |es| > 0 || cur.None? || cur.value.start < from
    ensures Walk(msg, es, cur, from) == Some(Rendered(msg, es, from))
    decreases |es|, |msg| - from
  {
    if from == |msg| {
      assert |es| == 0;
      assert msg[from..] == [];
    } else if |es| > 0 && from == es[0].start {
      WalkImageStep(msg, es, cur, from);
      WalkRenders(msg, es[1..], Some(es[0]), es[0].end + 1);
      RenderedImage(msg, es, from);
    } else {
      var e := if |es| > 0 then Some(es[0]) else cur;
      WalkCharStep(msg, es, cur, from);
      RenderedCons(msg, es, from);
      WalkRenders(msg, es, e, from + 1);
    }
  }

  // ---------------------------------------------------------------------
  // The widget

  /** One drawn line: the colour tag applied to the sender and the cells. */
  datatype ChatLine = ChatLine(colourTag: string, cells: seq<Cell>)

  /** The widget state: the tag table, the drawn lines, the auto-scroll
      flag, whether a channel is joined, the current channel, whether
      `chat_badges` holds badge images (it is NULL before the first
      download and after a failed one), and the IRC connection it drives. */
  datatype ChatWidget = ChatWidget(
    tags: map<string, string>,
    lines: seq<ChatLine>,
    sticky: bool,
    joined: bool,
    curChan: Option<string>,
    badges: bool,
    irc: Conn)

  /** `irc_source_cb`: PRIVMSGs are drawn, everything else is ignored. The
      sender is the display name unless it is missing or empty, else the
      nick; a missing or empty colour becomes the nick's default colour; the
      colour names its tag, created on first use. A NULL sender is refused
      by GTK's insert and leaves nothing. A sender with any user mode has
      its badge read from `chat_badges`, a NULL dereference when no badges
      are held: `None`. */
  function ReceiveMessage(w: ChatWidget, m: Message): (r: Option<ChatWidget>)
    ensures m.command != Some(Privmsg) || !m.body.PrivmsgBody? ==> r == Some(w)
    ensures m.command == Some(Privmsg) && m.body.PrivmsgBody? && m.body.userModes != {} && !w.badges ==> r.None?
    ensures r.Some? ==> r.value.sticky == w.sticky && r.value.joined == w.joined
                        && r.value.curChan == w.curChan && r.value.badges == w.badges && r.value.irc == w.irc
    ensures r.Some? && r != Some(w) ==> |r.value.lines| == |w.lines| + 1 && r.value.lines[..|w.lines|] == w.lines
                                        && w.tags.Keys <= r.value.tags.Keys
  {
    if m.command != Some(Privmsg) || !m.body.PrivmsgBody? then Some(w)
    else
      var b := m.body;
      var sender := SenderName(b.displayName, m.nick);
      var colour :- if b.colour.None? || |b.colour.value| < 1 then DefaultColour(m.nick) else b.colour;
      var tags := if colour in w.tags then w.tags else w.tags[colour := colour];
      if b.userModes != {} && !w.badges then None
      else
      var text :- Walk(b.text, b.emotes, None, 0);
      var cells := BadgeCells(BadgeOrder, b.userModes) + Chars(sender.GetOr("")) + Chars(": ") + text;
      var lines := w.lines + [ChatLine(colour, cells)];
      assert lines[..|w.lines|] == w.lines;
      Some(w.(tags := tags, lines := lines))
  }

  /** A PRIVMSG with well-formed emotes is drawn as its badges, the sender,
      ": " and the reference rendering of its text, under the colour it
      carries or else the nick's default colour. */
  lemma ChatDrawsPrivmsg(w: ChatWidget, m: Message, sender: string, colour: string)
    requires m.command == Some(Privmsg) && m.body.PrivmsgBody?
    requires w.badges || m.body.userModes == {}
    requires WellFormedEmotes(m.body.emotes, |m.body.text|)
    requires SenderName(m.body.displayName, m.nick) == Some(sender)
    requires (if m.body.colour.None? || |m.body.colour.value| < 1 then DefaultColour(m.nick)
              else m.body.colour) == Some(colour)
    ensures var r := ReceiveMessage(w, m);
            r.Some? && |r.value.lines| == |w.lines| + 1
            && r.value.lines[|w.lines|]
               == ChatLine(colour, BadgeCells(BadgeOrder, m.body.userModes) + Chars(sender) + Chars(": ")
                                   + Rendered(m.body.text, m.body.emotes, 0))
            && colour in r.value.tags
  {
    WalkRenders(m.body.text, m.body.emotes, None, 0);
  }

  /** A nick without colour keeps one colour: its default colour's tag is
      created once and reused for every later message. */
  lemma DefaultColourTagStable(w: ChatWidget, m1: Message, m2: Message)
    requires m1.command == Some(Privmsg) && m1.body.PrivmsgBody? && m1.body.colour.None?
    requires m2.command == Some(Privmsg) && m2.body.PrivmsgBody? && m2.body.colour.None?
    requires m1.nick == m2.nick
    ensures var r1 := ReceiveMessage(w, m1);
            r1.Some? ==> var r2 := ReceiveMessage(r1.value, m2);
                         r2.Some? ==> r2.value.lines[|r1.value.lines|].colourTag == r1.value.lines[|w.lines|].colourTag
                                      && r2.value.tags == r1.value.tags
  {
  }

  // ---------------------------------------------------------------------
  // Scrolling and connection

  /** The events that move the auto-scroll flag: the scrolled window's edge
      signal, a scroll-wheel event on it (`upward` when `delta_y < 0`), and
      a button press on its vertical scrollbar. */
  datatype ScrollEvent = EdgeReached(bottom: bool) | Scroll(upward: bool) | ScrollbarPress

  /** `edge_reached_cb` and `chat_scrolled_cb`: reaching the bottom edge
      makes the view sticky again; scrolling up or grabbing the scrollbar
      releases it; nothing else changes. */
  function OnScroll(w: ChatWidget, e: ScrollEvent): (r: ChatWidget)
    ensures r == w.(sticky := r.sticky)
    ensures r.sticky <==> e == EdgeReached(true) || (w.sticky && e != Scroll(true) && e != ScrollbarPress)
  {
    match e
    case EdgeReached(bottom) => if bottom then w.(sticky := true) else w
    case Scroll(upward) => if upward then w.(sticky := false) else w
    case ScrollbarPress => w.(sticky := false)
  }

  /** While nothing releases it, a sticky view stays sticky through any
      number of received messages and scroll events. */
  lemma {:induction false} StickyUntilReleased(w: ChatWidget, es: seq<ScrollEvent>)
    requires w.sticky
    requires forall i :: 0 <= i < |es| ==> es[i] != Scroll(true) && es[i] != ScrollbarPress
    ensures ApplyScrolls(w, es).sticky
    decreases |es|
  {
    if |es| > 0 {
      StickyUntilReleased(OnScroll(w, es[0]), es[1..]);
    }
  }

  function ApplyScrolls(w: ChatWidget, es: seq<ScrollEvent>): ChatWidget
    decreases |es|
  {
    if |es| == 0 then w else ApplyScrolls(OnScroll(w, es[0]), es[1..])
  }

  /** `gt_chat_connect`: the channel becomes current and joined, the view
      sticky; the badge download is started (its completion is
      `BadgesLoaded`). */
  function ConnectChat(w: ChatWidget, chan: string): (r: ChatWidget)
    ensures r.joined && r.sticky && r.curChan == Some(chan)
    ensures r.lines == w.lines && r.tags == w.tags && r.irc == w.irc
  {
    w.(joined := true, sticky := true, curChan := Some(chan))
  }

  /** `chat_badges_cb`: the badges held so far are freed first. When the
      new ones arrived they are kept and the IRC client connects to the
      current channel; a failed download leaves the widget without badges
      and changes nothing else. The result also carries the lines the
      client wrote while connecting. A NULL current channel cannot be
      passed on, and connecting can abort: `None`. */
  function BadgesLoaded(w: ChatWidget, loaded: bool, env: ConnectEnv): (r: Option<(ChatWidget, seq<Line>)>)
    ensures !loaded ==> r == Some((w.(badges := false), []))
    ensures loaded && w.curChan.Some? ==>
              r == (match ConnectAndJoin(w.irc, w.curChan.value, env)
                    case None => None
                    case Some(s) => Some((w.(badges := true, irc := s.conn), s.sent)))
    ensures loaded && w.curChan.None? ==> r.None?
    ensures r.Some? && loaded && w.irc.state == Disconnected ==>
              r.value.1 == (if env.socketsConnected then LoginLines(env.login) else [])
  {
    if !loaded then Some((w.(badges := false), []))
    else if w.curChan.None? then None
    else
      var s :- ConnectAndJoin(w.irc, w.curChan.value, env);
      Some((w.(badges := true, irc := s.conn), s.sent))
  }

  /** A failed badge download after a successful one frees the badges the
      widget was drawing with, while the client stays connected: the next
      PRIVMSG from a user with a mode crashes, although the same message
      was drawn before the failure. */
  lemma FailedReloadLosesBadges(w: ChatWidget, m: Message, env: ConnectEnv)
    requires w.curChan.Some? && ConnectSucceeds(env)
    requires m.command == Some(Privmsg) && m.body.PrivmsgBody? && m.body.userModes != {}
    requires WellFormedEmotes(m.body.emotes, |m.body.text|)
    requires SenderName(m.body.displayName, m.nick).Some?
    requires m.body.colour.Some? && |m.body.colour.value| > 0
    ensures var ok := BadgesLoaded(w, true, env);
            ok.Some? && ReceiveMessage(ok.value.0, m).Some?
            && var failed := BadgesLoaded(ok.value.0, false, env);
               failed.Some? && failed.value.0.irc == ok.value.0.irc && failed.value.1 == []
               && ReceiveMessage(failed.value.0, m).None?
  {
    var ok := BadgesLoaded(w, true, env).value.0;
    ChatDrawsPrivmsg(ok, m, SenderName(m.body.displayName, m.nick).value, m.body.colour.value);
  }

  /** `gt_chat_disconnect`: no channel joined, the IRC client disconnected
      if it was connected, and the buffer emptied. */
  function DisconnectChat(w: ChatWidget): (r: ChatWidget)
    ensures !r.joined && r.lines == []
    ensures Rank(w.irc.state) < Rank(Connected) ==> r.irc == w.irc
    ensures Rank(w.irc.state) >= Rank(Connected) ==> r.irc.state == Disconnected && r.irc.queue == []
    ensures Valid(w.irc) ==> Valid(r.irc)
    ensures r.tags == w.tags && r.sticky == w.sticky && r.curChan == w.curChan && r.badges == w.badges
  {
    var irc := if Rank(w.irc.state) >= Rank(Connected) then Disconnect(w.irc).conn else w.irc;
    w.(joined := false, irc := irc, lines := [])
  }

  /** Connecting, loading the badges and disconnecting again leaves a
      disconnected client and an empty, unjoined view. */
  lemma ConnectThenDisconnect(w: ChatWidget, chan: string, env: ConnectEnv)
    requires Valid(w.irc) && w.irc.state == Disconnected && ConnectSucceeds(env)
    ensures var c := BadgesLoaded(ConnectChat(w, chan), true, env);
            c.Some? && c.value.0.irc.chan == Some(chan)
            && c.value.1 == (if env.socketsConnected then LoginLines(env.login) else [])
            && var d := DisconnectChat(c.value.0);
               !d.joined && d.lines == [] && (d.irc.state == Disconnected || d.irc.state == Connecting)
               && Valid(d.irc)
  {
  }
}
