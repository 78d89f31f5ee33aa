/** What a chat line looks like once drawn into the text buffer: a sequence
    of cells, each a character or an image (an emote or a user-mode badge).
    Both chat widgets draw the same line for a message; the reference
    drawing of a message with its emotes is defined here once, and the two
    widgets' algorithms are proved to produce it. */
module Render {
  import opened Wrappers
  import opened Emotes
  import opened Irc

  /** One position of a text-buffer line: GTK counts an embedded pixbuf as
      one character. */
  datatype Cell = Char(c: char) | Image(id: int) | BadgeImage(mode: UserMode)

  function Chars(s: string): (r: seq<Cell>)
    ensures |r| == |s|
  {
    if |s| == 0 then [] else [Char(s[0])] + Chars(s[1..])
  }

  lemma {:induction false} CharsIndex(s: string, i: int)
    requires 0 <= i < |s|
    ensures Chars(s)[i] == Char(s[i])
  {
    if i > 0 {
      CharsIndex(s[1..], i - 1);
    }
  }

  lemma {:induction false} CharsConcat(a: string, b: string)
    ensures Chars(a + b) == Chars(a) + Chars(b)
  {
    if |a| > 0 {
      assert (a + b)[1..] == a[1..] + b;
      CharsConcat(a[1..], b);
    } else {
      assert a + b == b;
    }
  }

  /** Emote ranges a message can be drawn with: in order, each inside the
      message, starting at or after `from`, and not overlapping the next. */
  predicate EmotesFrom(es: seq<Emote>, from: int, n: int)
    decreases |es|
  {
    |es| == 0 || (from <= es[0].start <= es[0].end < n && EmotesFrom(es[1..], es[0].end + 1, n))
  }

  predicate WellFormedEmotes(es: seq<Emote>, n: int) {
    EmotesFrom(es, 0, n)
  }

  /** The number of characters the emotes remove beyond the one image cell
      each leaves behind. */
  function Shift(es: seq<Emote>): int {
    if |es| == 0 then 0 else es[0].end - es[0].start + Shift(es[1..])
  }

  /** The reference drawing of `msg[from..]`: every emote's characters are
      replaced by one image of that emote, everything else is kept. */
  function Rendered(msg: string, es: seq<Emote>, from: int): (r: seq<Cell>)
    requires 0 <= from <= |msg| && EmotesFrom(es, from, |msg|)
    decreases |es|
  {
    if |es| == 0 then Chars(msg[from..])
    else Chars(msg[from..es[0].start]) + [Image(es[0].id)] + Rendered(msg, es[1..], es[0].end + 1)
  }

  /** Drawing shortens the message by exactly the emotes' shift. */
  lemma {:induction false} RenderedLength(msg: string, es: seq<Emote>, from: int)
    requires 0 <= from <= |msg| && EmotesFrom(es, from, |msg|)
    ensures |Rendered(msg, es, from)| == |msg| - from - Shift(es)
    decreases |es|
  {
    if |es| > 0 {
      RenderedLength(msg, es[1..], es[0].end + 1);
    }
  }

  /** A message without emotes is drawn as its characters. */
  lemma RenderedPlain(msg: string)
    ensures Rendered(msg, [], 0) == Chars(msg)
  {
    assert msg[0..] == msg;
  }

  /** Well-formed emotes are already sorted by start, so the parsers' sort
      leaves them as they are. */
  lemma {:induction false} WellFormedSorted(es: seq<Emote>, from: int, n: int)
    requires EmotesFrom(es, from, n)
    ensures SortedByStart(es)
    ensures forall k :: 0 <= k < |es| ==> from <= es[k].start
    decreases |es|
  {
    if |es| > 0 {
      WellFormedSorted(es[1..], es[0].end + 1, n);
      assert forall k :: 1 <= k < |es| ==> es[k] == es[1..][k - 1];
    }
  }

  /** The user-mode badges in the order both widgets draw them. */
  const BadgeOrder: seq<UserMode> := [Subscriber, Turbo, GlobalMod, Broadcaster, Staff, Admin, Mod]

  /** The badges drawn for `modes`: an image followed by a space for each
      mode of `order` that is present, in that order. */
  function BadgeCells(order: seq<UserMode>, modes: set<UserMode>): (r: seq<Cell>)
    ensures |r| % 2 == 0
    ensures forall m :: BadgeImage(m) in r <==> m in order && m in modes
    ensures forall i :: 0 <= i < |r| ==> (i % 2 == 0 <==> r[i].BadgeImage?)
    ensures forall i :: 0 <= i < |r| && i % 2 == 1 ==> r[i] == Char(' ')
  {
    if |order| == 0 then []
    else
      var rest := BadgeCells(order[1..], modes);
      if order[0] in modes then
        var r := [BadgeImage(order[0]), Char(' ')] + rest;
        assert forall i :: 2 <= i < |r| ==> r[i] == rest[i - 2];
        r
      else rest
  }

  /** The sender shown: the display name unless it is missing or empty,
      else the nick. */
  function SenderName(displayName: Option<string>, nick: Option<string>): (r: Option<string>)
    ensures displayName.Some? && |displayName.value| > 0 ==> r == displayName
    ensures !(displayName.Some? && |displayName.value| > 0) ==> r == nick
  {
    if displayName.None? || |displayName.value| < 1 then nick else displayName
  }
}
