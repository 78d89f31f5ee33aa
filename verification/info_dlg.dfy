/** The channel-info dialog of `gt-twitch-channel-info-dlg.c`.

    A panel's HTML description is fed through a markup parser whose
    callbacks write into a text buffer. `strong`, `h1` and `a` record the
    buffer's end offset when they open and pop it when they close, tagging
    the text in between. Panels are then placed round-robin into three
    columns.

    The markup parser is not modelled: a description arrives as the
    sequence of events it would report. Text-buffer offsets count
    characters.
 */
module InfoDialog {
  import opened Wrappers

  type Attribute = (string, string)

  /** One callback from the markup parser. */
  datatype Event = Open(name: string, attrs: seq<Attribute>) | Close(name: string) | Text(s: string)

  /** A tag applied to the characters `start .. end - 1`. */
  datatype Span = Span(tag: string, start: nat, end: nat)

  /** The text buffer being written and the dialog's offset stack, whose
      head is the most recently pushed offset. */
  datatype Buffer = Buffer(text: string, spans: seq<Span>, offsets: seq<nat>)

  const Bullet: string := "•"

  /** True when some attribute is `href`. The C loop looking for it has no
      other stopping condition, so an `a` element needs one. */
  predicate HasHref(attrs: seq<Attribute>) {
    exists i :: 0 <= i < |attrs| && attrs[i].0 == "href"
  }

  function Push(b: Buffer): (r: Buffer)
    ensures r.text == b.text && r.spans == b.spans && r.offsets == [|b.text|] + b.offsets
  {
    b.(offsets := [|b.text|] + b.offsets)
  }

  /** Pops the most recent offset and tags from it to the end. */
  function PopTag(b: Buffer, tag: string): (r: Option<Buffer>)
    ensures r.None? <==> |b.offsets| == 0
    ensures r.Some? ==> r.value.text == b.text && r.value.offsets == b.offsets[1..]
    ensures r.Some? ==> r.value.spans == b.spans + [Span(tag, b.offsets[0], |b.text|)]
  {
    if |b.offsets| == 0 then None
    else Some(b.(spans := b.spans + [Span(tag, b.offsets[0], |b.text|)], offsets := b.offsets[1..]))
  }

  function Append(b: Buffer, s: string): (r: Buffer)
    ensures r.text == b.text + s && r.spans == b.spans && r.offsets == b.offsets
  {
    b.(text := b.text + s)
  }

  /** `start_element`: `a` with an href, `strong` and `h1` push the end
      offset; `li` inserts a bullet; `p`, `ul` and anything else do
      nothing. An `a` without an href is `None`. */
  function StartElement(b: Buffer, name: string, attrs: seq<Attribute>): (r: Option<Buffer>)
    ensures r.None? <==> name == "a" && !HasHref(attrs)
    ensures r.Some? && (name == "strong" || name == "h1" || name == "a") ==> r.value == Push(b)
    ensures name == "li" ==> r == Some(Append(b, Bullet))
    ensures name !in {"a", "strong", "h1", "li"} ==> r == Some(b)
  {
    if name == "p" then Some(b)
    else if name == "a" then (if HasHref(attrs) then Some(Push(b)) else None)
    else if name == "strong" then Some(Push(b))
    else if name == "ul" then Some(b)
    else if name == "li" then Some(Append(b, Bullet))
    else if name == "h1" then Some(Push(b))
    else Some(b)
  }

  /** `end_element`: `p` appends a blank line; `a`, `strong` and `h1` pop
      their offset and tag the text since with `link`, `bold` and `h1`,
      and `h1` then appends a blank line; `li` ends its line. A pop with
      nothing pushed is `None`. */
  function EndElement(b: Buffer, name: string): (r: Option<Buffer>)
    ensures name == "p" ==> r == Some(Append(b, "\n\n"))
    ensures name == "a" ==> r == PopTag(b, "link")
    ensures name == "strong" ==> r == PopTag(b, "bold")
    ensures name == "li" ==> r == Some(Append(b, "\n"))
    ensures name == "h1" ==> r.Some? == PopTag(b, "h1").Some?
    ensures name == "h1" && r.Some? ==> r.value == Append(PopTag(b, "h1").value, "\n\n")
    ensures name !in {"p", "a", "strong", "li", "h1"} ==> r == Some(b)
  {
    if name == "p" then Some(Append(b, "\n\n"))
    else if name == "a" then PopTag(b, "link")
    else if name == "strong" then PopTag(b, "bold")
    else if name == "ul" then Some(b)
    else if name == "li" then Some(Append(b, "\n"))
    else if name == "h1" then
      match PopTag(b, "h1")
      case None => None
      case Some(b') => Some(Append(b', "\n\n"))
    else Some(b)
  }

  function Step(b: Buffer, e: Event): Option<Buffer> {
    match e
    case Open(name, attrs) => StartElement(b, name, attrs)
    case Close(name) => EndElement(b, name)
    case Text(s) => Some(Append(b, s))
  }

  /** The callbacks run over a whole description. */
  function Process(es: seq<Event>, b: Buffer): (r: Option<Buffer>)
    decreases |es|
  {
    if |es| == 0 then Some(b)
    else
      match Step(b, es[0])
      case None => None
      case Some(b') => Process(es[1..], b')
  }

  lemma {:induction false} ProcessConcat(xs: seq<Event>, ys: seq<Event>, b: Buffer)
    ensures Process(xs + ys, b) == (match Process(xs, b) case None => None case Some(b') => Process(ys, b'))
    decreases |xs|
  {
    if |xs| == 0 {
      assert xs + ys == ys;
    } else {
      assert (xs + ys)[0] == xs[0];
      assert (xs + ys)[1..] == xs[1..] + ys;
      match Step(b, xs[0])
      case None =>
      case Some(b') => ProcessConcat(xs[1..], ys, b');
    }
  }

  // ---------------------------------------------------------------------
  // Well-nested descriptions
  // ---------------------------------------------------------------------

  /** A description as a tree of elements and text. */
  datatype Node = Element(name: string, attrs: seq<Attribute>, children: seq<Node>) | TextNode(s: string)

  /** The events the parser reports for a tree. */
  function Events(n: Node): seq<Event>
    decreases n
  {
    match n
    case TextNode(s) => [Text(s)]
    case Element(name, attrs, cs) => [Open(name, attrs)] + EventsAll(cs) + [Close(name)]
  }

  function EventsAll(ns: seq<Node>): seq<Event>
    decreases ns
  {
    if |ns| == 0 then [] else Events(ns[0]) + EventsAll(ns[1..])
  }

  /** Every `a` in the tree has an href. */
  predicate Linkable(n: Node)
    decreases n
  {
    match n
    case TextNode(_) => true
    case Element(name, attrs, cs) => (name == "a" ==> HasHref(attrs)) && LinkableAll(cs)
  }

  predicate LinkableAll(ns: seq<Node>)
    decreases ns
  {
    |ns| == 0 || (Linkable(ns[0]) && LinkableAll(ns[1..]))
  }

  /** The text an element's tag adds before its children. */
  function Opening(name: string): string {
    if name == "li" then Bullet else ""
  }

  /** The text an element's tag adds after its children. */
  function Closing(name: string): string {
    if name == "p" || name == "h1" then "\n\n" else if name == "li" then "\n" else ""
  }

  /** The tag an element applies to its children's text, if any. */
  function TagOf(name: string): Option<string> {
    if name == "a" then Some("link")
    else if name == "strong" then Some("bold")
    else if name == "h1" then Some("h1")
    else None
  }

  /** Reference rendering of a tree placed at offset `at`: its text, and
      the spans it tags, each covering exactly the text of its element's
      children. */
  function Render(n: Node, at: nat): (r: (string, seq<Span>))
    decreases n
  {
    match n
    case TextNode(s) => (s, [])
    case Element(name, _, cs) =>
      var inner := RenderAll(cs, at + |Opening(name)|);
      var start := at + |Opening(name)|;
      var own := if TagOf(name).Some? then [Span(TagOf(name).value, start, start + |inner.0|)] else [];
      (Opening(name) + inner.0 + Closing(name), inner.1 + own)
  }

  function RenderAll(ns: seq<Node>, at: nat): (r: (string, seq<Span>))
    decreases ns
  {
    if |ns| == 0 then ("", [])
    else
      var first := Render(ns[0], at);
      var rest := RenderAll(ns[1..], at + |first.0|);
      (first.0 + rest.0, first.1 + rest.1)
  }

  /** What an opening tag does to the buffer. */
  lemma OpenStep(b: Buffer, name: string, attrs: seq<Attribute>)
    requires name == "a" ==> HasHref(attrs)
    ensures Process([Open(name, attrs)], b)
            == Some(b.(text := b.text + Opening(name), offsets := if TagOf(name).Some? then [|b.text|] + b.offsets else b.offsets))
  {
    assert [Open(name, attrs)][1..] == [];
    assert b.text + "" == b.text;
  }

  /** What a closing tag does to a buffer whose stack holds the offset
      its opening tag pushed. */
  lemma CloseStep(m: Buffer, name: string, start: nat, base: seq<nat>)
    requires m.offsets == (if TagOf(name).Some? then [start] + base else base)
    ensures Process([Close(name)], m)
            == Some(m.(text := m.text + Closing(name),
                       spans := m.spans + (if TagOf(name).Some? then [Span(TagOf(name).value, start, |m.text|)] else []),
                       offsets := base))
  {
    assert [Close(name)][1..] == [];
    assert m.text + "" == m.text;
    assert m.spans + [] == m.spans;
  }

  /** The events of an element run as its open, its children, its close. */
  lemma ElementEvents(name: string, attrs: seq<Attribute>, cs: seq<Node>, b: Buffer, b1: Buffer, b2: Buffer, b3: Buffer)
    requires Process([Open(name, attrs)], b) == Some(b1)
    requires Process(EventsAll(cs), b1) == Some(b2)
    requires Process([Close(name)], b2) == Some(b3)
    ensures Process(Events(Element(name, attrs, cs)), b) == Some(b3)
  {
    ProcessConcat([Open(name, attrs)] + EventsAll(cs), [Close(name)], b);
    ProcessConcat([Open(name, attrs)], EventsAll(cs), b);
  }

  /** The buffer after an element's close holds the text and spans of its
      reference rendering. */
  lemma ElementFrame(name: string, attrs: seq<Attribute>, cs: seq<Node>, b: Buffer, openBuf: Buffer, mid: Buffer, last: Buffer)
    requires openBuf == b.(text := b.text + Opening(name), offsets := if TagOf(name).Some? then [|b.text|] + b.offsets else b.offsets)
    requires mid == openBuf.(text := openBuf.text + RenderAll(cs, |openBuf.text|).0, spans := openBuf.spans + RenderAll(cs, |openBuf.text|).1)
    requires last == mid.(text := mid.text + Closing(name),
                          spans := mid.spans + (if TagOf(name).Some? then [Span(TagOf(name).value, |openBuf.text|, |mid.text|)] else []),
                          offsets := b.offsets)
    ensures last == b.(text := b.text + Render(Element(name, attrs, cs), |b.text|).0,
                       spans := b.spans + Render(Element(name, attrs, cs), |b.text|).1)
  {
    var inner := RenderAll(cs, |openBuf.text|);
    var own := if TagOf(name).Some? then [Span(TagOf(name).value, |openBuf.text|, |mid.text|)] else [];
    var r := Render(Element(name, attrs, cs), |b.text|);
    RenderElement(name, attrs, cs, |b.text|);
    assert inner == RenderAll(cs, |b.text| + |Opening(name)|);
    assert r.0 == Opening(name) + inner.0 + Closing(name);
    assert r.1 == inner.1 + own;
    Framed(b.text, Opening(name), inner.0, Closing(name));
    Framed(b.spans, [], inner.1, own);
    assert last.text == b.text + r.0;
    assert last.spans == b.spans + r.1;
  }

  /** An element's rendering unfolded once. */
  lemma RenderElement(name: string, attrs: seq<Attribute>, cs: seq<Node>, at: nat)
    ensures Render(Element(name, attrs, cs), at)
            == (Opening(name) + RenderAll(cs, at + |Opening(name)|).0 + Closing(name),
                RenderAll(cs, at + |Opening(name)|).1
                + (if TagOf(name).Some?
                   then [Span(TagOf(name).value, at + |Opening(name)|, at + |Opening(name)| + |RenderAll(cs, at + |Opening(name)|).0|)]
                   else []))
  {
  }

  lemma Framed<T>(a: seq<T>, o: seq<T>, i: seq<T>, c: seq<T>)
    ensures a + o + i + c == a + (o + i + c)
    ensures (a + o) + i + c == a + (o + i + c)
  {
  }

  /** Running the callbacks over a well-nested tree appends its reference
      rendering and leaves the offset stack as it was: every close pops
      exactly the offset its own open pushed. */
  lemma {:induction false} ProcessRenders(n: Node, b: Buffer)
    requires Linkable(n)
    ensures Process(Events(n), b) == Some(b.(text := b.text + Render(n, |b.text|).0, spans := b.spans + Render(n, |b.text|).1))
    decreases n, 1
  {
    match n
    case TextNode(s) =>
      assert [Text(s)][1..] == [];
      assert b.spans + [] == b.spans;
    case Element(name, attrs, cs) =>
      var openBuf := b.(text := b.text + Opening(name), offsets := if TagOf(name).Some? then [|b.text|] + b.offsets else b.offsets);
      ProcessAllRenders(cs, openBuf);
      var inner := RenderAll(cs, |openBuf.text|);
      var mid := openBuf.(text := openBuf.text + inner.0, spans := openBuf.spans + inner.1);
      var own := if TagOf(name).Some? then [Span(TagOf(name).value, |openBuf.text|, |mid.text|)] else [];
      var last := mid.(text := mid.text + Closing(name), spans := mid.spans + own, offsets := b.offsets);
      assert Process([Open(name, attrs)], b) == Some(openBuf) by {
        OpenStep(b, name, attrs);
      }
      assert Process([Close(name)], mid) == Some(last) by {
        CloseStep(mid, name, |openBuf.text|, b.offsets);
      }
      ElementEvents(name, attrs, cs, b, openBuf, mid, last);
      ElementFrame(name, attrs, cs, b, openBuf, mid, last);
  }

  lemma {:induction false} ProcessAllRenders(ns: seq<Node>, b: Buffer)
    requires LinkableAll(ns)
    ensures Process(EventsAll(ns), b) == Some(b.(text := b.text + RenderAll(ns, |b.text|).0, spans := b.spans + RenderAll(ns, |b.text|).1))
    decreases ns, 0
  {
    if |ns| == 0 {
      assert b.text + "" == b.text && b.spans + [] == b.spans;
    } else {
      ProcessRenders(ns[0], b);
      var first := Render(ns[0], |b.text|);
      var b1 := b.(text := b.text + first.0, spans := b.spans + first.1);
      ProcessAllRenders(ns[1..], b1);
      var rest := RenderAll(ns[1..], |b1.text|);
      var last := b1.(text := b1.text + rest.0, spans := b1.spans + rest.1);
      SiblingEvents(ns, b, b1, last);
      SiblingFrame(ns, b, b1, last);
    }
  }

  /** A list of siblings runs as its first node, then the rest. */
  lemma SiblingEvents(ns: seq<Node>, b: Buffer, b1: Buffer, b2: Buffer)
    requires |ns| > 0
    requires Process(Events(ns[0]), b) == Some(b1)
    requires Process(EventsAll(ns[1..]), b1) == Some(b2)
    ensures Process(EventsAll(ns), b) == Some(b2)
  {
    ProcessConcat(Events(ns[0]), EventsAll(ns[1..]), b);
  }

  /** The buffer after the siblings holds their joint rendering. */
  lemma SiblingFrame(ns: seq<Node>, b: Buffer, b1: Buffer, last: Buffer)
    requires |ns| > 0
    requires b1 == b.(text := b.text + Render(ns[0], |b.text|).0, spans := b.spans + Render(ns[0], |b.text|).1)
    requires last == b1.(text := b1.text + RenderAll(ns[1..], |b1.text|).0, spans := b1.spans + RenderAll(ns[1..], |b1.text|).1)
    ensures last == b.(text := b.text + RenderAll(ns, |b.text|).0, spans := b.spans + RenderAll(ns, |b.text|).1)
  {
    var first := Render(ns[0], |b.text|);
    assert |b1.text| == |b.text| + |first.0|;
    var rest := RenderAll(ns[1..], |b.text| + |first.0|);
    assert RenderAll(ns, |b.text|) == (first.0 + rest.0, first.1 + rest.1);
    AppendTwice(b, b1, last, first.0, first.1, rest.0, rest.1);
  }

  /** Appending twice to a buffer is appending the concatenation once. */
  lemma AppendTwice(b: Buffer, b1: Buffer, last: Buffer, t1: string, s1: seq<Span>, t2: string, s2: seq<Span>)
    requires b1 == b.(text := b.text + t1, spans := b.spans + s1)
    requires last == b1.(text := b1.text + t2, spans := b1.spans + s2)
    ensures last == b.(text := b.text + (t1 + t2), spans := b.spans + (s1 + s2))
  {
    assert b.text + t1 + t2 == b.text + (t1 + t2);
    assert b.spans + s1 + s2 == b.spans + (s1 + s2);
  }

  /** Each span of a rendering lies inside the rendered text. */
  lemma {:induction false} SpansInside(n: Node, at: nat)
    ensures forall i :: 0 <= i < |Render(n, at).1| ==> at <= Render(n, at).1[i].start <= Render(n, at).1[i].end <= at + |Render(n, at).0|
    decreases n, 1
  {
    match n
    case TextNode(_) =>
    case Element(name, _, cs) =>
      SpansInsideAll(cs, at + |Opening(name)|);
  }

  lemma {:induction false} SpansInsideAll(ns: seq<Node>, at: nat)
    ensures forall i :: 0 <= i < |RenderAll(ns, at).1| ==> at <= RenderAll(ns, at).1[i].start <= RenderAll(ns, at).1[i].end <= at + |RenderAll(ns, at).0|
    decreases ns, 0
  {
    if |ns| > 0 {
      var first := Render(ns[0], at);
      SpansInside(ns[0], at);
      SpansInsideAll(ns[1..], at + |first.0|);
    }
  }

  // ---------------------------------------------------------------------
  // Panels
  // ---------------------------------------------------------------------

  /** A panel of channel information. The description is the event
      sequence of its HTML, when it has one. */
  datatype Panel = Panel(title: Option<string>, image: Option<nat>, description: Option<seq<Event>>)

  /** The widget built for a panel: the label text when it is shown, the
      image's visibility, and the description's buffer when the text view
      is shown. */
  datatype PanelWidget = PanelWidget(caption: Option<string>, imageVisible: bool, text: Option<Buffer>)

  /** `create_default_panel`. The offset stack is the dialog's, shared by
      every panel, so it comes in as a parameter. `None` when the
      description pops an empty stack or has an `a` without an href. */
  function CreateDefaultPanel(p: Panel, offsets: seq<nat>): (r: Option<PanelWidget>)
    ensures r.Some? ==> (r.value.caption.Some? <==> p.title.Some? && |p.title.value| > 0)
    ensures r.Some? && r.value.caption.Some? ==> r.value.caption == p.title
    ensures r.Some? ==> (r.value.imageVisible <==> p.image.Some?)
    ensures r.Some? ==> (r.value.text.Some? <==> p.description.Some?)
    ensures p.description.None? ==> r.Some?
  {
    var caption := if p.title.Some? && |p.title.value| > 0 then p.title else None;
    match p.description
    case None => Some(PanelWidget(caption, p.image.Some?, None))
    case Some(es) =>
      match Process(es, Buffer("", [], offsets))
      case None => None
      case Some(b) => Some(PanelWidget(caption, p.image.Some?, Some(b)))
  }

  /** A panel whose description is a well-nested tree shows exactly that
      tree's rendering, and hands the offset stack back unchanged. */
  lemma PanelShowsRendering(title: Option<string>, image: Option<nat>, doc: Node, offsets: seq<nat>)
    requires Linkable(doc)
    ensures CreateDefaultPanel(Panel(title, image, Some(Events(doc))), offsets)
            == Some(PanelWidget(if title.Some? && |title.value| > 0 then title else None, image.Some?,
                                Some(Buffer(Render(doc, 0).0, Render(doc, 0).1, offsets))))
  {
    ProcessRenders(doc, Buffer("", [], offsets));
    assert "" + Render(doc, 0).0 == Render(doc, 0).0;
    assert [] + Render(doc, 0).1 == Render(doc, 0).1;
  }

  /** `gt_twitch_channel_info_dlg_load_channel`'s placement: item `i` goes
      to column `i % 3`, in order. */
  method Distribute<T>(items: seq<T>) returns (col1: seq<T>, col2: seq<T>, col3: seq<T>)
    ensures |col1| == (|items| + 2) / 3 && |col2| == (|items| + 1) / 3 && |col3| == |items| / 3
    ensures forall j :: 0 <= j < |col1| ==> col1[j] == items[3 * j]
    ensures forall j :: 0 <= j < |col2| ==> col2[j] == items[3 * j + 1]
    ensures forall j :: 0 <= j < |col3| ==> col3[j] == items[3 * j + 2]
  {
    col1, col2, col3 := [], [], [];
    var pos := 0;
    while pos < |items|
      invariant 0 <= pos <= |items|
      invariant |col1| == (pos + 2) / 3 && |col2| == (pos + 1) / 3 && |col3| == pos / 3
      invariant forall j :: 0 <= j < |col1| ==> col1[j] == items[3 * j]
      invariant forall j :: 0 <= j < |col2| ==> col2[j] == items[3 * j + 1]
      invariant forall j :: 0 <= j < |col3| ==> col3[j] == items[3 * j + 2]
    {
      if pos % 3 == 0 {
        col1 := col1 + [items[pos]];
      } else if pos % 3 == 1 {
        col2 := col2 + [items[pos]];
      } else {
        col3 := col3 + [items[pos]];
      }
      pos := pos + 1;
    }
  }
}
