/** The data shaping of `gt-twitch.c`: the HLS master-playlist reader, the
    stream quality filter, the timestamp reader, the merge of followed
    streams into followed channels, and the chat-badge table with its
    memoised set loading.

    Network responses are parameters: a fetched badge set is given as the
    list of its badges (or `None` for a failed request), and the followed
    streams and channels as lists of raw channel records.
 */
module Twitch {
  import opened Wrappers
  import opened CStrings
  import opened Channels

  // ---------------------------------------------------------------------
  // The master playlist (section 4.3.4.2 of RFC 8216)

  const StreamInfo := "#EXT-X-STREAM-INF"

  datatype Quality = Source | High | Medium | Low | Mobile | AudioOnly

  /** `GtTwitchStreamData`. `g_malloc0` zeroes every field, so an attribute
      that is never read leaves 0 and the quality `SOURCE` (the first
      enumerator). */
  datatype StreamData = StreamData(quality: Quality, width: int, height: int, bandwidth: int, url: string)

  const Zeroed := StreamData(Source, 0, 0, 0, "")

  /** The quoted VIDEO values and the quality each names. */
  function QualityOf(value: string): (r: Option<Quality>)
  {
    if value == "\"chunked\"" then Some(Source)
    else if value == "\"high\"" then Some(High)
    else if value == "\"medium\"" then Some(Medium)
    else if value == "\"low\"" then Some(Low)
    else if value == "\"mobile\"" then Some(Mobile)
    else if value == "\"audio_only\"" then Some(AudioOnly)
    else None
  }

  /** The VIDEO value that names each quality. */
  function QualityName(q: Quality): (r: string)
    ensures QualityOf(r) == Some(q)
  {
    match q
    case Source => "\"chunked\""
    case High => "\"high\""
    case Medium => "\"medium\""
    case Low => "\"low\""
    case Mobile => "\"mobile\""
    case AudioOnly => "\"audio_only\""
  }

  /** One `KEY=VALUE` attribute of a stream-info line, split naively with
      `g_strsplit(attr, "=")`. BANDWIDTH is read with `atol`, RESOLUTION
      `WxH` with `atoi` on each side of the `x`, VIDEO through the quality
      names (an unknown name keeps the current quality); any other key is
      ignored. A missing piece is a NULL the C code passes to `strcmp` or
      `atoi`: `None`. */
  function ApplyAttribute(st: StreamData, attr: string): (r: Option<StreamData>)
    ensures r.Some? ==> r.value.url == st.url
    ensures |attr| > 0 && NoneIn(attr, {'='}) && attr != "BANDWIDTH" && attr != "RESOLUTION" && attr != "VIDEO"
            ==> r == Some(st)
  {
    var kv := SplitSet(attr, {'='});
    if |kv| == 0 then None
    else if kv[0] == "BANDWIDTH" then
      if |kv| < 2 then None else Some(st.(bandwidth := Atoi(kv[1])))
    else if kv[0] == "RESOLUTION" then
      if |kv| < 2 then None
      else
        var res := SplitSet(kv[1], {'x'});
        if |res| < 2 then None else Some(st.(width := Atoi(res[0]), height := Atoi(res[1])))
    else if kv[0] == "VIDEO" then
      if |kv| < 2 then None
      else
        match QualityOf(kv[1])
        case Some(q) => Some(st.(quality := q))
        case None => Some(st)
    else Some(st)
  }

  /** The attributes of one line, applied in order. */
  function ApplyAttributes(st: StreamData, attrs: seq<string>): (r: Option<StreamData>)
    ensures r.Some? ==> r.value.url == st.url
    decreases |attrs|
  {
    if |attrs| == 0 then Some(st)
    else
      var st' :- ApplyAttribute(st, attrs[0]);
      ApplyAttributes(st', attrs[1..])
  }

  /** The loop of `parse_playlist` over the lines. A line starting with
      `#EXT-X-STREAM-INF` gives a record whose attributes are the
      comma-separated pieces of the WHOLE line, so the first piece still
      carries the tag; the following line is its URL and is skipped by the
      loop. A stream-info line with no line after it makes the C loop step
      past the end of the vector: `None`. */
  function ParseLines(lines: seq<string>): (r: Option<seq<StreamData>>)
    decreases |lines|
  {
    if |lines| == 0 then Some([])
    else if HasPrefix(lines[0], StreamInfo) then
      var st :- ApplyAttributes(Zeroed, SplitSet(lines[0], {','}));
      if |lines| < 2 then None
      else
        var rest :- ParseLines(lines[2..]);
        Some([st.(url := lines[1])] + rest)
    else ParseLines(lines[1..])
  }

  /** `parse_playlist`. */
  function ParsePlaylist(playlist: string): (r: Option<seq<StreamData>>)
  {
    ParseLines(SplitSet(playlist, {'\n'}))
  }

  /** The number of records the loop produces: one per stream-info line,
      the line after each being consumed as its URL. */
  function StreamInfoCount(lines: seq<string>): nat
    decreases |lines|
  {
    if |lines| == 0 then 0
    else if HasPrefix(lines[0], StreamInfo) then 1 + (if |lines| < 2 then 0 else StreamInfoCount(lines[2..]))
    else StreamInfoCount(lines[1..])
  }

  /** One record per stream-info line, in order, each with the URL from the
      line after it. */
  lemma {:induction false} ParseLinesShape(lines: seq<string>)
    requires ParseLines(lines).Some?
    ensures |ParseLines(lines).value| == StreamInfoCount(lines)
    ensures |lines| > 0 && HasPrefix(lines[0], StreamInfo) ==>
              |lines| >= 2 && ParseLines(lines).value[0].url == lines[1]
    decreases |lines|
  {
    if |lines| > 0 {
      if HasPrefix(lines[0], StreamInfo) {
        ParseLinesShape(lines[2..]);
      } else {
        ParseLinesShape(lines[1..]);
      }
    }
  }

  /** The records a playlist can be written for: no negative numbers. */
  predicate Writable(s: StreamData) {
    s.bandwidth >= 0 && s.width >= 0 && s.height >= 0
  }

  function BandwidthAttr(n: nat): string {
    "BANDWIDTH=" + NatToString(n)
  }

  function ResolutionAttr(w: nat, h: nat): string {
    "RESOLUTION=" + (NatToString(w) + "x" + NatToString(h))
  }

  function VideoAttr(q: Quality): string {
    "VIDEO=" + QualityName(q)
  }

  const ProgramIdAttr := "PROGRAM-ID=1"

  /** The attributes Twitch writes for a stream, `PROGRAM-ID` first. */
  function Attrs(s: StreamData): seq<string>
    requires Writable(s)
  {
    [ProgramIdAttr, BandwidthAttr(s.bandwidth), ResolutionAttr(s.width, s.height), VideoAttr(s.quality)]
  }

  /** A stream-info line: the tag, a colon and the comma-separated
      attributes. */
  function InfoLine(s: StreamData): string
    requires Writable(s)
  {
    StreamInfo + ":" + Join(Attrs(s), ',')
  }

  lemma HasPrefixConcat(p: string, x: string)
    ensures HasPrefix(p + x, p)
  {
    assert (p + x)[..|p|] == p;
  }

  /** A digit string holds none of the playlist's separators. */
  lemma DigitsClean(d: string, delims: set<char>)
    requires forall i :: 0 <= i < |d| ==> IsDigit(d[i])
    requires forall c :: c in delims ==> !IsDigit(c)
    ensures NoneIn(d, delims)
  {
  }

  /** Splitting a join of separator-free pieces gives the pieces back. */
  lemma {:induction false} PiecesOfJoin(parts: seq<string>, sep: char)
    requires |parts| > 0
    requires forall i :: 0 <= i < |parts| ==> NoneIn(parts[i], {sep})
    ensures Pieces(Join(parts, sep), {sep}) == parts
    decreases |parts|
  {
    if |parts| == 1 {
      StrSepNone(parts[0], {sep});
    } else {
      PiecesAfter(parts[0], sep, Join(parts[1..], sep), {sep});
      PiecesOfJoin(parts[1..], sep);
      assert parts == [parts[0]] + parts[1..];
    }
  }

  /** Prefixing a join prefixes its first piece. */
  lemma PrefixJoin(p: string, parts: seq<string>, sep: char)
    requires |parts| > 0
    ensures p + Join(parts, sep) == Join([p + parts[0]] + parts[1..], sep)
  {
    var q := [p + parts[0]] + parts[1..];
    assert q[1..] == parts[1..];
    if |parts| > 1 {
      assert p + Join(parts, sep) == (p + parts[0]) + [sep] + Join(parts[1..], sep);
    }
  }

  /** Applying a list of attributes one attribute at a time. */
  lemma ApplyCons(st: StreamData, a: string, rest: seq<string>, st': StreamData)
    requires ApplyAttribute(st, a) == Some(st')
    ensures ApplyAttributes(st, [a] + rest) == ApplyAttributes(st', rest)
  {
    assert ([a] + rest)[1..] == rest;
  }

  /** `"KEY=" + value` with a value free of '=' splits into key and value. */
  lemma KeyValue(key: string, value: string)
    requires NoneIn(key, {'='}) && NoneIn(value, {'='}) && |key| > 0
    ensures SplitSet(key + "=" + value, {'='}) == [key, value]
  {
    assert key + "=" + value == key + ['='] + value;
    PiecesAfter(key, '=', value, {'='});
    StrSepNone(value, {'='});
  }

  lemma BandwidthAttrRead(st: StreamData, n: nat)
    ensures ApplyAttribute(st, BandwidthAttr(n)) == Some(st.(bandwidth := n))
  {
    var d := NatToString(n);
    DigitsClean(d, {'='});
    assert BandwidthAttr(n) == "BANDWIDTH" + "=" + d;
    KeyValue("BANDWIDTH", d);
    AtoiDigits(d);
    NatToStringValue(n);
  }

  lemma ResolutionAttrRead(st: StreamData, w: nat, h: nat)
    ensures ApplyAttribute(st, ResolutionAttr(w, h)) == Some(st.(width := w, height := h))
  {
    var v := NatToString(w) + "x" + NatToString(h);
    ResolutionSplit(w, h);
    ResolutionValue(w, h);
    ResolutionBranch(st, ResolutionAttr(w, h), v, w, h);
  }

  /** `RESOLUTION=WxH` splits on '=' into the key and the value. */
  lemma ResolutionSplit(w: nat, h: nat)
    ensures SplitSet(ResolutionAttr(w, h), {'='}) == ["RESOLUTION", NatToString(w) + "x" + NatToString(h)]
  {
    var v := NatToString(w) + "x" + NatToString(h);
    ResolutionClean(w, h);
    assert ResolutionAttr(w, h) == "RESOLUTION" + "=" + v;
    KeyValue("RESOLUTION", v);
  }

  lemma ResolutionClean(w: nat, h: nat)
    ensures NoneIn(NatToString(w) + "x" + NatToString(h), {'='})
  {
    var dw := NatToString(w);
    var dh := NatToString(h);
    DigitsClean(dw, {'='});
    DigitsClean(dh, {'='});
    NoneInConcat(dw, "x", {'='});
    NoneInConcat(dw + "x", dh, {'='});
  }

  /** An attribute with key RESOLUTION and a value splitting into `w` and
      `h` sets the width and height. */
  lemma ResolutionBranch(st: StreamData, attr: string, v: string, w: int, h: int)
    requires SplitSet(attr, {'='}) == ["RESOLUTION", v]
    requires |SplitSet(v, {'x'})| == 2 && Atoi(SplitSet(v, {'x'})[0]) == w && Atoi(SplitSet(v, {'x'})[1]) == h
    ensures ApplyAttribute(st, attr) == Some(st.(width := w, height := h))
  {
    assert |"RESOLUTION"| != |"BANDWIDTH"|;
  }

  /** The `WxH` value splits on 'x' into the two numbers, and holds no
      '='. */
  lemma ResolutionValue(w: nat, h: nat)
    ensures var res := SplitSet(NatToString(w) + "x" + NatToString(h), {'x'});
            |res| == 2 && Atoi(res[0]) == w && Atoi(res[1]) == h
  {
    var dw := NatToString(w);
    var dh := NatToString(h);
    DigitsClean(dw, {'x'});
    DigitsClean(dh, {'x'});
    var v := dw + "x" + dh;
    assert v == dw + ['x'] + dh;
    PiecesAfter(dw, 'x', dh, {'x'});
    StrSepNone(dh, {'x'});
    AtoiDigits(dw);
    AtoiDigits(dh);
    NatToStringValue(w);
    NatToStringValue(h);
  }

  lemma VideoAttrRead(st: StreamData, q: Quality)
    ensures ApplyAttribute(st, VideoAttr(q)) == Some(st.(quality := q))
  {
    assert VideoAttr(q) == "VIDEO" + "=" + QualityName(q);
    KeyValue("VIDEO", QualityName(q));
  }

  lemma ProgramIdIgnored(st: StreamData)
    ensures ApplyAttribute(st, ProgramIdAttr) == Some(st)
  {
    assert ProgramIdAttr == "PROGRAM-ID" + "=" + "1";
    KeyValue("PROGRAM-ID", "1");
  }

  /** The three attributes after `PROGRAM-ID` give back the record. */
  lemma WrittenAttrsRead(s: StreamData)
    requires Writable(s)
    ensures ApplyAttributes(Zeroed, Attrs(s)[1..]) == Some(s.(url := ""))
  {
    var a := Attrs(s)[1..];
    var st1 := Zeroed.(bandwidth := s.bandwidth);
    var st2 := st1.(width := s.width, height := s.height);
    var st3 := st2.(quality := s.quality);
    BandwidthAttrRead(Zeroed, s.bandwidth);
    ResolutionAttrRead(st1, s.width, s.height);
    VideoAttrRead(st2, s.quality);
    ApplyCons(Zeroed, a[0], a[1..], st1);
    ApplyCons(st1, a[1], a[2..], st2);
    ApplyCons(st2, a[2], [], st3);
    assert a == [a[0]] + a[1..] && a[1..] == [a[1]] + a[2..] && a[2..] == [a[2]] + [];
  }

  /** No attribute Twitch writes holds a comma. */
  lemma AttrsClean(s: StreamData)
    requires Writable(s)
    ensures forall i :: 0 <= i < |Attrs(s)| ==> NoneIn(Attrs(s)[i], {','})
  {
    var dw := NatToString(s.width);
    DigitsClean(NatToString(s.bandwidth), {','});
    DigitsClean(dw, {','});
    DigitsClean(NatToString(s.height), {','});
    NoneInConcat("BANDWIDTH=", NatToString(s.bandwidth), {','});
    NoneInConcat(dw, "x", {','});
    NoneInConcat(dw + "x", NatToString(s.height), {','});
    NoneInConcat("RESOLUTION=", dw + "x" + NatToString(s.height), {','});
    NoneInConcat("VIDEO=", QualityName(s.quality), {','});
  }

  /** The first attribute piece starts with the tag, so its key is never
      one of the recognised ones: it is skipped whatever it says. */
  lemma FirstAttributeIgnored(st: StreamData, first: string, rest: seq<string>)
    ensures ApplyAttributes(st, [StreamInfo + ":" + first] + rest) == ApplyAttributes(st, rest)
  {
    var a := StreamInfo + ":" + first;
    assert a[0] == '#';
    KeyStartsWithHash(a);
    ApplyCons(st, a, rest, st);
  }

  /** The key of an attribute starting with '#' starts with '#' too. */
  lemma KeyStartsWithHash(a: string)
    requires |a| > 0 && a[0] == '#'
    ensures |SplitSet(a, {'='})| > 0 && |SplitSet(a, {'='})[0]| > 0 && SplitSet(a, {'='})[0][0] == '#'
  {
  }

  /** The attribute pieces of a stream-info line as written by Twitch, as
      `parse_playlist` sees them: the first still carries the tag. */
  lemma InfoLinePieces(s: StreamData)
    requires Writable(s)
    ensures SplitSet(InfoLine(s), {','}) == [StreamInfo + ":" + ProgramIdAttr] + Attrs(s)[1..]
  {
    var parts := [StreamInfo + ":" + ProgramIdAttr] + Attrs(s)[1..];
    PrefixJoin(StreamInfo + ":", Attrs(s), ',');
    AttrsClean(s);
    assert NoneIn(StreamInfo + ":", {','});
    NoneInConcat(StreamInfo + ":", ProgramIdAttr, {','});
    assert forall i :: 1 <= i < |parts| ==> parts[i] == Attrs(s)[i];
    PiecesOfJoin(parts, ',');
  }

  /** The lines of a playlist listing `streams`, each info line followed by
      its URL. */
  function PlaylistLines(streams: seq<StreamData>): (r: seq<string>)
    requires forall i :: 0 <= i < |streams| ==> Writable(streams[i])
  {
    if |streams| == 0 then []
    else [InfoLine(streams[0]), streams[0].url] + PlaylistLines(streams[1..])
  }

  /** A written info line is recognised, and its attributes give back the
      record. */
  lemma WrittenInfoLine(s: StreamData)
    requires Writable(s)
    ensures HasPrefix(InfoLine(s), StreamInfo)
    ensures ApplyAttributes(Zeroed, SplitSet(InfoLine(s), {','})) == Some(s.(url := ""))
  {
    HasPrefixConcat(StreamInfo, ":" + Join(Attrs(s), ','));
    assert InfoLine(s) == StreamInfo + (":" + Join(Attrs(s), ','));
    InfoLinePieces(s);
    FirstAttributeIgnored(Zeroed, ProgramIdAttr, Attrs(s)[1..]);
    WrittenAttrsRead(s);
  }

  /** Reading the lines of a written playlist gives back every stream, in
      order (the loop never looks at a URL line, so any URL works). */
  lemma {:induction false} PlaylistRoundTrip(streams: seq<StreamData>)
    requires forall i :: 0 <= i < |streams| ==> Writable(streams[i])
    ensures ParseLines(PlaylistLines(streams)) == Some(streams)
    decreases |streams|
  {
    if |streams| > 0 {
      var s := streams[0];
      var lines := PlaylistLines(streams);
      WrittenInfoLine(s);
      assert lines[2..] == PlaylistLines(streams[1..]);
      PlaylistRoundTrip(streams[1..]);
      assert streams == [s.(url := "").(url := s.url)] + streams[1..];
    }
  }

  /** With the tag first, a BANDWIDTH written as the first attribute is
      lost: the record keeps bandwidth 0. */
  lemma BandwidthFirstIsLost(n: nat, url: string)
    ensures ParseLines([StreamInfo + ":" + BandwidthAttr(n), url]) == Some([Zeroed.(url := url)])
  {
    var line := StreamInfo + ":" + BandwidthAttr(n);
    HasPrefixConcat(StreamInfo, ":" + BandwidthAttr(n));
    assert line == StreamInfo + (":" + BandwidthAttr(n));
    DigitsClean(NatToString(n), {','});
    NoneInConcat("BANDWIDTH=", NatToString(n), {','});
    NoneInConcat(StreamInfo + ":", BandwidthAttr(n), {','});
    StrSepNone(line, {','});
    assert SplitSet(line, {','}) == [line] + [];
    FirstAttributeIgnored(Zeroed, BandwidthAttr(n), []);
    assert ApplyAttributes(Zeroed, []) == Some(Zeroed);
    assert ApplyAttributes(Zeroed, SplitSet(line, {','})) == Some(Zeroed);
    assert [line, url][2..] == [];
    assert ParseLines([line, url][2..]) == Some([]);
    var lines := [line, url];
    assert lines[0] == line && lines[1] == url && |lines| == 2;
    assert HasPrefix(lines[0], StreamInfo);
    assert ParseLines(lines) == Some([Zeroed.(url := url)] + []);
    assert [Zeroed.(url := url)] + [] == [Zeroed.(url := url)];
  }

  /** The attribute pieces of a stream-info line as evidently intended:
      the tag and its colon are dropped before the line is split. */
  function IntendedAttributes(line: string): (r: seq<string>)
    requires HasPrefix(line, StreamInfo)
  {
    var after := line[|StreamInfo|..];
    SplitSet(if |after| > 0 && after[0] == ':' then after[1..] else after, {','})
  }

  /** `parse_playlist` with the attributes read as intended; otherwise as
      written. */
  function ParseLinesIntended(lines: seq<string>): (r: Option<seq<StreamData>>)
    decreases |lines|
  {
    if |lines| == 0 then Some([])
    else if HasPrefix(lines[0], StreamInfo) then
      var st :- ApplyAttributes(Zeroed, IntendedAttributes(lines[0]));
      if |lines| < 2 then None
      else
        var rest :- ParseLinesIntended(lines[2..]);
        Some([st.(url := lines[1])] + rest)
    else ParseLinesIntended(lines[1..])
  }

  /** With the tag dropped, every attribute is read wherever it stands: a
      BANDWIDTH written first is recovered. */
  lemma BandwidthFirstIsRead(n: nat, url: string)
    ensures ParseLinesIntended([StreamInfo + ":" + BandwidthAttr(n), url]) == Some([Zeroed.(bandwidth := n, url := url)])
  {
    var attr := BandwidthAttr(n);
    var line := StreamInfo + ":" + attr;
    HasPrefixConcat(StreamInfo, ":" + attr);
    assert line == StreamInfo + (":" + attr);
    assert line[|StreamInfo|..] == ":" + attr;
    assert (":" + attr)[1..] == attr;
    DigitsClean(NatToString(n), {','});
    NoneInConcat("BANDWIDTH=", NatToString(n), {','});
    StrSepNone(attr, {','});
    assert IntendedAttributes(line) == [attr] + [];
    BandwidthAttrRead(Zeroed, n);
    ApplyCons(Zeroed, attr, [], Zeroed.(bandwidth := n));
    assert ApplyAttributes(Zeroed, IntendedAttributes(line)) == Some(Zeroed.(bandwidth := n));
    assert [line, url][2..] == [];
    assert ParseLinesIntended([line, url][2..]) == Some([]);
    var lines := [line, url];
    assert lines[0] == line && lines[1] == url && |lines| == 2;
    assert HasPrefix(lines[0], StreamInfo);
    assert ParseLinesIntended(lines) == Some([Zeroed.(bandwidth := n, url := url)] + []);
    assert [Zeroed.(bandwidth := n, url := url)] + [] == [Zeroed.(bandwidth := n, url := url)];
  }

  /** Read as intended, a written info line gives back the record. */
  lemma IntendedInfoLine(s: StreamData)
    requires Writable(s)
    ensures HasPrefix(InfoLine(s), StreamInfo)
    ensures ApplyAttributes(Zeroed, IntendedAttributes(InfoLine(s))) == Some(s.(url := ""))
  {
    InfoLineAttributes(s);
    ProgramIdIgnored(Zeroed);
    ApplyCons(Zeroed, ProgramIdAttr, Attrs(s)[1..], Zeroed);
    assert Attrs(s) == [ProgramIdAttr] + Attrs(s)[1..];
    WrittenAttrsRead(s);
  }

  /** Read as intended, a written stream-info line gives back its
      attributes. */
  lemma InfoLineAttributes(s: StreamData)
    requires Writable(s)
    ensures HasPrefix(InfoLine(s), StreamInfo)
    ensures IntendedAttributes(InfoLine(s)) == Attrs(s)
  {
    var body := Join(Attrs(s), ',');
    HasPrefixConcat(StreamInfo, ":" + body);
    assert InfoLine(s) == StreamInfo + (":" + body);
    assert InfoLine(s)[|StreamInfo|..] == ":" + body;
    assert (":" + body)[1..] == body;
    AttrsClean(s);
    PiecesOfJoin(Attrs(s), ',');
  }

  /** The intended reading agrees with the written one on playlists as
      Twitch writes them, whose first attribute is ignored anyway. */
  lemma {:induction false} IntendedAgreesOnTwitchLines(streams: seq<StreamData>)
    requires forall i :: 0 <= i < |streams| ==> Writable(streams[i])
    ensures ParseLinesIntended(PlaylistLines(streams)) == Some(streams)
    decreases |streams|
  {
    if |streams| > 0 {
      var s := streams[0];
      IntendedInfoLine(s);
      assert PlaylistLines(streams)[2..] == PlaylistLines(streams[1..]);
      IntendedAgreesOnTwitchLines(streams[1..]);
      assert streams == [s.(url := "").(url := s.url)] + streams[1..];
    }
  }

  // ---------------------------------------------------------------------
  // The quality filter

  /** `gt_twitch_stream_list_filter_quality`: the first stream of quality
      `q`; when none has it, the last stream the loop looked at; NULL for an
      empty list. */
  function FilterQuality(streams: seq<StreamData>, q: Quality): (r: Option<StreamData>)
    ensures r.None? <==> |streams| == 0
    ensures r.Some? ==> r.value in streams
  {
    if |streams| == 0 then None
    else if streams[0].quality == q || |streams| == 1 then Some(streams[0])
    else FilterQuality(streams[1..], q)
  }

  /** A stream of the requested quality is found, and it is the first. */
  lemma {:induction false} FilterQualityFirst(streams: seq<StreamData>, q: Quality, i: nat)
    requires i < |streams| && streams[i].quality == q
    requires forall j :: 0 <= j < i ==> streams[j].quality != q
    ensures FilterQuality(streams, q) == Some(streams[i])
    decreases i
  {
    if i > 0 {
      assert streams[0].quality != q;
      FilterQualityFirst(streams[1..], q, i - 1);
    }
  }

  /** With no stream of the requested quality the last stream is returned. */
  lemma {:induction false} FilterQualityFallback(streams: seq<StreamData>, q: Quality)
    requires |streams| > 0
    requires forall j :: 0 <= j < |streams| ==> streams[j].quality != q
    ensures FilterQuality(streams, q) == Some(streams[|streams| - 1])
    decreases |streams|
  {
    if |streams| > 1 {
      assert streams[0].quality != q;
      FilterQualityFallback(streams[1..], q);
    }
  }

  // ---------------------------------------------------------------------
  // Timestamps (section 5.6 of RFC 3339)

  datatype DateTime = DateTime(year: int, month: int, day: int, hour: int, minute: int, second: int)

  predicate IsLeapYear(y: int) {
    (y % 4 == 0 && y % 100 != 0) || y % 400 == 0
  }

  function DaysInMonth(y: int, m: int): int
    requires 1 <= m <= 12
  {
    if m == 2 then (if IsLeapYear(y) then 29 else 28)
    else if m == 4 || m == 6 || m == 9 || m == 11 then 30
    else 31
  }

  /** The fields `g_date_time_new_utc` accepts. */
  predicate ValidDateTime(t: DateTime) {
    1 <= t.year <= 9999 && 1 <= t.month <= 12 && 1 <= t.day <= DaysInMonth(t.year, t.month)
    && 0 <= t.hour < 24 && 0 <= t.minute < 60 && 0 <= t.second < 60
  }

  /** `g_date_time_new_utc`, which returns NULL for a field out of range. */
  function NewUtc(t: DateTime): (r: Option<DateTime>)
    ensures r.Some? <==> ValidDateTime(t)
    ensures r.Some? ==> r.value == t
  {
    if ValidDateTime(t) then Some(t) else None
  }

  /** One `%d` conversion of `sscanf`: white space, an optional sign and at
      least one digit; the value and the unread rest. No digit is a
      matching failure (`None`). */
  function ScanInt(s: string): (r: Option<(int, string)>)
    ensures r.Some? ==> |r.value.1| < |s|
  {
    var t := SkipSpace(s);
    var signed := |t| > 0 && (t[0] == '-' || t[0] == '+');
    var u := if signed then t[1..] else t;
    var n := DigitRun(u);
    if n == 0 then None
    else
      var v: int := DigitsValue(u[..n]);
      Some((if signed && t[0] == '-' then -v else v, u[n..]))
  }

  /** A literal character of the `sscanf` format. */
  function Expect(s: string, c: char): (r: Option<string>)
    ensures r.Some? <==> |s| > 0 && s[0] == c
    ensures r.Some? ==> r.value == s[1..]
  {
    if |s| > 0 && s[0] == c then Some(s[1..]) else None
  }

  /** `parse_time`: `sscanf(time, "%d-%d-%dT%d:%d:%dZ", ...)` then
      `g_date_time_new_utc`. Fewer than six conversions leave variables
      uninitialised: `None`. The trailing `Z` is never checked, so whatever
      follows the seconds, a UTC offset included, is ignored. */
  function ParseTime(s: string): (r: Option<DateTime>)
    ensures r.Some? ==> ValidDateTime(r.value)
  {
    var y :- ScanInt(s);
    var s1 :- Expect(y.1, '-');
    var mo :- ScanInt(s1);
    var s2 :- Expect(mo.1, '-');
    var d :- ScanInt(s2);
    var s3 :- Expect(d.1, 'T');
    var h :- ScanInt(s3);
    var s4 :- Expect(h.1, ':');
    var mi :- ScanInt(s4);
    var s5 :- Expect(mi.1, ':');
    var se :- ScanInt(s5);
    NewUtc(DateTime(y.0, mo.0, d.0, h.0, mi.0, se.0))
  }

  function Zeros(k: nat): (r: string)
    ensures |r| == k
    ensures forall i :: 0 <= i < k ==> r[i] == '0'
  {
    if k == 0 then "" else Zeros(k - 1) + "0"
  }

  /** `n` in decimal, zero-padded to `width` digits. */
  function Padded(n: nat, width: nat): (r: string)
    ensures |r| >= 1
    ensures forall i :: 0 <= i < |r| ==> IsDigit(r[i])
  {
    var d := NatToString(n);
    if |d| < width then Zeros(width - |d|) + d else d
  }

  /** A padded field followed by its separator and the rest. */
  function Field(n: nat, width: nat, sep: char, rest: string): string {
    Padded(n, width) + ([sep] + rest)
  }

  /** An RFC 3339 UTC timestamp `YYYY-MM-DDThh:mm:ss` followed by `zone`. */
  function FormatTimeWith(t: DateTime, zone: string): string
    requires ValidDateTime(t)
  {
    Field(t.year, 4, '-', Field(t.month, 2, '-', Field(t.day, 2, 'T',
      Field(t.hour, 2, ':', Field(t.minute, 2, ':', Padded(t.second, 2) + zone)))))
  }

  function FormatTime(t: DateTime): string
    requires ValidDateTime(t)
  {
    FormatTimeWith(t, "Z")
  }

  lemma {:induction false} ZerosValue(k: nat, d: string)
    requires forall i :: 0 <= i < |d| ==> IsDigit(d[i])
    ensures forall i :: 0 <= i < |Zeros(k) + d| ==> IsDigit((Zeros(k) + d)[i])
    ensures DigitsValue(Zeros(k) + d) == DigitsValue(d)
    decreases |d|, k
  {
    var e := Zeros(k) + d;
    if |d| > 0 {
      assert e[..|e| - 1] == Zeros(k) + d[..|d| - 1];
      assert e[|e| - 1] == d[|d| - 1];
      ZerosValue(k, d[..|d| - 1]);
    } else if k > 0 {
      assert e == Zeros(k - 1) + "0";
      assert e[..|e| - 1] == Zeros(k - 1) + "";
      ZerosValue(k - 1, "");
    }
  }

  /** A padded number followed by a non-digit is read back by `%d`. */
  lemma ScanPadded(n: nat, width: nat, rest: string)
    requires |rest| > 0 ==> !IsDigit(rest[0])
    ensures ScanInt(Padded(n, width) + rest) == Some((n, rest))
  {
    var p := Padded(n, width);
    var s := p + rest;
    assert s[0] == p[0] && !IsSpace(s[0]);
    assert SkipSpace(s) == s;
    DigitRunOfDigits(p, rest);
    assert s[..|p|] == p && s[|p|..] == rest;
    NatToStringValue(n);
    var d := NatToString(n);
    if |d| < width {
      ZerosValue(width - |d|, d);
    }
  }

  /** `%d` followed by a literal separator reads one field. */
  lemma ScanField(n: nat, width: nat, sep: char, rest: string)
    requires !IsDigit(sep)
    ensures ScanInt(Field(n, width, sep, rest)).Some?
    ensures ScanInt(Field(n, width, sep, rest)).value.0 == n
    ensures Expect(ScanInt(Field(n, width, sep, rest)).value.1, sep) == Some(rest)
  {
    ScanPadded(n, width, [sep] + rest);
    assert ([sep] + rest)[1..] == rest;
  }

  /** `parse_time` reads back every valid timestamp, and ignores whatever
      comes after the seconds (the `Z`, or an offset it should have
      applied). */
  lemma ParseTimeRoundTrip(t: DateTime, zone: string)
    requires ValidDateTime(t)
    requires |zone| > 0 ==> !IsDigit(zone[0])
    ensures ParseTime(FormatTimeWith(t, zone)) == Some(t)
  {
    var r4 := Padded(t.second, 2) + zone;
    var r3 := Field(t.minute, 2, ':', r4);
    var r2 := Field(t.hour, 2, ':', r3);
    var r1 := Field(t.day, 2, 'T', r2);
    var r0 := Field(t.month, 2, '-', r1);
    ScanField(t.year, 4, '-', r0);
    ScanField(t.month, 2, '-', r1);
    ScanField(t.day, 2, 'T', r2);
    ScanField(t.hour, 2, ':', r3);
    ScanField(t.minute, 2, ':', r4);
    ScanPadded(t.second, 2, zone);
  }

  /** A timestamp with a UTC offset is read as if it were UTC. */
  lemma OffsetIgnored(t: DateTime)
    requires ValidDateTime(t)
    ensures ParseTime(FormatTimeWith(t, "+02:00")) == ParseTime(FormatTime(t)) == Some(t)
  {
    ParseTimeRoundTrip(t, "+02:00");
    ParseTimeRoundTrip(t, "Z");
  }

  // ---------------------------------------------------------------------
  // Followed channels

  /** The outcome of `gt_twitch_fetch_all_followed_channels`: the merged
      list, the error for a live stream that is not a followed channel, or
      a crash (`g_assert_false`) when the matched channel is already
      online. */
  datatype Merge = Merged(channels: seq<ChannelData>) | NotFollowed(stream: ChannelData) | MatchedOnline

  /** The first channel `same` matches with `stream` (`g_list_find_custom`
      with `gt_channel_data_compare`, which is not part of this model and is
      a parameter here). */
  function FindData(chans: seq<ChannelData>, stream: ChannelData, same: (ChannelData, ChannelData) -> bool): (r: Option<nat>)
    ensures r.Some? ==> r.value < |chans| && same(chans[r.value], stream)
    ensures r.Some? ==> forall j :: 0 <= j < r.value ==> !same(chans[j], stream)
    ensures r.None? ==> forall j :: 0 <= j < |chans| ==> !same(chans[j], stream)
  {
    if |chans| == 0 then None
    else if same(chans[0], stream) then Some(0)
    else
      match FindData(chans[1..], stream, same)
      case None => None
      case Some(k) => Some(k + 1)
  }

  /** The duplicate-removal loop: each stream in turn removes the first
      still-present channel it matches. */
  function RemoveMatched(chans: seq<ChannelData>, streams: seq<ChannelData>, same: (ChannelData, ChannelData) -> bool): (r: Merge)
    ensures r.Merged? ==> |r.channels| == |chans| - |streams|
    ensures r.Merged? ==> multiset(r.channels) <= multiset(chans)
    decreases |streams|
  {
    if |streams| == 0 then Merged(chans)
    else
      match FindData(chans, streams[0], same)
      case None => NotFollowed(streams[0])
      case Some(i) =>
        if chans[i].online then MatchedOnline
        else
          assert chans == chans[..i] + [chans[i]] + chans[i + 1..];
          RemoveMatched(chans[..i] + chans[i + 1..], streams[1..], same)
  }

  /** The merge: the followed channels no live stream matched, then the
      live streams, in order. */
  function MergeFollowed(chans: seq<ChannelData>, streams: seq<ChannelData>, same: (ChannelData, ChannelData) -> bool): (r: Merge)
    ensures r.Merged? ==> |r.channels| == |chans| && |streams| <= |chans|
    ensures r.Merged? ==> r.channels[|chans| - |streams|..] == streams
  {
    match RemoveMatched(chans, streams, same)
    case Merged(rest) => Merged(rest + streams)
    case other => other
  }

  /** The remaining channels keep their order: they are a subsequence of
      the followed channels. */
  predicate Subsequence<T(==)>(a: seq<T>, b: seq<T>)
    decreases |b|
  {
    |a| == 0 || (|b| > 0 && ((a[0] == b[0] && Subsequence(a[1..], b[1..])) || Subsequence(a, b[1..])))
  }

  lemma {:induction false} SubsequenceRefl<T>(a: seq<T>)
    ensures Subsequence(a, a)
    decreases |a|
  {
    if |a| > 0 {
      SubsequenceRefl(a[1..]);
    }
  }

  /** Dropping one element of `b` leaves a subsequence of it, and any
      subsequence of what is left is a subsequence of `b`. */
  lemma {:induction false} SubsequenceRemove<T>(a: seq<T>, b: seq<T>, i: nat)
    requires i < |b| && Subsequence(a, b[..i] + b[i + 1..])
    ensures Subsequence(a, b)
    decreases |b|
  {
    var c := b[..i] + b[i + 1..];
    if |a| == 0 {
    } else if i == 0 {
      assert c == b[1..];
    } else {
      assert c[0] == b[0];
      assert c[1..] == b[1..][..i - 1] + b[1..][i..];
      if a[0] == c[0] && Subsequence(a[1..], c[1..]) {
        SubsequenceRemove(a[1..], b[1..], i - 1);
      } else {
        SubsequenceRemove(a, b[1..], i - 1);
      }
    }
  }

  lemma {:induction false} RemoveMatchedOrder(chans: seq<ChannelData>, streams: seq<ChannelData>, same: (ChannelData, ChannelData) -> bool)
    requires RemoveMatched(chans, streams, same).Merged?
    ensures Subsequence(RemoveMatched(chans, streams, same).channels, chans)
    decreases |streams|
  {
    if |streams| == 0 {
      SubsequenceRefl(chans);
    } else {
      var i := FindData(chans, streams[0], same).value;
      RemoveMatchedOrder(chans[..i] + chans[i + 1..], streams[1..], same);
      SubsequenceRemove(RemoveMatched(chans, streams, same).channels, chans, i);
    }
  }

  /** A successful merge keeps every followed channel no stream replaced,
      in their order, followed by the streams. */
  lemma MergeKeepsOrder(chans: seq<ChannelData>, streams: seq<ChannelData>, same: (ChannelData, ChannelData) -> bool)
    requires MergeFollowed(chans, streams, same).Merged?
    ensures var m := MergeFollowed(chans, streams, same).channels;
            Subsequence(m[..|chans| - |streams|], chans)
  {
    RemoveMatchedOrder(chans, streams, same);
    var rest := RemoveMatched(chans, streams, same).channels;
    assert MergeFollowed(chans, streams, same).channels[..|chans| - |streams|] == rest;
  }

  /** A live stream that matches no followed channel makes the whole call
      fail. */
  lemma {:induction false} UnfollowedStreamFails(chans: seq<ChannelData>, streams: seq<ChannelData>, same: (ChannelData, ChannelData) -> bool)
    requires |streams| > 0
    requires forall j :: 0 <= j < |chans| ==> !same(chans[j], streams[0])
    ensures MergeFollowed(chans, streams, same) == NotFollowed(streams[0])
  {
    assert FindData(chans, streams[0], same).None?;
  }

  /** `gt_twitch_fetch_all_followed_channels` turns the merged records into
      channels. */
  function ChannelsOf(data: seq<ChannelData>): (r: seq<Channel>)
    ensures |r| == |data|
    ensures forall i :: 0 <= i < |r| ==> r[i] == FromRawData(data[i])
  {
    if |data| == 0 then [] else [FromRawData(data[0])] + ChannelsOf(data[1..])
  }

  // ---------------------------------------------------------------------
  // Chat badges

  /** One entry of the badge table. The table also records the names of
      the sets already fetched, so a set name maps to `SetLoaded`. */
  datatype BadgeEntry = SetLoaded | Badge(name: string, version: string)

  /** A badge of a fetched set: its name and its versions. */
  datatype BadgeVersions = BadgeVersions(name: string, versions: seq<string>)

  const GlobalSet := "global"

  /** `"<set>-<name>-<version>"`, the key under which a badge is stored. */
  function BadgeKey(setName: string, name: string, version: string): (r: string)
    ensures |r| == |setName| + |name| + |version| + 2
  {
    setName + "-" + name + "-" + version
  }

  /** The versions of one badge, inserted in order. A key already present
      fails `g_assert_false`: `None`. */
  function InsertVersions(table: map<string, BadgeEntry>, setName: string, name: string, versions: seq<string>): (r: Option<map<string, BadgeEntry>>)
    ensures r.Some? ==> table.Keys <= r.value.Keys
    ensures r.Some? ==> forall k :: k in table ==> r.value[k] == table[k]
    ensures r.Some? ==> forall v :: v in versions ==>
              BadgeKey(setName, name, v) in r.value && r.value[BadgeKey(setName, name, v)] == Badge(name, v)
    decreases |versions|
  {
    if |versions| == 0 then Some(table)
    else
      var key := BadgeKey(setName, name, versions[0]);
      if key in table then None
      else InsertVersions(table[key := Badge(name, versions[0])], setName, name, versions[1..])
  }

  function InsertBadges(table: map<string, BadgeEntry>, setName: string, badges: seq<BadgeVersions>): (r: Option<map<string, BadgeEntry>>)
    ensures r.Some? ==> table.Keys <= r.value.Keys
    ensures r.Some? ==> forall k :: k in table ==> r.value[k] == table[k]
    decreases |badges|
  {
    if |badges| == 0 then Some(table)
    else
      var t :- InsertVersions(table, setName, badges[0].name, badges[0].versions);
      InsertBadges(t, setName, badges[1..])
  }

  /** The table after a set has been asked for, and whether the request
      succeeded. */
  datatype Loaded = Loaded(table: map<string, BadgeEntry>, ok: bool)

  /** `fetch_chat_badge_set`: the set name is recorded BEFORE the request,
      so a set whose request failed is never asked for again; on success
      every version of every badge is stored under its key. */
  function FetchBadgeSet(table: map<string, BadgeEntry>, setName: string, response: Option<seq<BadgeVersions>>): (r: Option<Loaded>)
    requires setName !in table
    ensures r.Some? ==> setName in r.value.table && r.value.table[setName] == SetLoaded
    ensures r.Some? ==> forall k :: k in table ==> k in r.value.table && r.value.table[k] == table[k]
    ensures response.None? ==> r == Some(Loaded(table[setName := SetLoaded], false))
  {
    var t := table[setName := SetLoaded];
    match response
    case None => Some(Loaded(t, false))
    case Some(badges) =>
      var t' :- InsertBadges(t, setName, badges);
      Some(Loaded(t', true))
  }

  /** One `FETCH_BADGE_SET`: nothing when the set is already recorded. */
  function FetchIfMissing(table: map<string, BadgeEntry>, setName: string, response: Option<seq<BadgeVersions>>): (r: Option<Loaded>)
    ensures setName in table ==> r == Some(Loaded(table, true))
    ensures r.Some? ==> setName in r.value.table
    ensures r.Some? ==> forall k :: k in table ==> k in r.value.table && r.value.table[k] == table[k]
  {
    if setName in table then Some(Loaded(table, true)) else FetchBadgeSet(table, setName, response)
  }

  /** `gt_twitch_load_chat_badge_sets_for_channel`: the global set, then
      the channel's set (keyed by the decimal channel id); an error on the
      global set stops before the channel's. */
  function LoadBadgeSets(table: map<string, BadgeEntry>, chanId: int,
                         globalResponse: Option<seq<BadgeVersions>>, chanResponse: Option<seq<BadgeVersions>>): (r: Option<Loaded>)
    ensures r.Some? && r.value.ok ==> GlobalSet in r.value.table && IntToString(chanId) in r.value.table
    ensures r.Some? ==> GlobalSet in r.value.table
  {
    var g :- FetchIfMissing(table, GlobalSet, globalResponse);
    if !g.ok then Some(g)
    else FetchIfMissing(g.table, IntToString(chanId), chanResponse)
  }

  /** Once both sets are recorded, loading again asks for nothing, whatever
      the responses would be. */
  lemma LoadBadgeSetsMemoised(table: map<string, BadgeEntry>, chanId: int,
                              g1: Option<seq<BadgeVersions>>, c1: Option<seq<BadgeVersions>>,
                              g2: Option<seq<BadgeVersions>>, c2: Option<seq<BadgeVersions>>)
    requires GlobalSet in table && IntToString(chanId) in table
    ensures LoadBadgeSets(table, chanId, g1, c1) == Some(Loaded(table, true))
    ensures LoadBadgeSets(table, chanId, g1, c1) == LoadBadgeSets(table, chanId, g2, c2)
  {
  }

  /** A failed request is remembered: the next load skips that set and
      reports success without asking again. */
  lemma FailedSetNotRetried(table: map<string, BadgeEntry>, chanId: int, c1: Option<seq<BadgeVersions>>,
                            g2: Option<seq<BadgeVersions>>)
    requires GlobalSet !in table
    ensures var first := LoadBadgeSets(table, chanId, None, c1);
            first == Some(Loaded(table[GlobalSet := SetLoaded], false))
            && FetchIfMissing(first.value.table, GlobalSet, g2) == Some(Loaded(first.value.table, true))
  {
  }

  /** `gt_twitch_fetch_chat_badge`: an empty badge name or version fails
      `g_assert_false` before anything else (`None`). Otherwise, after
      loading the sets, the channel's badge if there is one, else the
      global one. A load error is returned as an error (`Some` with no
      badge); a badge in neither set fails `g_assert_nonnull`: `None`. */
  function FetchChatBadge(table: map<string, BadgeEntry>, chanId: int, name: string, version: string,
                          globalResponse: Option<seq<BadgeVersions>>, chanResponse: Option<seq<BadgeVersions>>): (r: Option<(map<string, BadgeEntry>, Option<BadgeEntry>)>)
    ensures r.None? <==>
              || |name| == 0 || |version| == 0
              || var l := LoadBadgeSets(table, chanId, globalResponse, chanResponse);
                 || l.None?
                 || (&& l.value.ok
                     && BadgeKey(IntToString(chanId), name, version) !in l.value.table
                     && BadgeKey(GlobalSet, name, version) !in l.value.table)
    ensures r.Some? ==> (r.value.1.None? <==> !LoadBadgeSets(table, chanId, globalResponse, chanResponse).value.ok)
    ensures r.Some? && r.value.1.Some? ==>
              var t := r.value.0;
              var ck := BadgeKey(IntToString(chanId), name, version);
              var gk := BadgeKey(GlobalSet, name, version);
              (ck in t ==> r.value.1.value == t[ck])
              && (ck !in t ==> gk in t && r.value.1.value == t[gk])
  {
    if |name| == 0 || |version| == 0 then None
    else
      var l :- LoadBadgeSets(table, chanId, globalResponse, chanResponse);
      if !l.ok then Some((l.table, None))
      else
        var chanKey := BadgeKey(IntToString(chanId), name, version);
        var globalKey := BadgeKey(GlobalSet, name, version);
        if chanKey in l.table then Some((l.table, Some(l.table[chanKey])))
        else if globalKey in l.table then Some((l.table, Some(l.table[globalKey])))
        else None
  }

  /** A badge the channel overrides is taken from the channel's set even
      when the global set has it too. */
  lemma ChannelBadgePreferred(table: map<string, BadgeEntry>, chanId: int, name: string, version: string,
                              g: Option<seq<BadgeVersions>>, c: Option<seq<BadgeVersions>>)
    requires GlobalSet in table && IntToString(chanId) in table
    requires BadgeKey(IntToString(chanId), name, version) in table
    requires BadgeKey(GlobalSet, name, version) in table
    requires |name| > 0 && |version| > 0
    ensures FetchChatBadge(table, chanId, name, version, g, c)
            == Some((table, Some(table[BadgeKey(IntToString(chanId), name, version)])))
  {
  }
}
