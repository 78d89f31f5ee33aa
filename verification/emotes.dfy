/** Twitch's `emotes` message tag, shared by both chat parsers.

    The tag lists, per emote image id, the inclusive character ranges the
    image replaces: `id:s-e,s-e/id:s-e`. Both parsers walk it with `strsep`
    on '/', ':', ',' and '-', read the numbers with `atoi`, and sort the
    resulting list by start offset with a stable list sort.
 */
module Emotes {
  import opened Wrappers
  import opened CStrings

  /** One emote occurrence: the image id and the inclusive range
      [start, end] of characters it stands for. */
  datatype Emote = Emote(id: int, start: int, end: int)

  /** Size measure of a possibly-NULL string pointer. */
  function PtrSize(p: Option<string>): nat {
    if p.Some? then |p.value| + 1 else 0
  }

  /** The tokens produced by calling `strsep(&p, delims)` until it returns
      NULL. */
  function StrSepAll(p: Option<string>, delims: set<char>): (r: seq<string>)
    ensures p.None? <==> |r| == 0
    ensures forall i :: 0 <= i < |r| ==> NoneIn(r[i], delims)
    decreases PtrSize(p)
  {
    if p.None? then []
    else
      var (tok, rest) := StrSep(p, delims);
      [tok.value] + StrSepAll(rest, delims)
  }

  /** Repeated `strsep` recovers exactly the pieces that were joined with a
      separator that none of them contains. */
  lemma {:induction false} StrSepAllJoin(parts: seq<string>, sep: char)
    requires |parts| > 0
    requires forall i :: 0 <= i < |parts| ==> NoneIn(parts[i], {sep})
    ensures StrSepAll(Some(Join(parts, sep)), {sep}) == parts
  {
    if |parts| == 1 {
      assert FindFirst(parts[0], {sep}).None?;
    } else {
      var s := Join(parts, sep);
      assert s == parts[0] + [sep] + Join(parts[1..], sep);
      FindFirstAfterClean(parts[0], sep, Join(parts[1..], sep));
      assert s[..|parts[0]|] == parts[0];
      assert s[|parts[0]| + 1..] == Join(parts[1..], sep);
      assert StrSep(Some(s), {sep}) == (Some(parts[0]), Some(Join(parts[1..], sep)));
      StrSepAllJoin(parts[1..], sep);
    }
  }

  /** One `s-e` range of emote `id`; a range without '-' makes the C code
      call `atoi(NULL)`, modelled as `None`. */
  function ParseRange(id: int, range: string): (r: Option<Emote>)
    ensures r.Some? <==> exists k :: 0 <= k < |range| && range[k] == '-'
    ensures r.Some? ==> r.value.id == id
  {
    var (s, rest) := StrSep(Some(range), {'-'});
    var (e, _) := StrSep(rest, {'-'});
    if e.None? then
      assert FindFirst(range, {'-'}).None?;
      None
    else
      Some(Emote(id, Atoi(s.value), Atoi(e.value)))
  }

  function ParseRanges(id: int, ranges: seq<string>): (r: Option<seq<Emote>>)
    ensures r.Some? ==> |r.value| == |ranges|
    ensures r.Some? ==> forall i :: 0 <= i < |r.value| ==> r.value[i].id == id
  {
    if |ranges| == 0 then Some([])
    else
      match ParseRange(id, ranges[0])
      case None => None
      case Some(e) =>
        match ParseRanges(id, ranges[1..])
        case None => None
        case Some(rest) =>
          Some([e] + rest)
  }

  /** The id of one `id:ranges` group (`atoi` of the text before ':'). */
  function GroupId(group: string): int {
    Atoi(StrSep(Some(group), {':'}).0.value)
  }

  /** The range texts of one `id:ranges` group; none when there is no ':'. */
  function GroupRanges(group: string): seq<string> {
    var indexes := StrSep(StrSep(Some(group), {':'}).1, {':'}).0;
    StrSepAll(indexes, {','})
  }

  function ParseGroups(groups: seq<string>): (r: Option<seq<Emote>>)
  {
    if |groups| == 0 then Some([])
    else
      var first :- ParseRanges(GroupId(groups[0]), GroupRanges(groups[0]));
      var rest :- ParseGroups(groups[1..]);
      Some(first + rest)
  }

  /** The emote list of a (possibly absent) `emotes` tag, in tag order
      (gt-irc.c and gt-twitch-chat-view.c both walk the tag this way). */
  function ParseEmoteTag(tag: Option<string>): (r: Option<seq<Emote>>)
    ensures tag.None? ==> r == Some([])
  {
    ParseGroups(StrSepAll(tag, {'/'}))
  }

  // ---------------------------------------------------------------------
  // Ordering

  /** `emote_compare` / `twitch_emote_compare`: the sign of the difference
      of the start offsets. */
  function CompareByStart(a: Emote, b: Emote): (r: int)
    ensures -1 <= r <= 1
  {
    if a.start < b.start then -1 else if a.start > b.start then 1 else 0
  }

  /** The comparator is a total preorder on start offsets: swapping the
      arguments flips the sign, and 0 means equal starts. */
  lemma CompareByStartSpec(a: Emote, b: Emote)
    ensures CompareByStart(a, b) == -CompareByStart(b, a)
    ensures CompareByStart(a, b) == 0 <==> a.start == b.start
    ensures CompareByStart(a, b) < 0 <==> a.start < b.start
  {
  }

  predicate SortedByStart(es: seq<Emote>) {
    forall i, j :: 0 <= i < j < |es| ==> es[i].start <= es[j].start
  }

  /** Inserts `e` after every element whose start is not greater, which
      keeps equal starts in arrival order. */
  function InsertByStart(e: Emote, es: seq<Emote>): (r: seq<Emote>)
    requires SortedByStart(es)
    ensures SortedByStart(r)
    ensures multiset(r) == multiset(es) + multiset{e}
    ensures |r| == |es| + 1
    ensures forall x :: x in r ==> x in es || x == e
  {
    if |es| == 0 then [e]
    else if es[|es| - 1].start <= e.start then es + [e]
    else
      var last := es[|es| - 1];
      var init := es[..|es| - 1];
      assert es == init + [last];
      var front := InsertByStart(e, init);
      SortedAppend(init, front, last, e);
      front + [last]
  }

  /** Appending an element that starts no earlier than every element of a
      sorted list keeps it sorted. */
  lemma SortedAppend(init: seq<Emote>, front: seq<Emote>, last: Emote, e: Emote)
    requires SortedByStart(init + [last]) && SortedByStart(front)
    requires forall x :: x in front ==> x in init || x == e
    requires e.start < last.start
    ensures SortedByStart(front + [last])
  {
    assert forall x :: x in init ==> x.start <= last.start by {
      forall x | x in init ensures x.start <= last.start {
        var i :| 0 <= i < |init| && init[i] == x;
        assert (init + [last])[i] == x && (init + [last])[|init|] == last;
      }
    }
    assert forall i :: 0 <= i < |front| ==> front[i] in front;
  }

  /** `g_list_sort(list, emote_compare)`: a stable sort by start offset. */
  function SortByStart(es: seq<Emote>): (r: seq<Emote>)
    ensures SortedByStart(r)
    ensures multiset(r) == multiset(es)
    ensures |r| == |es|
  {
    if |es| == 0 then []
    else
      assert es == es[..|es| - 1] + [es[|es| - 1]];
      InsertByStart(es[|es| - 1], SortByStart(es[..|es| - 1]))
  }

  /** A list already in start order comes back unchanged (the sort keeps
      equal starts in their original order). */
  lemma {:induction false} SortSortedIsIdentity(es: seq<Emote>)
    requires SortedByStart(es)
    ensures SortByStart(es) == es
  {
    if |es| > 0 {
      var init := es[..|es| - 1];
      var last := es[|es| - 1];
      assert SortedByStart(init) && (|init| > 0 ==> init[|init| - 1].start <= last.start);
      SortSortedIsIdentity(init);
      InsertAtEnd(last, init);
      assert es == init + [last];
    }
  }

  /** An element that starts no earlier than the last goes at the end. */
  lemma InsertAtEnd(e: Emote, es: seq<Emote>)
    requires SortedByStart(es)
    requires |es| > 0 ==> es[|es| - 1].start <= e.start
    ensures InsertByStart(e, es) == es + [e]
  {
    if |es| == 0 {
      assert [e] == [] + [e];
    }
  }

  // ---------------------------------------------------------------------
  // The tag grammar, written out

  /** One emote image with the ranges where it occurs. */
  datatype Group = Group(id: nat, ranges: seq<(nat, nat)>)

  function FormatRange(r: (nat, nat)): string {
    NatToString(r.0) + "-" + NatToString(r.1)
  }

  function FormatRanges(rs: seq<(nat, nat)>): seq<string> {
    if |rs| == 0 then [] else [FormatRange(rs[0])] + FormatRanges(rs[1..])
  }

  function FormatGroup(g: Group): string {
    NatToString(g.id) + ":" + Join(FormatRanges(g.ranges), ',')
  }

  function FormatGroups(gs: seq<Group>): seq<string> {
    if |gs| == 0 then [] else [FormatGroup(gs[0])] + FormatGroups(gs[1..])
  }

  /** How Twitch writes the tag. */
  function FormatEmoteTag(gs: seq<Group>): string {
    Join(FormatGroups(gs), '/')
  }

  /** The emotes a group list stands for, one per range, in tag order. */
  function Flatten(gs: seq<Group>): seq<Emote> {
    if |gs| == 0 then []
    else FlattenGroup(gs[0].id, gs[0].ranges) + Flatten(gs[1..])
  }

  function FlattenGroup(id: nat, rs: seq<(nat, nat)>): seq<Emote> {
    if |rs| == 0 then [] else [Emote(id, rs[0].0, rs[0].1)] + FlattenGroup(id, rs[1..])
  }

  predicate WellFormedGroups(gs: seq<Group>) {
    |gs| > 0 && forall i :: 0 <= i < |gs| ==> |gs[i].ranges| > 0
  }

  lemma DigitsHaveNoPunctuation(n: nat, c: char)
    requires !IsDigit(c)
    ensures NoneIn(NatToString(n), {c})
  {
  }

  lemma FormatRangeParses(id: nat, r: (nat, nat))
    ensures ParseRange(id, FormatRange(r)) == Some(Emote(id, r.0, r.1))
  {
    var a := NatToString(r.0);
    var b := NatToString(r.1);
    DigitsHaveNoPunctuation(r.0, '-');
    DigitsHaveNoPunctuation(r.1, '-');
    FindFirstAfterClean(a, '-', b);
    assert FormatRange(r) == a + ['-'] + b;
    var s := FormatRange(r);
    assert s[..|a|] == a && s[|a| + 1..] == b;
    assert FindFirst(b, {'-'}).None?;
    AtoiIntToString(r.0);
    AtoiIntToString(r.1);
  }

  lemma {:induction false} FormatRangesParse(id: nat, rs: seq<(nat, nat)>)
    ensures ParseRanges(id, FormatRanges(rs)) == Some(FlattenGroup(id, rs))
  {
    if |rs| > 0 {
      FormatRangeParses(id, rs[0]);
      FormatRangesParse(id, rs[1..]);
      assert FormatRanges(rs)[1..] == FormatRanges(rs[1..]);
    }
  }

  lemma {:induction false} FormatRangesClean(rs: seq<(nat, nat)>, c: char)
    requires c != '-' && !IsDigit(c)
    ensures forall i :: 0 <= i < |FormatRanges(rs)| ==> NoneIn(FormatRanges(rs)[i], {c})
    ensures |FormatRanges(rs)| == |rs|
  {
    if |rs| > 0 {
      FormatRangesClean(rs[1..], c);
      DigitsHaveNoPunctuation(rs[0].0, c);
      DigitsHaveNoPunctuation(rs[0].1, c);
    }
  }

  lemma {:induction false} JoinClean(parts: seq<string>, sep: char, c: char)
    requires c != sep
    requires forall i :: 0 <= i < |parts| ==> NoneIn(parts[i], {c})
    ensures NoneIn(Join(parts, sep), {c})
  {
    if |parts| > 1 {
      JoinClean(parts[1..], sep, c);
    }
  }

  lemma FormatGroupParses(g: Group)
    requires |g.ranges| > 0
    ensures GroupId(FormatGroup(g)) == g.id
    ensures ParseRanges(GroupId(FormatGroup(g)), GroupRanges(FormatGroup(g))) == Some(FlattenGroup(g.id, g.ranges))
  {
    var idText := NatToString(g.id);
    var parts := FormatRanges(g.ranges);
    FormatRangesClean(g.ranges, ':');
    FormatRangesClean(g.ranges, ',');
    var body := Join(parts, ',');
    JoinClean(parts, ',', ':');
    DigitsHaveNoPunctuation(g.id, ':');
    FindFirstAfterClean(idText, ':', body);
    var s := FormatGroup(g);
    assert s == idText + [':'] + body;
    assert s[..|idText|] == idText && s[|idText| + 1..] == body;
    AtoiIntToString(g.id);
    assert FindFirst(body, {':'}).None?;
    StrSepAllJoin(parts, ',');
    FormatRangesParse(g.id, g.ranges);
  }

  lemma {:induction false} FormatGroupsClean(gs: seq<Group>)
    ensures |FormatGroups(gs)| == |gs|
    ensures forall i :: 0 <= i < |gs| ==> FormatGroups(gs)[i] == FormatGroup(gs[i])
    ensures forall i :: 0 <= i < |gs| ==> NoneIn(FormatGroups(gs)[i], {'/'})
  {
    if |gs| > 0 {
      FormatGroupsClean(gs[1..]);
      var g := gs[0];
      FormatRangesClean(g.ranges, '/');
      JoinClean(FormatRanges(g.ranges), ',', '/');
      DigitsHaveNoPunctuation(g.id, '/');
    }
  }

  lemma {:induction false} ParseGroupsFormatted(gs: seq<Group>)
    requires forall i :: 0 <= i < |gs| ==> |gs[i].ranges| > 0
    ensures ParseGroups(FormatGroups(gs)) == Some(Flatten(gs))
  {
    if |gs| > 0 {
      FormatGroupParses(gs[0]);
      ParseGroupsFormatted(gs[1..]);
      assert FormatGroups(gs)[0] == FormatGroup(gs[0]);
      assert FormatGroups(gs)[1..] == FormatGroups(gs[1..]);
    }
  }

  /** Parsing the tag Twitch writes yields one emote per range, in tag
      order, with the ids and offsets that were written. */
  lemma ParseFormatRoundTrip(gs: seq<Group>)
    requires WellFormedGroups(gs)
    ensures ParseEmoteTag(Some(FormatEmoteTag(gs))) == Some(Flatten(gs))
  {
    FormatGroupsClean(gs);
    StrSepAllJoin(FormatGroups(gs), '/');
    ParseGroupsFormatted(gs);
  }
}
