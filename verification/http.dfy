/** The request scheduler of `gt-http-soup.c`.

    Requests wait in a FIFO queue. Each request belongs to a category, and
    at most `maxInflight` requests of one category are handed to the HTTP
    session at a time. A dispatch takes the earliest queued request whose
    category is below that limit. Every new request and every completion
    triggers one dispatch attempt.

    The session itself is not modelled. `sent` lists the requests it holds;
    a completion names one of them and supplies the outcome.
 */
module Http {
  import opened Wrappers
  import opened CStrings

  /** A header line: name and value. */
  type Header = (string, string)

  /** Category used by `get`, which takes none. */
  const NoCategory: string := "_NO_CATEGORY"

  /** Default of the `max-inflight-per-category` property. */
  const DefaultMaxInflight: nat := 4

  /** The `GT_HTTP_FLAG_*` bits. */
  const FlagReturnStream: bv32 := 1
  const FlagReturnData: bv32 := 4
  const FlagCacheResponse: bv32 := 8

  /** One queued or sent request. `id` stands for the identity of its
      callback record, which the cancel handler removes from the queue. */
  datatype Request = Request(id: nat, uri: string, category: string, headers: seq<Header>, flags: bv32)

  /** The scheduler's state: the waiting queue, the in-flight count per
      category, the requests the session holds, the limit, and the next
      fresh request identity. */
  datatype Scheduler = Scheduler(queue: seq<Request>, inflight: map<string, nat>, sent: seq<Request>, maxInflight: nat, nextId: nat)

  // ---------------------------------------------------------------------
  // In-flight table
  // ---------------------------------------------------------------------

  /** Count stored for a category. A count of zero is stored as a NULL
      pointer, which reads the same as a missing entry. */
  function Lookup(t: map<string, nat>, c: string): nat {
    if c in t then t[c] else 0
  }

  /** `increment_inflight_for_category`. */
  function Increment(t: map<string, nat>, c: string): (r: map<string, nat>)
    ensures Lookup(r, c) == Lookup(t, c) + 1
    ensures forall d :: d != c ==> Lookup(r, d) == Lookup(t, d)
  {
    t[c := Lookup(t, c) + 1]
  }

  /** `decrement_inflight_for_category`: a zero or missing count is left
      alone, so counts never go below zero. */
  function Decrement(t: map<string, nat>, c: string): (r: map<string, nat>)
    ensures Lookup(t, c) == 0 ==> r == t
    ensures Lookup(t, c) > 0 ==> Lookup(r, c) == Lookup(t, c) - 1
    ensures forall d :: d != c ==> Lookup(r, d) == Lookup(t, d)
  {
    if Lookup(t, c) == 0 then t else t[c := Lookup(t, c) - 1]
  }

  /** A decrement undoes an increment, category by category. */
  lemma DecrementUndoesIncrement(t: map<string, nat>, c: string)
    ensures forall d :: Lookup(Decrement(Increment(t, c), c), d) == Lookup(t, d)
  {
  }

  // ---------------------------------------------------------------------
  // Dispatch
  // ---------------------------------------------------------------------

  /** A request may be dispatched when its category is below the limit. */
  predicate Eligible(s: Scheduler, m: Request) {
    Lookup(s.inflight, m.category) < s.maxInflight
  }

  /** The loop of `send_next_message`: the first index at or after `i`
      whose request is eligible. */
  function FirstEligible(s: Scheduler, i: nat): (r: Option<nat>)
    requires i <= |s.queue|
    ensures r.Some? ==> i <= r.value < |s.queue| && Eligible(s, s.queue[r.value])
    ensures r.Some? ==> forall j :: i <= j < r.value ==> !Eligible(s, s.queue[j])
    ensures r.None? <==> forall j :: i <= j < |s.queue| ==> !Eligible(s, s.queue[j])
    decreases |s.queue| - i
  {
    if i == |s.queue| then None
    else if Eligible(s, s.queue[i]) then Some(i)
    else FirstEligible(s, i + 1)
  }

  /** `send_next_message`: hands the earliest eligible request to the
      session and counts it; the rest of the queue keeps its order. With
      nothing eligible the state is unchanged. */
  function SendNext(s: Scheduler): (r: Scheduler)
    ensures (forall j :: 0 <= j < |s.queue| ==> !Eligible(s, s.queue[j])) ==> r == s
    ensures forall i :: 0 <= i < |s.queue| && Eligible(s, s.queue[i]) && (forall j :: 0 <= j < i ==> !Eligible(s, s.queue[j])) ==>
              && r.queue == s.queue[..i] + s.queue[i + 1..]
              && r.sent == s.sent + [s.queue[i]]
              && r.inflight == Increment(s.inflight, s.queue[i].category)
              && r.maxInflight == s.maxInflight && r.nextId == s.nextId
  {
    match FirstEligible(s, 0)
    case None => s
    case Some(i) =>
      FirstEligibleUnique(s, i);
      var m := s.queue[i];
      s.(queue := s.queue[..i] + s.queue[i + 1..], sent := s.sent + [m], inflight := Increment(s.inflight, m.category))
  }

  /** Only one index is eligible with nothing eligible before it. */
  lemma FirstEligibleUnique(s: Scheduler, i: nat)
    requires i < |s.queue| && Eligible(s, s.queue[i]) && forall j :: 0 <= j < i ==> !Eligible(s, s.queue[j])
    ensures forall k :: 0 <= k < |s.queue| && Eligible(s, s.queue[k]) && (forall j :: 0 <= j < k ==> !Eligible(s, s.queue[j])) ==> k == i
  {
  }

  // ---------------------------------------------------------------------
  // Invariants
  // ---------------------------------------------------------------------

  /** Number of requests of category `c` in `q`. */
  function CountCategory(q: seq<Request>, c: string): nat {
    if |q| == 0 then 0 else (if q[0].category == c then 1 else 0) + CountCategory(q[1..], c)
  }

  lemma {:induction false} CountAppend(q: seq<Request>, m: Request, c: string)
    ensures CountCategory(q + [m], c) == CountCategory(q, c) + (if m.category == c then 1 else 0)
  {
    if |q| > 0 {
      assert (q + [m])[1..] == q[1..] + [m];
      CountAppend(q[1..], m, c);
    }
  }

  lemma {:induction false} CountRemove(q: seq<Request>, k: nat, c: string)
    requires k < |q|
    ensures CountCategory(q[..k] + q[k + 1..], c) + (if q[k].category == c then 1 else 0) == CountCategory(q, c)
  {
    if k == 0 {
      assert q[..k] + q[k + 1..] == q[1..];
    } else {
      var rest := q[..k] + q[k + 1..];
      assert rest[0] == q[0];
      assert rest[1..] == q[1..][..k - 1] + q[1..][k..];
      CountRemove(q[1..], k - 1, c);
    }
  }

  /** Every stored count is the number of requests of that category the
      session holds. */
  ghost predicate Counted(s: Scheduler) {
    forall c :: Lookup(s.inflight, c) == CountCategory(s.sent, c)
  }

  /** No category is over the limit. */
  ghost predicate Bounded(s: Scheduler) {
    forall c :: Lookup(s.inflight, c) <= s.maxInflight
  }

  /** Nothing waiting could be dispatched: one dispatch attempt per event
      is enough to keep the session busy. */
  predicate Settled(s: Scheduler) {
    forall j :: 0 <= j < |s.queue| ==> !Eligible(s, s.queue[j])
  }

  ghost predicate Valid(s: Scheduler) {
    Counted(s) && Bounded(s) && Settled(s)
  }

  /** A scheduler as constructed, with the given limit. */
  function NewScheduler(maxInflight: nat): (r: Scheduler)
    ensures Valid(r)
    ensures r.queue == [] && r.sent == [] && r.maxInflight == maxInflight
  {
    Scheduler([], map[], [], maxInflight, 0)
  }

  /** A dispatch keeps the counts exact and never pushes a category over
      the limit. */
  lemma DispatchKeepsCountAndBound(s: Scheduler)
    requires Counted(s) && Bounded(s)
    ensures Counted(SendNext(s)) && Bounded(SendNext(s))
    ensures SendNext(s).maxInflight == s.maxInflight
  {
    match FirstEligible(s, 0)
    case None =>
    case Some(i) =>
      var m := s.queue[i];
      var r := SendNext(s);
      forall c
        ensures Lookup(r.inflight, c) == CountCategory(r.sent, c)
      {
        CountAppend(s.sent, m, c);
      }
  }

  /** A dispatch settles the queue when only category `c` may have become
      eligible, and one more request of `c` in flight makes every other
      queued request of `c` ineligible. */
  lemma SettleAfterDispatch(t: Scheduler, c: string)
    requires forall j :: 0 <= j < |t.queue| && t.queue[j].category != c ==> !Eligible(t, t.queue[j])
    requires forall j, k :: 0 <= j < k < |t.queue| && t.queue[j].category == c && t.queue[k].category == c ==>
               Lookup(t.inflight, c) + 1 >= t.maxInflight
    ensures Settled(SendNext(t))
  {
    match FirstEligible(t, 0)
    case None =>
    case Some(i) =>
      SettledAfterSend(t, SendNext(t), i, c);
  }

  /** The queue left after sending request `i`, the first eligible one,
      is settled when only category `c` could run and `c` has no room for
      a second request. */
  lemma SettledAfterSend(t: Scheduler, r: Scheduler, i: nat, c: string)
    requires i < |t.queue| && t.queue[i].category == c && Eligible(t, t.queue[i])
    requires forall j :: 0 <= j < i ==> !Eligible(t, t.queue[j])
    requires r.queue == t.queue[..i] + t.queue[i + 1..] && r.inflight == Increment(t.inflight, c)
             && r.maxInflight == t.maxInflight
    requires forall j :: 0 <= j < |t.queue| && t.queue[j].category != c ==> !Eligible(t, t.queue[j])
    requires forall j, k :: 0 <= j < k < |t.queue| && t.queue[j].category == c && t.queue[k].category == c ==>
               Lookup(t.inflight, c) + 1 >= t.maxInflight
    ensures Settled(r)
  {
    forall j | 0 <= j < |r.queue|
      ensures !Eligible(r, r.queue[j])
    {
      var o := if j < i then j else j + 1;
      var x := t.queue[o];
      assert r.queue[j] == x;
      if x.category != c {
        assert Lookup(r.inflight, x.category) == Lookup(t.inflight, x.category);
      } else if i < o {
        assert Lookup(t.inflight, c) + 1 >= t.maxInflight;
      } else {
        // x would come before the first eligible request, yet shares its
        // category and so its count.
        assert false;
      }
    }
  }

  // ---------------------------------------------------------------------
  // Requests
  // ---------------------------------------------------------------------

  /** The request `get_with_category` builds for the next identity. */
  function NewRequest(s: Scheduler, uri: string, category: string, headers: seq<Header>, flags: bv32): Request {
    Request(s.nextId, uri, category, headers, flags)
  }

  /** Puts `m` at the tail of the queue and moves to the next identity. */
  function Enqueue(s: Scheduler, m: Request): (r: Scheduler)
    ensures r.queue == s.queue + [m] && r.sent == s.sent && r.inflight == s.inflight && r.maxInflight == s.maxInflight
  {
    s.(queue := s.queue + [m], nextId := s.nextId + 1)
  }

  /** A dispatch right after enqueueing keeps the scheduler valid: only
      the new request can be eligible. */
  lemma EnqueueThenDispatch(s: Scheduler, m: Request)
    requires Valid(s)
    ensures Valid(SendNext(Enqueue(s, m)))
  {
    var t := Enqueue(s, m);
    var c := m.category;
    forall j | 0 <= j < |t.queue| && t.queue[j].category != c
      ensures !Eligible(t, t.queue[j])
    {
      assert t.queue[j] == s.queue[j];
      assert !Eligible(s, s.queue[j]);
    }
    forall j, k | 0 <= j < k < |t.queue| && t.queue[j].category == c && t.queue[k].category == c
      ensures Lookup(t.inflight, c) + 1 >= t.maxInflight
    {
      assert t.queue[j] == s.queue[j];
      assert !Eligible(s, s.queue[j]);
    }
    SettleAfterDispatch(t, c);
    DispatchKeepsCountAndBound(t);
  }

  /** `get_with_category`: an empty uri or category, or no flags, is
      refused; otherwise the request joins the tail of the queue and one
      dispatch is attempted. In a valid state only the new request can be
      the one dispatched. */
  function GetWithCategory(s: Scheduler, uri: string, category: string, headers: seq<Header>, flags: bv32): (r: Scheduler)
    ensures uri == [] || category == [] || flags == 0 ==> r == s
    ensures uri != [] && category != [] && flags != 0 && Settled(s) ==>
              var m := NewRequest(s, uri, category, headers, flags);
              || (r.queue == s.queue + [m] && r.sent == s.sent)
              || (r.queue == s.queue && r.sent == s.sent + [m])
    ensures r.maxInflight == s.maxInflight
  {
    if uri == [] || category == [] || flags == 0 then s
    else
      var t := Enqueue(s, NewRequest(s, uri, category, headers, flags));
      assert t.queue[..|s.queue|] + t.queue[|s.queue| + 1..] == s.queue;
      SendNext(t)
  }

  /** `get`: a request in the `_NO_CATEGORY` category. */
  function Get(s: Scheduler, uri: string, headers: seq<Header>, flags: bv32): (r: Scheduler)
    ensures uri != [] && flags != 0 && Settled(s) ==>
              || (|r.queue| > 0 && r.queue[|r.queue| - 1].category == NoCategory)
              || (|r.sent| > 0 && r.sent[|r.sent| - 1].category == NoCategory)
  {
    GetWithCategory(s, uri, NoCategory, headers, flags)
  }

  /** A new request keeps the scheduler valid. */
  lemma GetKeepsValid(s: Scheduler, uri: string, category: string, headers: seq<Header>, flags: bv32)
    requires Valid(s)
    ensures Valid(GetWithCategory(s, uri, category, headers, flags))
  {
    if uri != [] && category != [] && flags != 0 {
      EnqueueThenDispatch(s, NewRequest(s, uri, category, headers, flags));
    }
  }

  /** Index of the first queued request with identity `id`. */
  function FindQueued(q: seq<Request>, id: nat): (r: Option<nat>)
    ensures r.Some? ==> r.value < |q| && q[r.value].id == id
    ensures r.Some? ==> forall j :: 0 <= j < r.value ==> q[j].id != id
    ensures r.None? <==> forall j :: 0 <= j < |q| ==> q[j].id != id
  {
    if |q| == 0 then None
    else if q[0].id == id then Some(0)
    else
      match FindQueued(q[1..], id)
      case None => None
      case Some(k) => Some(k + 1)
  }

  /** `msg_cancelled_cb`: a cancelled request still waiting leaves the
      queue. Dispatch disconnects the handler, so cancelling a request the
      session already holds changes nothing here; its completion reports
      the cancellation instead. */
  function Cancel(s: Scheduler, id: nat): (r: Scheduler)
    ensures (forall j :: 0 <= j < |s.queue| ==> s.queue[j].id != id) ==> r == s
    ensures forall i :: 0 <= i < |s.queue| && s.queue[i].id == id && (forall j :: 0 <= j < i ==> s.queue[j].id != id) ==>
              r == s.(queue := s.queue[..i] + s.queue[i + 1..])
  {
    match FindQueued(s.queue, id)
    case None => s
    case Some(i) => s.(queue := s.queue[..i] + s.queue[i + 1..])
  }

  lemma CancelKeepsValid(s: Scheduler, id: nat)
    requires Valid(s)
    ensures Valid(Cancel(s, id))
  {
    match FindQueued(s.queue, id)
    case None =>
    case Some(i) =>
      RemoveQueuedKeepsValid(s, i);
  }

  /** Taking a request out of the queue keeps the counts, the bound and
      the settled state. */
  lemma RemoveQueuedKeepsValid(s: Scheduler, i: nat)
    requires Valid(s) && i < |s.queue|
    ensures Valid(s.(queue := s.queue[..i] + s.queue[i + 1..]))
  {
    var r := s.(queue := s.queue[..i] + s.queue[i + 1..]);
    forall j | 0 <= j < |r.queue|
      ensures !Eligible(r, r.queue[j])
    {
      assert r.queue[j] == s.queue[if j < i then j else j + 1];
    }
  }

  // ---------------------------------------------------------------------
  // Completion
  // ---------------------------------------------------------------------

  /** What the session reports for a sent request. */
  datatype SendResult = TransportError | Response(status: int, headers: seq<Header>)

  /** What the request's callback receives. `ToCache` hands the response
      to the cache download path; `Silent` means no callback is made. */
  datatype Reply = CancelledError | SendError | Unsuccessful(status: int) | ToCache | Stream | Silent

  datatype Completion = Completion(state: Scheduler, reply: Reply)

  /** `SOUP_STATUS_IS_SUCCESSFUL`. */
  predicate IsSuccessful(status: int) {
    200 <= status < 300
  }

  /** ASCII lower case, as `g_ascii_strncasecmp` compares. */
  function AsciiDown(c: char): (r: char)
    ensures 'A' <= c <= 'Z' ==> r as int == c as int + 32
    ensures !('A' <= c <= 'Z') ==> r == c
  {
    if 'A' <= c <= 'Z' then (c as int + 32) as char else c
  }

  predicate EqualsIgnoreCase(a: string, b: string) {
    |a| == |b| && forall i :: 0 <= i < |a| ==> AsciiDown(a[i]) == AsciiDown(b[i])
  }

  /** `s` without leading and trailing white space. */
  function Trim(s: string): (r: string)
    ensures |r| <= |s|
    ensures |r| > 0 ==> !IsSpace(r[0]) && !IsSpace(r[|r| - 1])
    decreases |s|
  {
    if |s| > 0 && IsSpace(s[0]) then Trim(s[1..])
    else if |s| > 0 && IsSpace(s[|s| - 1]) then Trim(s[..|s| - 1])
    else s
  }

  /** True when one comma-separated item of a header value, with white
      space trimmed, equals `token` ignoring ASCII case. */
  predicate ListContains(items: seq<string>, token: string)
    decreases |items|
  {
    |items| > 0 && (EqualsIgnoreCase(Trim(items[0]), token) || ListContains(items[1..], token))
  }

  /** `soup_message_headers_header_contains`: some header named `name`
      (ignoring case) lists `token`. */
  predicate HeaderContains(hs: seq<Header>, name: string, token: string)
    decreases |hs|
  {
    |hs| > 0 && ((EqualsIgnoreCase(hs[0].0, name) && ListContains(Pieces(hs[0].1, {','}), token)) || HeaderContains(hs[1..], name, token))
  }

  lemma {:induction false} HeaderContainsConcat(a: seq<Header>, b: seq<Header>, name: string, token: string)
    ensures HeaderContains(a + b, name, token) <==> HeaderContains(a, name, token) || HeaderContains(b, name, token)
    decreases |a|
  {
    if |a| == 0 {
      assert a + b == b;
    } else {
      assert (a + b)[0] == a[0];
      assert (a + b)[1..] == a[1..] + b;
      HeaderContainsConcat(a[1..], b, name, token);
    }
  }

  /** `can_cache_response`: a response may be cached unless it carries
      `Pragma: no-cache`, `Cache-Control: no-cache` or `Expires: 0`. */
  function CanCache(hs: seq<Header>): (r: bool)
    ensures r <==> !HeaderContains(hs, "Pragma", "no-cache") && !HeaderContains(hs, "Cache-Control", "no-cache") && !HeaderContains(hs, "Expires", "0")
  {
    if HeaderContains(hs, "Pragma", "no-cache") then false
    else if HeaderContains(hs, "Cache-Control", "no-cache") then false
    else if HeaderContains(hs, "Expires", "0") then false
    else true
  }

  /** Header lines veto caching independently: a response is cacheable
      exactly when each part of its header list would be. */
  lemma CanCacheConcat(a: seq<Header>, b: seq<Header>)
    ensures CanCache(a + b) <==> CanCache(a) && CanCache(b)
  {
    HeaderContainsConcat(a, b, "Pragma", "no-cache");
    HeaderContainsConcat(a, b, "Cache-Control", "no-cache");
    HeaderContainsConcat(a, b, "Expires", "0");
  }

  /** Header names and directives match ignoring case. */
  lemma NoCacheIgnoresCase()
    ensures !CanCache([("pragma", "No-Cache")])
  {
    NoCacheDirective();
    SameLetters("pragma", "Pragma");
  }

  lemma NoCacheDirective()
    ensures ListContains(Pieces("No-Cache", {','}), "no-cache")
  {
    var v := "No-Cache";
    assert NoneIn(v, {','}) by {
      assert forall i :: 0 <= i < |v| ==> v[i] != ',';
    }
    assert !IsSpace(v[0]) && !IsSpace(v[|v| - 1]);
    SameLetters(v, "no-cache");
    OneDirective(v, "no-cache");
  }

  /** A header value without commas or surrounding white space is a single
      directive, matched as a whole. */
  lemma OneDirective(v: string, token: string)
    requires NoneIn(v, {','}) && |v| > 0 && !IsSpace(v[0]) && !IsSpace(v[|v| - 1])
    requires EqualsIgnoreCase(v, token)
    ensures ListContains(Pieces(v, {','}), token)
  {
    assert FindFirst(v, {','}).None?;
    assert Pieces(v, {','}) == [v];
    assert Trim(v) == v;
  }

  /** Two strings of one length are equal ignoring case when every
      position lowers to the same character. */
  lemma SameLetters(a: string, b: string)
    requires |a| == |b|
    requires forall i :: 0 <= i < |a| ==> AsciiDown(a[i]) == AsciiDown(b[i])
    ensures EqualsIgnoreCase(a, b)
  {
  }

  /** Releases sent request `k`: it leaves the session and its category
      count goes down by one. */
  function Release(s: Scheduler, k: nat): (r: Scheduler)
    requires k < |s.sent|
    ensures r.queue == s.queue && r.maxInflight == s.maxInflight
    ensures r.sent == s.sent[..k] + s.sent[k + 1..]
  {
    s.(sent := s.sent[..k] + s.sent[k + 1..], inflight := Decrement(s.inflight, s.sent[k].category))
  }

  /** The completion path of `soup_message_cb` for sent request `k`:
      the count is released, the callback gets the cancellation, the
      transport error, an unsuccessful status, the response for caching or
      the stream, and then one dispatch is attempted on every path.
      `cancelled` is the state of the request's cancellable. */
  function Complete(s: Scheduler, k: nat, res: SendResult, cancelled: bool): (r: Completion)
    requires k < |s.sent|
    ensures cancelled ==> r.reply == CancelledError
    ensures !cancelled && res.TransportError? ==> r.reply == SendError
    ensures !cancelled && res.Response? && !IsSuccessful(res.status) ==> r.reply == Unsuccessful(res.status)
    ensures !cancelled && res.Response? && IsSuccessful(res.status) ==>
              r.reply == (if s.sent[k].flags & FlagCacheResponse != 0 && CanCache(res.headers) then ToCache
                          else if s.sent[k].flags & FlagReturnStream != 0 then Stream
                          else Silent)
  {
    var m := s.sent[k];
    var reply :=
      if cancelled then CancelledError
      else if res.TransportError? then SendError
      else if !IsSuccessful(res.status) then Unsuccessful(res.status)
      else if m.flags & FlagCacheResponse != 0 && CanCache(res.headers) then ToCache
      else if m.flags & FlagReturnStream != 0 then Stream
      else Silent;
    Completion(SendNext(Release(s, k)), reply)
  }

  /** Every outcome leads to the same next state: a dispatch is attempted
      whatever the callback received. */
  lemma CompletionStateIgnoresOutcome(s: Scheduler, k: nat, a: SendResult, ca: bool, b: SendResult, cb: bool)
    requires k < |s.sent|
    ensures Complete(s, k, a, ca).state == Complete(s, k, b, cb).state
  {
  }

  /** A completion keeps the scheduler valid: the released count is the
      one that drops, and whatever it frees is dispatched at once. */
  lemma CompleteKeepsValid(s: Scheduler, k: nat, res: SendResult, cancelled: bool)
    requires Valid(s) && k < |s.sent|
    ensures Valid(Complete(s, k, res, cancelled).state)
  {
    var c := s.sent[k].category;
    var t := Release(s, k);
    CountRemove(s.sent, k, c);
    assert Lookup(s.inflight, c) >= 1;
    forall d
      ensures Lookup(t.inflight, d) == CountCategory(t.sent, d)
    {
      CountRemove(s.sent, k, d);
    }
    forall j | 0 <= j < |t.queue| && t.queue[j].category != c
      ensures !Eligible(t, t.queue[j])
    {
      assert !Eligible(s, s.queue[j]);
    }
    forall j, i | 0 <= j < i < |t.queue| && t.queue[j].category == c && t.queue[i].category == c
      ensures Lookup(t.inflight, c) + 1 >= t.maxInflight
    {
      assert !Eligible(s, s.queue[j]);
    }
    SettleAfterDispatch(t, c);
    DispatchKeepsCountAndBound(t);
  }
}
