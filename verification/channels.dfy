/** Channel objects and the lists the application keeps of them: the
    channel record and its identity comparison (`gt-channel.c`, repeated
    verbatim for the older `gt-twitch-channel.c`), the follows and
    favourites managers, and the filter and sort functions of the two
    channel containers.

    A `GtChannel` is a record of its properties. Signals, reference counts
    and the GTK flow box are not modelled; a remote follow or unfollow call
    is reduced to whether it succeeded, and a JSON file to the list of
    (name, id) pairs it holds.
 */
module Channels {
  import opened Wrappers
  import opened CStrings

  /** `GtChannelData`, the raw record the Twitch API layer produces. Image
      URLs are not modelled. */
  datatype ChannelData = ChannelData(
    id: int,
    name: Option<string>,
    displayName: Option<string>,
    game: Option<string>,
    status: Option<string>,
    viewers: int,
    startedTime: Option<int>,
    online: bool)

  /** The properties of a `GtChannel`. Preview and banner images are not
      modelled. */
  datatype Channel = Channel(
    id: int,
    name: Option<string>,
    displayName: Option<string>,
    game: Option<string>,
    status: Option<string>,
    viewers: int,
    startedTime: Option<int>,
    online: bool,
    favourited: bool,
    followed: bool,
    autoUpdate: bool)

  /** What `g_list_find_custom` hands the comparison: any GObject. */
  datatype Obj = ChannelObj(channel: Channel) | OtherObj

  /** A channel's identity: its name and id. */
  predicate SameKey(a: Channel, b: Channel) {
    a.name == b.name && a.id == b.id
  }

  /** `gt_channel_new`: only name and id are set; every other property has
      its default. */
  function NewChannel(name: Option<string>, id: int): (r: Channel)
    ensures r.name == name && r.id == id
    ensures !r.favourited && !r.followed && !r.online && !r.autoUpdate
  {
    Channel(id, name, None, None, None, 0, None, false, false, false, false)
  }

  /** `gt_channel_update_from_raw_data`: copies the live properties and
      never touches name, id or the user's flags. */
  function UpdateFromRawData(c: Channel, d: ChannelData): (r: Channel)
    ensures SameKey(r, c)
    ensures r.favourited == c.favourited && r.followed == c.followed && r.autoUpdate == c.autoUpdate
    ensures r.viewers == d.viewers && r.displayName == d.displayName && r.status == d.status
    ensures r.game == d.game && r.startedTime == d.startedTime && r.online == d.online
  {
    c.(viewers := d.viewers, displayName := d.displayName, status := d.status, game := d.game,
       startedTime := d.startedTime, online := d.online)
  }

  /** A channel built from raw data keeps the raw record's identity. */
  function FromRawData(d: ChannelData): (r: Channel)
    ensures r.name == d.name && r.id == d.id && r.online == d.online
  {
    UpdateFromRawData(NewChannel(d.name, d.id), d)
  }

  /** `gt_channel_toggle_favourited`. */
  function ToggleFavourited(c: Channel): (r: Channel)
    ensures r.favourited != c.favourited
    ensures r.(favourited := c.favourited) == c
  {
    c.(favourited := !c.favourited)
  }

  /** `gt_channel_toggle_followed`, whose body is not part of this model:
      assumed to negate the flag as `toggle_favourited` does. */
  function ToggleFollowed(c: Channel): (r: Channel)
    ensures r.followed != c.followed
    ensures r.(followed := c.followed) == c
  {
    c.(followed := !c.followed)
  }

  /** Toggling twice restores the channel. */
  lemma ToggleTwice(c: Channel)
    ensures ToggleFavourited(ToggleFavourited(c)) == c
    ensures ToggleFollowed(ToggleFollowed(c)) == c
  {
  }

  /** `gt_channel_compare`, a `GCompareFunc` for `g_list_find_custom`: FALSE
      (a match) exactly when `other` is a channel with the same name, compared
      with `g_strcmp0`, and the same id; TRUE otherwise, including for an
      object that is not a channel. */
  function Compare(self: Channel, other: Obj): (r: bool)
    ensures !r <==> other.ChannelObj? && SameKey(self, other.channel)
  {
    match other
    case OtherObj => true
    case ChannelObj(o) => !(StrCmp0(self.name, o.name) == 0 && self.id == o.id)
  }

  /** A channel matches itself, and matching does not depend on the order
      of the two channels. */
  lemma CompareReflexiveSymmetric(a: Channel, b: Channel)
    ensures !Compare(a, ChannelObj(a))
    ensures Compare(a, ChannelObj(b)) == Compare(b, ChannelObj(a))
  {
  }

  /** Only the channel's identity decides the comparison: two channels that
      differ in any other property still match. */
  lemma CompareIgnoresLiveProperties(a: Channel, d: ChannelData)
    ensures !Compare(a, ChannelObj(UpdateFromRawData(a, d)))
    ensures !Compare(UpdateFromRawData(a, d), ChannelObj(ToggleFavourited(a)))
  {
  }

  // ---------------------------------------------------------------------
  // JSON shape

  /** The properties `json_list_props` hands to json-glib, in order. */
  const JsonProps: seq<string> := ["name", "id"]

  /** `json_gobject_serialize` of a channel: exactly its name and id. */
  datatype Saved = Saved(name: Option<string>, id: int)

  function Serialize(c: Channel): (r: Saved)
    ensures r.name == c.name && r.id == c.id
  {
    Saved(c.name, c.id)
  }

  /** `json_gobject_deserialize`: a new channel with the saved properties. */
  function Deserialize(s: Saved): (r: Channel)
    ensures r.name == s.name && r.id == s.id
  {
    NewChannel(s.name, s.id)
  }

  /** Saving and loading a channel gives back a channel with the same
      identity, and the saved form of that channel is unchanged. */
  lemma SerializeRoundTrip(c: Channel, s: Saved)
    ensures SameKey(Deserialize(Serialize(c)), c)
    ensures !Compare(c, ChannelObj(Deserialize(Serialize(c))))
    ensures Serialize(Deserialize(s)) == s
  {
  }

  // ---------------------------------------------------------------------
  // Finding a channel in a list

  /** `g_list_find_custom(list, chan, gt_channel_compare)`: the first
      element that compares equal to `chan`. */
  function Find(list: seq<Channel>, chan: Channel): (r: Option<nat>)
    ensures r.Some? ==> r.value < |list| && SameKey(list[r.value], chan)
    ensures r.Some? ==> forall j :: 0 <= j < r.value ==> !SameKey(list[j], chan)
    ensures r.None? ==> forall j :: 0 <= j < |list| ==> !SameKey(list[j], chan)
  {
    if |list| == 0 then None
    else if !Compare(list[0], ChannelObj(chan)) then Some(0)
    else
      match Find(list[1..], chan)
      case None => None
      case Some(k) => Some(k + 1)
  }

  /** `s` without its element at `i`. */
  function RemoveAt<T>(s: seq<T>, i: nat): (r: seq<T>)
    requires i < |s|
    ensures |r| == |s| - 1
    ensures forall j :: 0 <= j < i ==> r[j] == s[j]
    ensures forall j :: i <= j < |r| ==> r[j] == s[j + 1]
  {
    s[..i] + s[i + 1..]
  }

  /** Membership under `gt_channel_compare`. */
  predicate InList(list: seq<Channel>, chan: Channel) {
    exists i :: 0 <= i < |list| && SameKey(list[i], chan)
  }

  /** `g_list_find_custom(list, chan, gt_channel_compare) != NULL`, the whole
      body of both `gt_follows_manager_is_channel_followed` and
      `gt_favourites_manager_is_channel_favourited`. */
  function IsListed(list: seq<Channel>, chan: Channel): (r: bool)
    ensures r <==> InList(list, chan)
  {
    Find(list, chan).Some?
  }

  // ---------------------------------------------------------------------
  // The follows manager

  /** The outcome of a follow or unfollow notification: the new list and
      the channel with its flag as it ends up. */
  datatype Change = Change(list: seq<Channel>, chan: Channel)

  /** `channel_followed_cb`, run when a channel's followed flag changes.
      Following appends the channel; unfollowing removes the first element
      that compares equal, which must exist (`g_assert_nonnull`: `None`
      otherwise). With valid credentials the change is first made on
      Twitch, and when that call fails the list is left alone and the flag
      is toggled back. */
  function ChannelFollowed(list: seq<Channel>, chan: Channel, credentials: bool, remoteOk: bool): (r: Option<Change>)
    ensures chan.followed ==> r.Some?
    ensures !chan.followed ==> (r.Some? <==> InList(list, chan))
    ensures r.Some? && credentials && !remoteOk ==> r.value == Change(list, ToggleFollowed(chan))
    ensures r.Some? && (!credentials || remoteOk) ==> r.value.chan == chan
    ensures chan.followed && (!credentials || remoteOk) ==> r.value.list == list + [chan]
  {
    if chan.followed then
      if credentials && !remoteOk then Some(Change(list, ToggleFollowed(chan)))
      else Some(Change(list + [chan], chan))
    else
      var found :- Find(list, chan);
      if credentials && !remoteOk then Some(Change(list, ToggleFollowed(chan)))
      else Some(Change(RemoveAt(list, found), chan))
  }

  /** An unfollow takes out exactly the first matching element and keeps
      the others in order. */
  lemma UnfollowRemovesFirstMatch(list: seq<Channel>, chan: Channel, credentials: bool, remoteOk: bool, i: nat)
    requires !chan.followed && (!credentials || remoteOk)
    requires i < |list| && SameKey(list[i], chan)
    requires forall j :: 0 <= j < i ==> !SameKey(list[j], chan)
    ensures ChannelFollowed(list, chan, credentials, remoteOk) == Some(Change(list[..i] + list[i + 1..], chan))
  {
  }

  /** Following a channel that was not followed and then unfollowing it
      restores the list. */
  lemma FollowThenUnfollow(list: seq<Channel>, chan: Channel, credentials: bool)
    requires chan.followed && !InList(list, chan)
    ensures ChannelFollowed(list, chan, credentials, true) == Some(Change(list + [chan], chan))
    ensures ChannelFollowed(list + [chan], ToggleFollowed(chan), credentials, true) == Some(Change(list, ToggleFollowed(chan)))
  {
    var l := list + [chan];
    var off := ToggleFollowed(chan);
    assert SameKey(l[|list|], off);
    forall j | 0 <= j < |list|
      ensures !SameKey(l[j], off)
    {
      assert l[j] == list[j];
    }
    UnfollowRemovesFirstMatch(l, off, credentials, true, |list|);
    assert l[..|list|] + l[|list| + 1..] == list;
  }

  /** The flags `follows_all_cb` and `load_from_file` set on every loaded
      channel. */
  function MarkFollowed(list: seq<Channel>): (r: seq<Channel>)
    ensures |r| == |list|
    ensures forall i :: 0 <= i < |list| ==> r[i] == list[i].(autoUpdate := true, followed := true)
  {
    if |list| == 0 then [] else [list[0].(autoUpdate := true, followed := true)] + MarkFollowed(list[1..])
  }

  /** `follows_all_cb`: the old list is cleared before the error is looked
      at, so a failed fetch leaves no follows at all; a successful one makes
      the list exactly the fetched channels, marked followed. */
  function FollowsAll(list: seq<Channel>, fetched: Option<seq<Channel>>): (r: seq<Channel>)
    ensures fetched.None? ==> r == []
    ensures fetched.Some? ==> |r| == |fetched.value|
    ensures fetched.Some? ==> forall i :: 0 <= i < |r| ==> SameKey(r[i], fetched.value[i]) && r[i].followed
  {
    match fetched
    case None => []
    case Some(l) => MarkFollowed(l)
  }

  /** `gt_follows_manager_load_from_file`: the list is cleared; a missing
      or unreadable file (`None`) leaves it empty, otherwise every saved
      channel is deserialised and appended in file order, marked followed. */
  function LoadFollowsFromFile(file: Option<seq<Saved>>): (r: seq<Channel>)
    ensures file.None? ==> r == []
    ensures file.Some? ==> |r| == |file.value|
    ensures file.Some? ==> forall i :: 0 <= i < |r| ==> Serialize(r[i]) == file.value[i] && r[i].followed
  {
    match file
    case None => []
    case Some(saved) => MarkFollowed(DeserializeAll(saved))
  }

  function DeserializeAll(saved: seq<Saved>): (r: seq<Channel>)
    ensures |r| == |saved|
    ensures forall i :: 0 <= i < |r| ==> r[i] == Deserialize(saved[i])
  {
    if |saved| == 0 then [] else [Deserialize(saved[0])] + DeserializeAll(saved[1..])
  }

  function SerializeAll(list: seq<Channel>): (r: seq<Saved>)
    ensures |r| == |list|
    ensures forall i :: 0 <= i < |r| ==> r[i] == Serialize(list[i])
  {
    if |list| == 0 then [] else [Serialize(list[0])] + SerializeAll(list[1..])
  }

  /** `gt_follows_manager_save`: an empty list removes the file (`None`);
      otherwise the file holds one element per channel, in list order. */
  function SaveFollows(list: seq<Channel>): (r: Option<seq<Saved>>)
    ensures |list| == 0 <==> r.None?
    ensures r.Some? ==> r.value == SerializeAll(list)
  {
    if |list| == 0 then None else Some(SerializeAll(list))
  }

  /** Saving the follows and loading them back gives the same channels, in
      the same order, all marked followed. */
  lemma FollowsSaveLoad(list: seq<Channel>)
    ensures var l := LoadFollowsFromFile(SaveFollows(list));
            |l| == |list| && forall i :: 0 <= i < |l| ==> SameKey(l[i], list[i]) && l[i].followed
  {
  }

  // ---------------------------------------------------------------------
  // The favourites manager

  /** `channel_favourited_cb`. Favouriting appends the channel whatever the
      credentials or the outcome of the remote follow (whose error is not
      looked at); unfavouriting deletes the first element that compares
      equal, which must exist (`None` otherwise). */
  function ChannelFavourited(list: seq<Channel>, chan: Channel): (r: Option<seq<Channel>>)
    ensures chan.favourited ==> r == Some(list + [chan])
    ensures !chan.favourited ==> (r.Some? <==> InList(list, chan))
    ensures r.Some? && !chan.favourited ==> |r.value| == |list| - 1
  {
    if chan.favourited then Some(list + [chan])
    else
      var found :- Find(list, chan);
      Some(RemoveAt(list, found))
  }

  /** Unfavouriting keeps every element that does not match, in order, and
      removes only the first that does. */
  lemma UnfavouriteKeepsOthers(list: seq<Channel>, chan: Channel, i: nat)
    requires !chan.favourited
    requires i < |list| && SameKey(list[i], chan)
    requires forall j :: 0 <= j < i ==> !SameKey(list[j], chan)
    ensures ChannelFavourited(list, chan) == Some(list[..i] + list[i + 1..])
  {
  }

  /** Favouriting makes `is_channel_favourited` hold; unfavouriting a
      channel held once makes it fail. */
  lemma FavouriteMembership(list: seq<Channel>, chan: Channel)
    ensures chan.favourited ==> IsListed(ChannelFavourited(list, chan).value, chan)
    ensures !chan.favourited && !InList(list, chan) ==> ChannelFavourited(list, chan).None?
  {
    if chan.favourited {
      var l := list + [chan];
      assert SameKey(l[|list|], chan);
    }
  }

  function MarkFavourited(list: seq<Channel>): (r: seq<Channel>)
    ensures |r| == |list|
    ensures forall i :: 0 <= i < |list| ==> r[i] == list[i].(autoUpdate := true, favourited := true)
  {
    if |list| == 0 then [] else [list[0].(autoUpdate := true, favourited := true)] + MarkFavourited(list[1..])
  }

  /** The favourites manager's `follows_all_cb`: an error leaves the list as
      it is, and so does an empty result; a non-empty result replaces the
      list, every channel marked favourited. */
  function FavouritesAll(list: seq<Channel>, fetched: Option<seq<Channel>>): (r: seq<Channel>)
    ensures fetched.None? || (fetched.Some? && |fetched.value| == 0) ==> r == list
    ensures fetched.Some? && |fetched.value| > 0 ==>
              |r| == |fetched.value| && forall i :: 0 <= i < |r| ==> SameKey(r[i], fetched.value[i]) && r[i].favourited
  {
    match fetched
    case None => list
    case Some(l) => if |l| == 0 then list else MarkFavourited(l)
  }

  /** The two managers disagree on a failed fetch: follows are emptied,
      favourites are kept. */
  lemma FailedFetchContrast(follows: seq<Channel>, favourites: seq<Channel>)
    ensures FollowsAll(follows, None) == []
    ensures FavouritesAll(favourites, None) == favourites
  {
  }

  /** `move_local_favourites_cb`: accepting the move empties the list before
      the channels are re-fetched from Twitch; declining keeps it. */
  function MoveLocalFavourites(list: seq<Channel>, accepted: bool): (r: seq<Channel>)
    ensures accepted ==> r == []
    ensures !accepted ==> r == list
  {
    if accepted then [] else list
  }

  /** `gt_favourites_manager_save`: one element per favourite, in list
      order; unlike the follows manager the file is written even when the
      list is empty. */
  function SaveFavourites(list: seq<Channel>): (r: seq<Saved>)
    ensures |r| == |list|
    ensures forall i :: 0 <= i < |r| ==> r[i].name == list[i].name && r[i].id == list[i].id
  {
    SerializeAll(list)
  }

  /** `gt_favourites_manager_load_from_file`. Unlike the follows manager's
      reader it does not clear the list: a missing or unreadable file
      (`None`) leaves it as it is, otherwise every saved channel is
      deserialised and appended after the channels already held, in file
      order, marked favourited. */
  function LoadFavouritesFromFile(list: seq<Channel>, file: Option<seq<Saved>>): (r: seq<Channel>)
    ensures file.None? ==> r == list
    ensures file.Some? ==> |r| == |list| + |file.value| && r[..|list|] == list
    ensures file.Some? ==> forall i :: 0 <= i < |file.value| ==>
              Serialize(r[|list| + i]) == file.value[i] && r[|list| + i].favourited
  {
    match file
    case None => list
    case Some(saved) => list + MarkFavourited(DeserializeAll(saved))
  }

  /** Saved favourites, loaded back into an empty list, are channels
      matching the saved ones position by position, all favourited. */
  lemma FavouritesSaveLoad(list: seq<Channel>)
    ensures var l := LoadFavouritesFromFile([], Some(SaveFavourites(list)));
            |l| == |list| && forall i :: 0 <= i < |l| ==> !Compare(l[i], ChannelObj(list[i])) && l[i].favourited
  {
  }

  /** Reading the same file twice doubles the favourites, where the
      follows manager's reader ends with one copy. */
  lemma FavouritesLoadTwiceDuplicates(saved: seq<Saved>)
    ensures var once := LoadFavouritesFromFile([], Some(saved));
            LoadFavouritesFromFile(once, Some(saved)) == once + once
    ensures |LoadFollowsFromFile(Some(saved))| == |saved|
  {
  }

  // ---------------------------------------------------------------------
  // The channel containers

  /** The stored search query: `filter` replaces it by a copy of the new
      one (possibly NULL). */
  datatype Container = Container(query: Option<string>)

  function SetFilter(c: Container, query: Option<string>): (r: Container)
    ensures r.query == query
  {
    c.(query := query)
  }

  /** `filter_follows_by_name` / `filter_favourites_by_name`: with no query
      every child is shown; otherwise only channels whose name contains the
      query (`g_strrstr`, which returns NULL for a NULL name). */
  function FilterByName(c: Container, name: Option<string>): (r: bool)
    ensures c.query.None? ==> r
    ensures c.query.Some? ==> (r <==> name.Some? && exists j :: 0 <= j && OccursAt(name.value, c.query.value, j))
  {
    if c.query.None? then true
    else name.Some? && Contains(name.value, c.query.value)
  }

  /** After `filter` the shown children are exactly those matching the new
      query, whatever the old one was. */
  lemma FilterReplacesQuery(c: Container, q: string, name: string)
    ensures FilterByName(SetFilter(c, Some(q)), Some(name)) == Contains(name, q)
    ensures FilterByName(SetFilter(c, None), Some(name))
  {
  }

  /** `sort_follows_by_name_and_online` / `sort_favourites_by_name_and_online`:
      online channels first, then by name with `g_strcmp0`. */
  function SortByNameAndOnline(a: Channel, b: Channel): (r: int)
    ensures a.online && !b.online ==> r < 0
    ensures !a.online && b.online ==> r > 0
    ensures a.online == b.online ==> r == StrCmp0(a.name, b.name)
  {
    if a.online && !b.online then -1
    else if !a.online && b.online then 1
    else StrCmp0(a.name, b.name)
  }

  /** Swapping the two channels flips the sign of the comparison, and two
      channels compare equal only when they have the same status and name. */
  lemma SortAntisymmetric(a: Channel, b: Channel)
    ensures SortByNameAndOnline(a, b) == -SortByNameAndOnline(b, a)
    ensures SortByNameAndOnline(a, b) == 0 <==> a.online == b.online && a.name == b.name
  {
    StrCmp0Antisymmetric(a.name, b.name);
  }
}
