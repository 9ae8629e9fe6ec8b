/**
 Connections and rooms of one Comet shard (internal/comet/bucket.go, internal/comet/room.go). A room
 is an intrusive doubly linked list through the channels; the bucket maps keys to channels and room
 ids to rooms. Each operation is one atomic step here.
 */
module Bucket {
  class Channel {
    const key: string
    var room: Room?
    var next: Channel?
    var prev: Channel?
    var closed: bool

    constructor (key: string)
      ensures this.key == key && room == null && !closed
    {
      this.key, room, next, prev, closed := key, null, null, null, false;
    }
  }

  /** s without the element at position k. */
  ghost function Without<T>(s: seq<T>, k: nat): (r: seq<T>)
    requires k < |s|
    ensures |r| == |s| - 1
    ensures forall i :: 0 <= i < |r| ==> r[i] == if i < k then s[i] else s[i + 1]
  {
    s[..k] + s[k + 1..]
  }

  function At(s: seq<Channel>, i: int): Channel? {
    if 0 <= i < |s| then s[i] else null
  }

  ghost predicate Distinct(s: seq<Channel>) {
    forall i, j :: 0 <= i < j < |s| ==> s[i] != s[j]
  }

  lemma WithoutDistinct(ms: seq<Channel>, k: nat)
    requires k < |ms| && Distinct(ms)
    ensures Distinct(Without(ms, k)) && ms[k] !in Without(ms, k)
  {
  }

  /** The neighbours of an element that stays, in the list without position k. */
  lemma WithoutNeighbours(ms: seq<Channel>, k: nat, i: nat)
    requires k < |ms| && i < |ms| - 1
    ensures var j := if i < k then i else i + 1; var r := Without(ms, k);
            && r[i] == ms[j] && j != k
            && At(r, i + 1) == At(ms, if j + 1 == k then k + 1 else j + 1)
            && At(r, i - 1) == At(ms, if j == k + 1 then k - 1 else j - 1)
  {
  }

  class Room {
    const id: string
    var next: Channel?
    var drop: bool
    var online: int
    ghost var members: seq<Channel>

    /** The list from `next` is exactly `members`, Prev inverts Next, and Online counts them. */
    ghost predicate Linked()
      reads this`next, this`online, this`members, members`next, members`prev
    {
      && online == |members|
      && next == (if members == [] then null else members[0])
      && Distinct(members)
      && (forall i {:trigger members[i].next} :: 0 <= i < |members| ==>
            members[i].next == At(members, i + 1))
      && (forall i {:trigger members[i].prev} :: 0 <= i < |members| ==>
            members[i].prev == At(members, i - 1))
    }

    /** A room as the bucket's map should hold it: undropped, and not empty except perhaps `open`. */
    ghost predicate Ok(id: string, list: seq<Channel>, open: Room?)
      reads this`next, this`online, this`members, this`drop, list`next, list`prev
    {
      this.id == id && members == list && !drop && (list != [] || this == open) && Linked()
    }

    /** Pointers of other channels do not matter. */
    twostate lemma LinkedFrame()
      requires old(Linked()) && unchanged(this)
      requires forall c :: c in members ==> c.next == old(c.next) && c.prev == old(c.prev)
      ensures Linked()
    {
      forall i | 0 <= i < |members|
        ensures members[i].next == At(members, i + 1) && members[i].prev == At(members, i - 1)
      {
        assert old(members[i].next) == At(members, i + 1) && old(members[i].prev) == At(members, i - 1);
      }
    }

    constructor (id: string)
      ensures this.id == id && members == [] && Linked() && !drop
    {
      this.id, next, drop, online, members := id, null, false, 0, [];
    }

    /** Inserts at the head; a dropped room refuses. */
    method Put(ch: Channel) returns (ok: bool)
      requires Linked() && ch !in members
      modifies this`next, this`online, this`members, ch`next, ch`prev, members`prev
      ensures ok <==> !drop
      ensures Linked() && members == if ok then [ch] + old(members) else old(members)
      ensures !ok ==> unchanged(this) && unchanged(ch)
    {
      if drop {
        return false;
      }
      if next != null {
        next.prev := ch;
      }
      ch.next := next;
      ch.prev := null;
      next := ch;
      online := online + 1;
      members := [ch] + members;
      return true;
    }

    /** Unlinks a member; the room drops when it was the last one. */
    method Del(ch: Channel) returns (dropped: bool, ghost k: nat)
      requires Linked() && ch in members
      modifies this`next, this`online, this`members, this`drop, members`next, members`prev
      ensures k < |old(members)| && old(members)[k] == ch && members == Without(old(members), k)
      ensures Linked() && ch !in members && ch.next == null && ch.prev == null
      ensures dropped == drop == (members == [])
    {
      k :| 0 <= k < |members| && members[k] == ch;
      ghost var ms := members;
      Unlink(ch, k);
      online := online - 1;
      drop := online == 0;
      members := Without(ms, k);
      WithoutDistinct(ms, k);
      forall i | 0 <= i < |members|
        ensures members[i].next == At(members, i + 1) && members[i].prev == At(members, i - 1)
      {
        WithoutNeighbours(ms, k, i);
      }
      dropped := drop;
    }

    /** The pointer surgery of Del: the neighbours of position k are joined. */
    method Unlink(ch: Channel, ghost k: nat)
      requires Linked() && k < |members| && members[k] == ch
      modifies this`next, members`next, members`prev
      ensures ch.next == null && ch.prev == null
      ensures next == if k == 0 then At(members, 1) else members[0]
      ensures forall i {:trigger members[i].next} :: 0 <= i < |members| && i != k ==>
                members[i].next == At(members, if i + 1 == k then k + 1 else i + 1)
      ensures forall i {:trigger members[i].prev} :: 0 <= i < |members| && i != k ==>
                members[i].prev == At(members, if i == k + 1 then k - 1 else i - 1)
    {
      assert ch.next == At(members, k + 1) && ch.prev == At(members, k - 1);
      if ch.next != null {
        ch.next.prev := ch.prev;
      }
      if ch.prev != null {
        ch.prev.next := ch.next;
      } else {
        next := ch.next;
      }
      ch.next := null;
      ch.prev := null;
    }

    /** Closes every channel still linked, following Next. */
    method Close()
      requires Linked()
      modifies members`closed
      ensures forall c :: c in members ==> c.closed
    {
      var ch := next;
      ghost var i := 0;
      while ch != null
        invariant 0 <= i <= |members|
        invariant ch == if i < |members| then members[i] else null
        invariant forall j :: 0 <= j < i ==> members[j].closed
        decreases |members| - i
      {
        assert ch == members[i];
        ch.closed := true;
        ch := ch.next;
        i := i + 1;
      }
    }
  }

  /** No channel is in two lists. */
  ghost predicate Apart(lists: map<string, seq<Channel>>) {
    forall id, other, c :: id in lists && other in lists && c in lists[id] && c in lists[other] ==> id == other
  }

  /** s without the channel. */
  ghost function Removed(s: seq<Channel>, ch: Channel): seq<Channel> {
    if s == [] then [] else if s[0] == ch then s[1..] else [s[0]] + Removed(s[1..], ch)
  }

  lemma {:induction false} RemovedIsWithout(s: seq<Channel>, k: nat)
    requires k < |s| && Distinct(s)
    ensures Removed(s, s[k]) == Without(s, k)
  {
    if k == 0 {
    } else {
      assert s[1..][k - 1] == s[k] && s[0] != s[k];
      RemovedIsWithout(s[1..], k - 1);
      assert [s[0]] + Without(s[1..], k - 1) == Without(s, k);
    }
  }

  /** The lists after ch has left room id: an emptied room disappears. */
  ghost function Left(lists: map<string, seq<Channel>>, id: string, ch: Channel): map<string, seq<Channel>>
    requires id in lists
  {
    if Removed(lists[id], ch) == [] then lists - {id} else lists[id := Removed(lists[id], ch)]
  }

  lemma {:induction false} RemovedMembers(s: seq<Channel>, ch: Channel, c: Channel)
    requires Distinct(s)
    ensures c in Removed(s, ch) <==> c in s && c != ch
  {
    if s == [] || s[0] == ch {
    } else {
      RemovedMembers(s[1..], ch, c);
    }
  }

  lemma ApartLeft(lists: map<string, seq<Channel>>, id: string, ch: Channel)
    requires Apart(lists) && id in lists && Distinct(lists[id]) && ch in lists[id]
    ensures Apart(Left(lists, id, ch))
    ensures forall other, c :: other in Left(lists, id, ch) && c in Left(lists, id, ch)[other] ==>
                               other in lists && c in lists[other] && c != ch
  {
    var after := Left(lists, id, ch);
    forall other, c | other in after && c in after[other] ensures other in lists && c in lists[other] && c != ch {
      RemovedMembers(lists[id], ch, c);
      assert other != id ==> after[other] == lists[other];
    }
  }

  lemma NotListed(lists: map<string, seq<Channel>>, id: string, ch: Channel)
    requires Apart(lists) && id in lists && Distinct(lists[id]) && ch in lists[id]
    ensures forall other :: other in Left(lists, id, ch) ==> ch !in Left(lists, id, ch)[other]
  {
    ApartLeft(lists, id, ch);
  }

  lemma LeftKeeps(lists: map<string, seq<Channel>>, id: string, ch: Channel)
    requires id in lists && Distinct(lists[id])
    ensures forall other, c :: other in lists && c in lists[other] && c != ch ==>
                               other in Left(lists, id, ch) && c in Left(lists, id, ch)[other]
  {
    forall other, c | other in lists && c in lists[other] && c != ch
      ensures other in Left(lists, id, ch) && c in Left(lists, id, ch)[other]
    {
      RemovedMembers(lists[id], ch, c);
    }
  }

  lemma ApartEmpty(lists: map<string, seq<Channel>>, id: string)
    requires Apart(lists)
    ensures Apart(lists[id := []])
  {
  }

  lemma ApartPrepend(lists: map<string, seq<Channel>>, id: string, ch: Channel)
    requires Apart(lists) && id in lists && forall other :: other in lists ==> ch !in lists[other]
    ensures Apart(lists[id := [ch] + lists[id]])
  {
  }

  /** The list of a room, empty when there is no such room. */
  ghost function ListOf(lists: map<string, seq<Channel>>, id: string): seq<Channel> {
    if id in lists then lists[id] else []
  }

  /** The lists after ch has left its room, if it had one. */
  ghost function Unlisted(lists: map<string, seq<Channel>>, room: Room?, ch: Channel): map<string, seq<Channel>> {
    if room == null || room.id !in lists then lists else Left(lists, room.id, ch)
  }

  /** The lists after ch has entered a room at the head. */
  ghost function Entered(lists: map<string, seq<Channel>>, id: string, ch: Channel): map<string, seq<Channel>> {
    lists[id := [ch] + ListOf(lists, id)]
  }

  ghost predicate SoleIn(lists: map<string, seq<Channel>>, room: Room?, id: string, ch: Channel) {
    room != null && room.id == id && id in lists && lists[id] == [ch]
  }

  lemma RemovedEmpty(s: seq<Channel>, ch: Channel)
    requires ch in s
    ensures Removed(s, ch) == [] <==> s == [ch]
  {
    if s[0] == ch && s[1..] == [] {
      assert s == [ch];
    }
  }

  /** Leaving one room after the other was looked up: what is there to enter. */
  lemma ChangeLists(was: map<string, seq<Channel>>, room: Room?, id: string, ch: Channel)
    requires room != null ==> room.id in was && ch in was[room.id]
    ensures var base := if id in was then was else was[id := []];
            var l := Unlisted(base, room, ch);
            if SoleIn(was, room, id, ch) then id !in l && l == was - {id}
            else id in l && l[id := [ch] + l[id]] == Entered(Unlisted(was, room, ch), id, ch)
  {
    if room != null {
      RemovedEmpty(was[room.id], ch);
    }
  }

  lemma UpdateTwice(base: map<string, seq<Channel>>, mid: map<string, seq<Channel>>, id: string, l: seq<Channel>)
    requires mid == if id in base then base else base[id := []]
    ensures id in mid && mid[id] == ListOf(base, id) && mid[id := l] == base[id := l]
  {
  }

  class Bucket {
    var chs: map<string, Channel>
    var rooms: map<string, Room>
    ghost var lists: map<string, seq<Channel>> // the members of every room, by id
    ghost var live: set<Channel>               // put and not yet deleted; a replaced connection stays until its own Del

    /** Every room in the map is linked up as `lists` says, undropped, and not empty except perhaps `open`. */
    ghost predicate RoomsOk(open: Room?)
      reads this`rooms, this`lists, this`live, rooms.Values, live`next, live`prev
    {
      && lists.Keys == rooms.Keys
      && Apart(lists) && (forall id, c :: id in lists && c in lists[id] ==> c in live)
      && (forall id :: id in rooms ==> rooms[id].Ok(id, lists[id], open))
    }

    /**
     The channels know their rooms: every live channel with a room is in exactly that room's list. In the
     middle of an operation the channels `ex` are in no list yet or any more.
     */
    ghost predicate ChannelsOk(ex: set<Channel>)
      reads this`rooms, this`lists, this`live, live`room
    {
      && lists.Keys == rooms.Keys
      && (forall id, c :: id in lists && c in lists[id] ==> c !in ex)
      && (forall id, c :: id in lists && c in lists[id] && c in live ==> c.room == rooms[id])
      && (forall c :: c in live && c !in ex && c.room != null ==>
            c.room.id in rooms && rooms[c.room.id] == c.room && c in lists[c.room.id])
    }

    /** The key map points to live channels stored under their own key. */
    ghost predicate KeysOk()
      reads this`live, this`chs
    {
      forall k :: k in chs ==> chs[k] in live && chs[k].key == k
    }

    ghost predicate Valid()
      reads this, live, rooms.Values
    {
      RoomsOk(null) && ChannelsOk({}) && KeysOk()
    }

    constructor ()
      ensures Valid() && live == {} && chs == map[] && rooms == map[]
    {
      chs, rooms, live, lists := map[], map[], {}, map[];
    }

    /** Looks a room up, adding an empty one if the id is new. */
    method FindOrCreate(rid: string, ghost ex: set<Channel>) returns (room: Room)
      requires RoomsOk(null) && ChannelsOk(ex)
      modifies this`rooms, this`lists
      ensures RoomsOk(room) && ChannelsOk(ex) && rid in rooms && rooms[rid] == room && room.id == rid
      ensures lists == if rid in old(lists) then old(lists) else old(lists)[rid := []]
      ensures if rid in old(rooms) then rooms == old(rooms) else fresh(room) && rooms == old(rooms)[rid := room]
    {
      if rid !in rooms {
        room := AddRoom(rid, ex);
      } else {
        room := rooms[rid];
      }
    }

    method AddRoom(rid: string, ghost ex: set<Channel>) returns (room: Room)
      requires RoomsOk(null) && ChannelsOk(ex) && rid !in rooms
      modifies this`rooms, this`lists
      ensures RoomsOk(room) && ChannelsOk(ex) && fresh(room) && room.id == rid
      ensures rooms == old(rooms)[rid := room] && lists == old(lists)[rid := []]
    {
      hide RoomsOk, ChannelsOk;
      room := new Room(rid);
      Install(room, ex);
    }

    method Install(room: Room, ghost ex: set<Channel>)
      requires RoomsOk(null) && ChannelsOk(ex) && room.id !in rooms
      requires room.Linked() && room.members == [] && !room.drop
      modifies this`rooms, this`lists
      ensures RoomsOk(room) && ChannelsOk(ex)
      ensures rooms == old(rooms)[room.id := room] && lists == old(lists)[room.id := []]
    {
      ApartEmpty(lists, room.id);
      hide Apart, Room.Linked;
      rooms := rooms[room.id := room];
      lists := lists[room.id := []];
      assert ChannelsOk(ex) by {
        hide RoomsOk;
      }
      hide ChannelsOk;
    }

    /** room.Put, seen from the bucket: the other rooms stay as they are. */
    method Enlist(room: Room, ch: Channel)
      requires RoomsOk(room) && room.id in rooms && rooms[room.id] == room
      requires forall id :: id in lists ==> ch !in lists[id]
      modifies room`next, room`online, room`members, ch`next, ch`prev, room.members`prev
      ensures room.Ok(room.id, [ch] + lists[room.id], null)
      ensures forall id :: id in rooms && id != room.id ==> rooms[id].Ok(id, lists[id], null)
    {
      assert room.Ok(room.id, lists[room.id], room);
      assert forall id :: id in rooms && id != room.id ==> rooms[id].Ok(id, lists[id], room);
      label entering:
      var _ := room.Put(ch);
      forall id | id in rooms && id != room.id ensures rooms[id].Ok(id, lists[id], null) {
        var r := rooms[id];
        assert forall c :: c in r.members ==> c != ch && c !in lists[room.id];
        r.LinkedFrame@entering();
      }
    }

    /** What the invariant says about the lists alone. */
    lemma ListsOk(room: Room, open: Room?)
      requires RoomsOk(open) && room.id in rooms && rooms[room.id] == room
      ensures lists.Keys == rooms.Keys && Apart(lists) && Distinct(lists[room.id]) && room.members == lists[room.id]
      ensures forall id, c :: id in lists && c in lists[id] ==> c in live
    {
      assert room.Ok(room.id, lists[room.id], open);
    }

    /** Links a channel that is in no list at the head of a known room. */
    method Enter(room: Room, ch: Channel)
      requires RoomsOk(room) && room.id in rooms && rooms[room.id] == room
      requires ch in live && forall id :: id in lists ==> ch !in lists[id]
      modifies this`lists, room`next, room`online, room`members, live`next, live`prev
      ensures RoomsOk(null) && lists == old(lists)[room.id := [ch] + old(lists[room.id])]
    {
      hide RoomsOk, Apart;
      ListsOk(room, room);
      Enlist(room, ch);
      Prepend(room, ch);
    }

    ghost method Prepend(room: Room, ch: Channel)
      requires lists.Keys == rooms.Keys && room.id in rooms && rooms[room.id] == room
      requires room.Ok(room.id, [ch] + lists[room.id], null)
      requires forall id :: id in rooms && id != room.id ==> rooms[id].Ok(id, lists[id], null)
      requires ch in live && forall id :: id in lists ==> ch !in lists[id]
      requires Apart(lists) && forall id, c :: id in lists && c in lists[id] ==> c in live
      modifies `lists
      ensures RoomsOk(null) && lists == old(lists)[room.id := [ch] + old(lists[room.id])]
    {
      ApartPrepend(lists, room.id, ch);
      hide Apart, Room.Linked;
      lists := lists[room.id := [ch] + lists[room.id]];
    }

    /** room.Del, seen from the bucket. */
    method Delist(room: Room, ch: Channel, ghost open: Room?) returns (dropped: bool)
      requires RoomsOk(open) && room.id in rooms && rooms[room.id] == room && ch in lists[room.id]
      modifies room`next, room`online, room`members, room`drop, room.members`next, room.members`prev
      ensures room.Linked() && room.members == Removed(lists[room.id], ch)
      ensures dropped == room.drop == (room.members == [])
      ensures forall id :: id in rooms && id != room.id ==> rooms[id].Ok(id, lists[id], open)
    {
      assert room.Ok(room.id, lists[room.id], open);
      assert forall id :: id in rooms && id != room.id ==> rooms[id].Ok(id, lists[id], open);
      label leaving:
      ghost var k;
      dropped, k := room.Del(ch);
      RemovedIsWithout(lists[room.id], k);
      forall id | id in rooms && id != room.id ensures rooms[id].Ok(id, lists[id], open) {
        var r := rooms[id];
        assert forall c :: c in r.members ==> c !in lists[room.id];
        r.LinkedFrame@leaving();
      }
    }

    /** oroom.Del followed, for an emptied room, by DelRoom. */
    method Leave(room: Room, ch: Channel, ghost open: Room?)
      requires RoomsOk(open) && room.id in rooms && rooms[room.id] == room && ch in lists[room.id]
      modifies this`rooms, this`lists, room`next, room`online, room`members, room`drop, live`next, live`prev
      ensures RoomsOk(open) && lists == Left(old(lists), room.id, ch)
      ensures rooms == if room.id in lists then old(rooms) else old(rooms) - {room.id}
      ensures room.drop <==> room.id !in lists
      ensures room.drop ==> room.Linked() && room.members == []
      ensures forall id :: id in lists ==> ch !in lists[id]
    {
      hide RoomsOk, Apart;
      ListsOk(room, open);
      var dropped := Delist(room, ch, open);
      if dropped {
        DelRoom(room, ch, open);
      } else {
        Relist(room, ch, open);
      }
      NotListed(old(lists), room.id, ch);
    }

    /** Others have stayed. */
    ghost method Relist(room: Room, ch: Channel, open: Room?)
      requires lists.Keys == rooms.Keys && room.id in rooms && rooms[room.id] == room
      requires room.Linked() && !room.drop && room.members == Removed(lists[room.id], ch) != []
      requires forall id :: id in rooms && id != room.id ==> rooms[id].Ok(id, lists[id], open)
      requires ch in lists[room.id] && Distinct(lists[room.id])
      requires Apart(lists) && forall id, c :: id in lists && c in lists[id] ==> c in live
      modifies `lists
      ensures RoomsOk(open) && lists == Left(old(lists), room.id, ch)
    {
      ApartLeft(lists, room.id, ch);
      hide Apart, Room.Linked, Removed;
      lists := lists[room.id := room.members];
      assert room.Ok(room.id, room.members, open);
    }

    /** The last member has left. */
    method DelRoom(room: Room, ghost ch: Channel, ghost open: Room?)
      requires lists.Keys == rooms.Keys && room.id in rooms && room.Linked() && room.members == []
      requires forall id :: id in rooms && id != room.id ==> rooms[id].Ok(id, lists[id], open)
      requires Removed(lists[room.id], ch) == [] && ch in lists[room.id] && Distinct(lists[room.id])
      requires Apart(lists) && forall id, c :: id in lists && c in lists[id] ==> c in live
      modifies this`rooms, this`lists
      ensures RoomsOk(open)
      ensures rooms == old(rooms) - {room.id} && lists == Left(old(lists), room.id, ch)
    {
      hide Apart, Room.Ok;
      ApartLeft(lists, room.id, ch);
      rooms := rooms - {room.id};
      lists := lists - {room.id};
      room.Close();
      forall id | id in rooms ensures rooms[id].Ok(id, lists[id], open) {
        assert old(rooms[id].Ok(id, lists[id], open));
      }
    }

    // -------------------------------------------------------------- the three operations

    /** A new connection; the previous one under the same key is closed, not removed. */
    method Put(rid: string, ch: Channel) returns (ok: bool)
      requires Valid() && ch !in live && ch.room == null
      modifies this, ch`room, ch`next, ch`prev, live`next, live`prev, live`closed, rooms.Values
      ensures ok && Valid() && live == old(live) + {ch}
      ensures chs == old(chs)[ch.key := ch]
      ensures forall c <- live :: c.closed <==> old(c.closed) || (ch.key in old(chs) && c == old(chs)[ch.key])
      ensures if rid == "" then ch.room == null && lists == old(lists)
              else ch.room != null && ch.room.id == rid && lists == Entered(old(lists), rid, ch)
    {
      hide RoomsOk, ChannelsOk;
      Register(ch);
      ok := true;
      if rid != "" {
        Join(rid, ch);
      } else {
        Settle(ch);
      }
    }

    /** The key map and the live set; nothing about rooms yet. */
    method Register(ch: Channel)
      requires Valid() && ch !in live
      modifies this`chs, this`live, live`closed
      ensures RoomsOk(null) && ChannelsOk({ch}) && KeysOk()
      ensures live == old(live) + {ch} && chs == old(chs)[ch.key := ch]
      ensures forall c <- live :: c.closed <==> old(c.closed) || (ch.key in old(chs) && c == old(chs)[ch.key])
    {
      hide RoomsOk, ChannelsOk;
      if ch.key in chs {
        chs[ch.key].closed := true;
      }
      Admit(ch);
      chs := chs[ch.key := ch];
    }

    ghost method Admit(ch: Channel)
      requires RoomsOk(null) && ChannelsOk({}) && ch !in live
      modifies this`live
      ensures RoomsOk(null) && ChannelsOk({ch}) && live == old(live) + {ch}
    {
      live := live + {ch};
    }

    lemma Settle(ch: Channel)
      requires ChannelsOk({ch}) && ch.room == null
      ensures ChannelsOk({})
    {
    }

    method Join(rid: string, ch: Channel)
      requires RoomsOk(null) && ChannelsOk({ch}) && KeysOk() && ch in live
      modifies this`rooms, this`lists, ch`room, live`next, live`prev, rooms.Values
      ensures Valid() && ch.room != null && ch.room.id == rid
      ensures lists == Entered(old(lists), rid, ch)
    {
      hide RoomsOk, ChannelsOk;
      ghost var base := lists;
      var room := FindFor(rid, ch);
      ghost var mid := lists;
      UpdateTwice(base, mid, rid, [ch] + ListOf(base, rid));
      assert rid in old(rooms) ==> room == old(rooms)[rid];
      EnterAs(room, ch);
    }

    method FindFor(rid: string, ch: Channel) returns (room: Room)
      requires RoomsOk(null) && ChannelsOk({ch}) && ch in live
      modifies this`rooms, this`lists, ch`room
      ensures RoomsOk(room) && ChannelsOk({ch})
      ensures ch.room == room && rid in rooms && rooms[rid] == room && room.id == rid
      ensures if rid in old(rooms) then room == old(rooms)[rid] else fresh(room)
      ensures lists == if rid in old(lists) then old(lists) else old(lists)[rid := []]
    {
      hide RoomsOk;
      room := FindOrCreate(rid, {ch});
      ch.room := room;
    }

    method EnterAs(room: Room, ch: Channel)
      requires RoomsOk(room) && ChannelsOk({ch}) && ch in live
      requires ch.room == room && room.id in rooms && rooms[room.id] == room
      modifies this`lists, room`next, room`online, room`members, live`next, live`prev
      ensures RoomsOk(null) && ChannelsOk({}) && lists == old(lists)[room.id := [ch] + old(lists[room.id])]
    {
      hide RoomsOk;
      Enter(room, ch);
    }

    /** The connection goes away: out of the key map only if it is still the one stored there. */
    method Del(dch: Channel)
      requires Valid() && dch in live
      modifies this, live`next, live`prev, rooms.Values
      ensures Valid() && live == old(live) - {dch}
      ensures chs == if dch.key in old(chs) && old(chs)[dch.key] == dch then old(chs) - {dch.key} else old(chs)
      ensures lists == if dch.room == null then old(lists) else Left(old(lists), dch.room.id, dch)
      ensures forall id :: id in lists ==> dch !in lists[id]
    {
      hide RoomsOk, ChannelsOk;
      var room := dch.room;
      if dch.key in chs && chs[dch.key] == dch {
        chs := chs - {dch.key};
      }
      assert forall k :: k in chs ==> chs[k] != dch;
      if room != null {
        InItsRoom(dch);
        LeaveAs(room, dch, null);
      } else {
        NoList(dch);
      }
      Forget(dch);
    }

    lemma InItsRoom(ch: Channel)
      requires ChannelsOk({}) && ch in live && ch.room != null
      ensures ch.room.id in rooms && rooms[ch.room.id] == ch.room && ch.room.id in lists && ch in lists[ch.room.id]
    {
    }

    /** A channel without a room, or one that has just left, is in no list. */
    lemma NoList(ch: Channel)
      requires ChannelsOk({}) && ch in live && ch.room == null
      ensures ChannelsOk({ch}) && forall id :: id in lists ==> ch !in lists[id]
    {
    }

    /** Leaving one's room: the channel is in no list afterwards. */
    method LeaveAs(room: Room, ch: Channel, ghost open: Room?)
      requires RoomsOk(open) && ChannelsOk({}) && ch in live && ch.room == room
      modifies this`rooms, this`lists, room`next, room`online, room`members, room`drop, live`next, live`prev
      ensures RoomsOk(open) && ChannelsOk({ch})
      ensures room.id in old(lists) && lists == Left(old(lists), room.id, ch)
      ensures rooms == if room.id in lists then old(rooms) else old(rooms) - {room.id}
      ensures room.drop <==> room.id !in lists
      ensures room.drop ==> room.Linked() && room.members == []
      ensures forall id :: id in lists ==> ch !in lists[id]
    {
      hide RoomsOk, Apart, Left;
      InItsRoom(ch);
      ListsOk(room, open);
      LeftKeeps(lists, room.id, ch);
      ApartLeft(lists, room.id, ch);
      Leave(room, ch, open);
      SameKeys(open);
    }

    ghost method Forget(dch: Channel)
      requires RoomsOk(null) && ChannelsOk({dch}) && forall id :: id in lists ==> dch !in lists[id]
      modifies this`live
      ensures RoomsOk(null) && ChannelsOk({}) && live == old(live) - {dch}
    {
      live := live - {dch};
    }

    /**
     Moves a channel to another room, or to none. The new room is looked up (or created) before the old
     one is left: asking for the room the channel is already in works only while it has company there.
     A sole member finds the room dropped under it and ends up in no list, with a stale room pointer.
     */
    method ChangeRoom(nrid: string, ch: Channel) returns (ok: bool)
      requires Valid() && ch in live
      modifies this`rooms, this`lists, ch`room, live`next, live`prev, rooms.Values
      ensures ok <==> Valid()
      ensures ok <==> !(nrid != "" && SoleIn(old(lists), old(ch.room), nrid, ch))
      ensures ok && nrid == "" ==>
                ch.room == null && lists == Unlisted(old(lists), old(ch.room), ch)
      ensures ok && nrid != "" ==>
                && ch.room != null && ch.room.id == nrid
                && lists == Entered(Unlisted(old(lists), old(ch.room), ch), nrid, ch)
      ensures !ok ==> ch.room == old(ch.room) && lists == old(lists) - {nrid}
    {
      if nrid == "" {
        LeaveRoom(ch);
        return true;
      }
      ok := MoveTo(nrid, ch);
    }

    method LeaveRoom(ch: Channel)
      requires Valid() && ch in live
      modifies this`rooms, this`lists, ch`room, live`next, live`prev, rooms.Values
      ensures Valid() && ch.room == null && lists == Unlisted(old(lists), old(ch.room), ch)
    {
      hide RoomsOk, ChannelsOk, Room.Linked, Left;
      var oroom := ch.room;
      if oroom != null {
        InItsRoom(ch);
        LeaveAs(oroom, ch, null);
      } else {
        NoList(ch);
      }
      ClearRoom(ch);
    }

    method ClearRoom(ch: Channel)
      requires RoomsOk(null) && ChannelsOk({ch})
      modifies ch`room
      ensures RoomsOk(null) && ChannelsOk({}) && ch.room == null
    {
      hide RoomsOk;
      ch.room := null;
    }

    method MoveTo(nrid: string, ch: Channel) returns (ok: bool)
      requires Valid() && ch in live
      modifies this`rooms, this`lists, ch`room, live`next, live`prev, rooms.Values
      ensures ok <==> Valid()
      ensures ok <==> !SoleIn(old(lists), old(ch.room), nrid, ch)
      ensures ok ==>
                && ch.room != null && ch.room.id == nrid
                && lists == Entered(Unlisted(old(lists), old(ch.room), ch), nrid, ch)
      ensures !ok ==> ch.room == old(ch.room) && lists == old(lists) - {nrid}
    {
      hide RoomsOk, ChannelsOk, Room.Linked, Left, ListOf, Unlisted;
      ghost var was, oroom := lists, ch.room;
      if oroom != null {
        InItsRoom(ch);
      }
      ChangeLists(was, oroom, nrid, ch);
      var nroom := LeaveFor(nrid, ch);
      if nroom.drop {
        ok := nroom.Put(ch);
        StaleRoom(ch);
        return;
      }
      Move(nroom, ch);
      return true;
    }

    /** Looks the new room up, then leaves the old one, which drops the new one if they are the same and it empties. */
    method LeaveFor(nrid: string, ch: Channel) returns (nroom: Room)
      requires Valid() && ch in live
      modifies this`rooms, this`lists, live`next, live`prev, rooms.Values
      ensures RoomsOk(nroom) && ChannelsOk({ch})
      ensures lists == Unlisted(if nrid in old(lists) then old(lists) else old(lists)[nrid := []], ch.room, ch)
      ensures nroom.id == nrid && (fresh(nroom) || nroom in old(rooms).Values)
      ensures nroom.drop <==> nrid !in lists
      ensures !nroom.drop ==> nrid in rooms && rooms[nrid] == nroom
      ensures nroom.drop ==> nrid !in rooms && nroom == ch.room && nroom.Linked() && nroom.members == []
    {
      hide RoomsOk, ChannelsOk, Room.Linked, Left;
      var oroom := ch.room;
      if oroom != null {
        InItsRoom(ch);
      }
      nroom := FindOrCreate(nrid, {});
      Undropped(nroom, nroom);
      SameKeys(nroom);
      if oroom != null {
        LeaveAs(oroom, ch, nroom);
        Undropped(nroom, nroom);
        SameKeys(nroom);
      } else {
        NoList(ch);
      }
    }

    lemma SameKeys(open: Room?)
      requires RoomsOk(open)
      ensures lists.Keys == rooms.Keys
    {
    }

    lemma Undropped(room: Room, open: Room?)
      requires RoomsOk(open)
      ensures room.id in rooms && rooms[room.id] == room ==> !room.drop
    {
    }

    lemma StaleRoom(ch: Channel)
      requires ch in live && ch.room != null && ch.room.id !in rooms
      ensures !ChannelsOk({})
    {
    }

    /** The end of a successful change: linked into the new list, then the room pointer follows. */
    method Move(room: Room, ch: Channel)
      requires RoomsOk(room) && ChannelsOk({ch}) && ch in live && room.id in rooms && rooms[room.id] == room
      modifies this`lists, room`next, room`online, room`members, live`next, live`prev, ch`room
      ensures RoomsOk(null) && ChannelsOk({}) && ch.room == room
      ensures lists == old(lists)[room.id := [ch] + old(lists[room.id])]
    {
      hide RoomsOk;
      Enter(room, ch);
      assert forall id :: id in lists && id != room.id ==> ch !in lists[id];
      ch.room := room;
    }
  }

  /** The failing case is reachable: a first member asks for the room it is in. */
  method SoleMemberAsksForItsRoom() returns (b: Bucket, ok: bool)
    ensures !ok && !b.Valid()
  {
    b := new Bucket();
    var ch := new Channel("key");
    var _ := b.Put("room", ch);
    assert b.lists["room"] == [ch];
    ok := b.ChangeRoom("room", ch);
  }
}
