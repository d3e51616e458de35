/**
 * The rooms service: private chat rooms, their members and their message
 * history. The two tables are kept as sequences in insertion order, with the
 * generated id of a row equal to its position plus one; timestamps are integers.
 */
module Rooms {
  import opened Wrappers
  import opened JsText
  import opened Ordering
  import OrderedMaps

  /** One element of a `memberIds` array as it comes back from the column: a number or a decimal string. */
  datatype IdValue = Num(n: int) | Text(s: string)

  /**
   * The `memberIds` column: an array (of numbers, or of strings once the
   * `simple-array` column has been read back), or a plain comma-joined string.
   */
  datatype MemberIds = List(items: seq<IdValue>) | Joined(text: string)

  datatype Permission = Permission(hasHistoryAccess: bool, joinedAt: int)

  datatype Room = Room(
    id: int,
    name: string,
    creatorId: int,
    memberIds: MemberIds,
    memberPermissions: map<int, Permission>)

  datatype RoomMessage = RoomMessage(
    id: int,
    roomId: int,
    userId: int,
    username: string,
    message: string,
    reactions: map<string, seq<string>>,
    createdAt: int)

  datatype CreateRoomDto = CreateRoomDto(name: string, memberIds: seq<int>, grantHistoryAccess: bool)

  datatype AddMemberDto = AddMemberDto(userId: int, hasHistoryAccess: bool)

  /** The exceptions the service throws, with their messages. */
  datatype Failure = NotFound(message: string) | Forbidden(message: string) | TypeError(message: string)

  const RoomNotFound := "Salon non trouv\U{E9}"
  const OnlyCreator := "Seul le cr\U{E9}ateur peut ajouter des membres"
  const AlreadyMember := "Cet utilisateur est d\U{E9}j\U{E0} membre du salon"
  const NotAMember := "Vous n'\U{EA}tes pas membre de ce salon"
  const MessageNotFound := "Message non trouv\U{E9}"
  /** Reading `hasHistoryAccess` of the missing permission entry of a member. */
  const MissingPermission := "Cannot read properties of undefined (reading 'hasHistoryAccess')"
  /** `room.memberIds.push` when the column came back as a string. */
  const PushNotAFunction := "room.memberIds.push is not a function"

  // ---------------------------------------------------------------------------
  // Normalisation of the memberIds column

  /** `typeof id === 'string' ? parseInt(id, 10) : id`; `None` stands for NaN. */
  function NormalizeId(v: IdValue): Option<int> {
    match v
    case Num(n) => Some(n)
    case Text(s) => ParseInt(s)
  }

  /** The normalised member list: each array element mapped, or `String(memberIds).split(',')` parsed. */
  function Normalize(m: MemberIds): seq<Option<int>> {
    match m
    case List(items) => seq(|items|, i requires 0 <= i < |items| => NormalizeId(items[i]))
    case Joined(text) =>
      var parts := Split(text, ',');
      seq(|parts|, i requires 0 <= i < |parts| => ParseInt(parts[i]))
  }

  /** `memberIds.includes(userId)` on the normalised list. */
  predicate IsMember(m: MemberIds, userId: int) {
    Some(userId) in Normalize(m)
  }

  function Nums(ids: seq<int>): (r: seq<IdValue>)
    ensures |r| == |ids| && forall i :: 0 <= i < |ids| ==> r[i] == Num(ids[i])
  {
    seq(|ids|, i requires 0 <= i < |ids| => Num(ids[i]))
  }

  function Somes(ids: seq<int>): (r: seq<Option<int>>)
    ensures |r| == |ids| && forall i :: 0 <= i < |ids| ==> r[i] == Some(ids[i])
  {
    seq(|ids|, i requires 0 <= i < |ids| => Some(ids[i]))
  }

  function Decimals(ids: seq<int>): (r: seq<string>)
    ensures |r| == |ids| && forall i :: 0 <= i < |ids| ==> r[i] == IntToString(ids[i])
  {
    seq(|ids|, i requires 0 <= i < |ids| => IntToString(ids[i]))
  }

  lemma SomesMembership(ids: seq<int>, u: int)
    ensures Some(u) in Somes(ids) <==> u in ids
  {
    if u in ids {
      var i :| 0 <= i < |ids| && ids[i] == u;
      assert Somes(ids)[i] == Some(u);
    }
  }

  /** An array of numbers is returned as it is. */
  lemma NormalizeNumbers(ids: seq<int>)
    ensures Normalize(List(Nums(ids))) == Somes(ids)
  {
  }

  /** An array of decimal strings (what `simple-array` reads back) parses back to the ids. */
  lemma NormalizeDecimalTexts(ids: seq<int>)
    ensures Normalize(List(seq(|ids|, i requires 0 <= i < |ids| => Text(IntToString(ids[i]))))) == Somes(ids)
  {
    forall i | 0 <= i < |ids| {
      ParseIntOfIntToString(ids[i]);
    }
  }

  /**
   * A comma-joined string of decimal ids parses back to those ids. With no ids the
   * string is empty and splits into one empty part, which parses to NaN.
   */
  lemma NormalizeJoined(ids: seq<int>)
    requires |ids| > 0
    ensures Normalize(Joined(Join(Decimals(ids), ','))) == Somes(ids)
  {
    var parts := Decimals(ids);
    forall i | 0 <= i < |parts| ensures ',' !in parts[i] {
      assert forall k :: 0 <= k < |parts[i]| ==> parts[i][k] != ',';
    }
    SplitJoin(parts, ',');
    forall i | 0 <= i < |ids| {
      ParseIntOfIntToString(ids[i]);
    }
  }

  /** Whichever form the column takes, membership is membership in the ids. */
  lemma MembershipOfForms(ids: seq<int>, u: int)
    ensures IsMember(List(Nums(ids)), u) <==> u in ids
    ensures IsMember(Joined(Join(Decimals(ids), ',')), u) <==> u in ids
  {
    NormalizeNumbers(ids);
    if ids == [] {
      assert Normalize(Joined("")) == [ParseInt("")];
    } else {
      NormalizeJoined(ids);
      SomesMembership(ids, u);
    }
  }

  /** Appending a number to the array makes exactly that user a new member. */
  lemma AppendMember(items: seq<IdValue>, u: int, v: int)
    ensures IsMember(List(items + [Num(u)]), v) <==> IsMember(List(items), v) || v == u
  {
    var before := Normalize(List(items));
    var after := Normalize(List(items + [Num(u)]));
    assert after == before + [Some(u)];
  }

  // ---------------------------------------------------------------------------
  // Member de-duplication

  /** `Array.from(new Set(s))`: each element kept at its first occurrence. */
  function Dedupe(s: seq<int>): (d: seq<int>)
    ensures forall x :: x in d <==> x in s
    ensures OrderedMaps.Distinct(d)
  {
    if s == [] then []
    else
      var d := Dedupe(s[..|s| - 1]);
      var x := s[|s| - 1];
      assert forall y :: y in s <==> y in s[..|s| - 1] || y == x by {
        assert s == s[..|s| - 1] + [x];
      }
      if x in d then d else d + [x]
  }

  /** The position of the first occurrence of `x` in `s`. */
  function FirstIndex(s: seq<int>, x: int): (i: nat)
    requires x in s
    ensures i < |s| && s[i] == x && x !in s[..i]
  {
    if s[0] == x then 0 else 1 + FirstIndex(s[1..], x)
  }

  lemma {:induction false} FirstIndexOfPrefix(s: seq<int>, n: nat, x: int)
    requires n <= |s| && x in s[..n]
    ensures FirstIndex(s, x) == FirstIndex(s[..n], x)
  {
    if s[0] != x {
      assert s[1..][..n - 1] == s[..n][1..];
      FirstIndexOfPrefix(s[1..], n - 1, x);
    }
  }

  lemma FirstIndexOfNew(s: seq<int>, x: int)
    requires s != [] && s[|s| - 1] == x && x !in s[..|s| - 1]
    ensures FirstIndex(s, x) == |s| - 1
  {
    assert forall j :: 0 <= j < |s| - 1 ==> s[..|s| - 1][j] == s[j];
  }

  /** The de-duplicated list keeps the order of first occurrences. */
  lemma {:induction false} DedupeOrder(s: seq<int>)
    ensures forall i, j :: 0 <= i < j < |Dedupe(s)| ==>
      FirstIndex(s, Dedupe(s)[i]) < FirstIndex(s, Dedupe(s)[j])
  {
    if s != [] {
      var init := s[..|s| - 1];
      var x := s[|s| - 1];
      var d0 := Dedupe(init);
      var d := Dedupe(s);
      DedupeOrder(init);
      forall y | y in init ensures FirstIndex(s, y) == FirstIndex(init, y) {
        FirstIndexOfPrefix(s, |s| - 1, y);
      }
      if x !in d0 {
        FirstIndexOfNew(s, x);
        assert d == d0 + [x];
        forall i, j | 0 <= i < j < |d| ensures FirstIndex(s, d[i]) < FirstIndex(s, d[j]) {
          assert d[i] == d0[i] && d[i] in init;
          if j < |d0| {
            assert d[j] == d0[j];
          }
        }
      }
    }
  }

  /** The first element survives in first place. */
  lemma {:induction false} DedupeHead(s: seq<int>)
    requires s != []
    ensures Dedupe(s) != [] && Dedupe(s)[0] == s[0]
  {
    if |s| > 1 {
      assert s[..|s| - 1][0] == s[0];
      DedupeHead(s[..|s| - 1]);
    }
  }

  /** A list without repeats is left as it is. */
  lemma {:induction false} DedupeOfDistinct(s: seq<int>)
    requires OrderedMaps.Distinct(s)
    ensures Dedupe(s) == s
  {
    if s != [] {
      var init := s[..|s| - 1];
      DedupeOfDistinct(init);
      assert s[|s| - 1] !in init;
      assert s == init + [s[|s| - 1]];
    }
  }

  /** The creator heads the member list and appears in it exactly once; the others follow. */
  lemma CreatorFirstAndOnce(creatorId: int, ids: seq<int>)
    ensures var all := Dedupe([creatorId] + ids);
      && |all| > 0 && all[0] == creatorId
      && (forall i :: 0 < i < |all| ==> all[i] != creatorId)
      && (forall u :: u in all <==> u == creatorId || u in ids)
  {
    DedupeHead([creatorId] + ids);
  }

  // ---------------------------------------------------------------------------
  // Queries over the tables

  function RoomId(room: Room): int {
    room.id
  }

  function MessageId(m: RoomMessage): int {
    m.id
  }

  /** `findOne({ where: { id } })` on a table: the position of the first row whose `id` is `id`. */
  function IndexOfId<T>(rows: seq<T>, rowId: T -> int, id: int): (r: Option<nat>)
    ensures r.None? <==> forall i :: 0 <= i < |rows| ==> rowId(rows[i]) != id
    ensures r.Some? ==> r.value < |rows| && rowId(rows[r.value]) == id
    ensures r.Some? ==> forall j :: 0 <= j < r.value ==> rowId(rows[j]) != id
  {
    if rows == [] then None
    else if rowId(rows[0]) == id then Some(0)
    else match IndexOfId(rows[1..], rowId, id)
      case None => None
      case Some(k) => Some(k + 1)
  }

  function IsMemberRoom(userId: int): Room -> bool {
    (room: Room) => IsMember(room.memberIds, userId)
  }

  function InRoom(roomId: int): RoomMessage -> bool {
    (m: RoomMessage) => m.roomId == roomId
  }

  function CreatedAt(m: RoomMessage): int {
    m.createdAt
  }

  function JoinedSince(joinedAt: int): RoomMessage -> bool {
    (m: RoomMessage) => m.createdAt >= joinedAt
  }

  /** `find({ where: { roomId }, order: { createdAt: 'ASC' } })`, ties in insertion order. */
  function RoomHistory(msgs: seq<RoomMessage>, roomId: int): seq<RoomMessage> {
    SortBy(Filter(msgs, InRoom(roomId)), CreatedAt)
  }

  /** The whole history of a room: exactly its messages, in ascending `createdAt`. */
  lemma RoomHistoryProperties(msgs: seq<RoomMessage>, roomId: int)
    ensures SortedBy(RoomHistory(msgs, roomId), CreatedAt)
    ensures multiset(RoomHistory(msgs, roomId)) == multiset(Filter(msgs, InRoom(roomId)))
    ensures forall m :: m in RoomHistory(msgs, roomId) <==> m in msgs && m.roomId == roomId
  {
    var f := Filter(msgs, InRoom(roomId));
    SortBySorted(f, CreatedAt);
    forall m ensures m in RoomHistory(msgs, roomId) <==> m in msgs && m.roomId == roomId {
      assert m in RoomHistory(msgs, roomId) <==> m in multiset(RoomHistory(msgs, roomId));
      assert m in f <==> m in multiset(f);
      if m in msgs && m.roomId == roomId {
        var i :| 0 <= i < |msgs| && msgs[i] == m;
      }
    }
  }

  /** The part of a history a member without history access sees: messages since joining, order kept. */
  lemma VisibleSinceProperties(history: seq<RoomMessage>, joinedAt: int)
    requires SortedBy(history, CreatedAt)
    ensures IsSubsequence(Filter(history, JoinedSince(joinedAt)), history)
    ensures SortedBy(Filter(history, JoinedSince(joinedAt)), CreatedAt)
    ensures forall m :: m in Filter(history, JoinedSince(joinedAt)) <==> m in history && m.createdAt >= joinedAt
  {
    FilterSubsequence(history, JoinedSince(joinedAt));
    FilterSorted(history, JoinedSince(joinedAt), CreatedAt);
    forall m | m in history && m.createdAt >= joinedAt ensures m in Filter(history, JoinedSince(joinedAt)) {
      var i :| 0 <= i < |history| && history[i] == m;
    }
  }

  /** The rooms table, the room-messages table, and the operations of the service on them. */
  class RoomsService {
    var rooms: seq<Room>
    var roomMessages: seq<RoomMessage>

    /** Generated ids: each row's id is its position in the table plus one. */
    ghost predicate Valid()
      reads this
    {
      && (forall i :: 0 <= i < |rooms| ==> rooms[i].id == i + 1)
      && (forall i :: 0 <= i < |roomMessages| ==> roomMessages[i].id == i + 1)
    }

    constructor()
      ensures Valid() && rooms == [] && roomMessages == []
    {
      rooms := [];
      roomMessages := [];
    }

    /**
     * The `forEach` of `createRoom` that fills `memberPermissions`: the creator
     * always has history access, every other member gets `grantHistoryAccess`,
     * and all share the same `joinedAt`.
     */
    static method BuildPermissions(allMemberIds: seq<int>, creatorId: int, grantHistoryAccess: bool, now: int)
      returns (perms: map<int, Permission>)
      ensures forall u :: u in perms <==> u in allMemberIds
      ensures forall u :: u in perms ==> perms[u].joinedAt == now
      ensures forall u :: u in perms ==> perms[u].hasHistoryAccess == (u == creatorId || grantHistoryAccess)
    {
      perms := map[];
      var i := 0;
      while i < |allMemberIds|
        invariant 0 <= i <= |allMemberIds|
        invariant forall u :: u in perms <==> u in allMemberIds[..i]
        invariant forall u :: u in perms ==> perms[u] == Permission(u == creatorId || grantHistoryAccess, now)
      {
        var memberId := allMemberIds[i];
        perms := perms[memberId := Permission(if memberId == creatorId then true else grantHistoryAccess, now)];
        assert allMemberIds[..i + 1] == allMemberIds[..i] + [memberId];
        i := i + 1;
      }
      assert allMemberIds[..i] == allMemberIds;
    }

    /** `createRoom`: the creator followed by the given members without repeats, with their permissions. */
    method CreateRoom(creatorId: int, dto: CreateRoomDto, now: int) returns (room: Room)
      requires Valid()
      modifies this
      ensures Valid()
      ensures rooms == old(rooms) + [room] && roomMessages == old(roomMessages)
      ensures room.id == |old(rooms)| + 1 && room.name == dto.name && room.creatorId == creatorId
      ensures room.memberIds == List(Nums(Dedupe([creatorId] + dto.memberIds)))
      ensures forall u :: u in room.memberPermissions <==> u == creatorId || u in dto.memberIds
      ensures forall u :: u in room.memberPermissions ==>
        room.memberPermissions[u] == Permission(u == creatorId || dto.grantHistoryAccess, now)
    {
      var allMemberIds := Dedupe([creatorId] + dto.memberIds);
      var perms := BuildPermissions(allMemberIds, creatorId, dto.grantHistoryAccess, now);
      room := Room(|rooms| + 1, dto.name, creatorId, List(Nums(allMemberIds)), perms);
      rooms := rooms + [room];
    }

    /** `getUserRooms`: exactly the rooms whose normalised members contain `userId`, in table order. */
    function GetUserRooms(userId: int): (r: seq<Room>)
      reads this
      ensures forall i :: 0 <= i < |r| ==> r[i] in rooms && IsMember(r[i].memberIds, userId)
      ensures forall i :: 0 <= i < |rooms| && IsMember(rooms[i].memberIds, userId) ==> rooms[i] in r
      ensures IsSubsequence(r, rooms)
    {
      FilterSubsequence(rooms, IsMemberRoom(userId));
      Filter(rooms, IsMemberRoom(userId))
    }

    /** `getRoomById`: the room with that id, or NotFound exactly when there is none. */
    function GetRoomById(roomId: int): (r: Result<Room, Failure>)
      reads this
      ensures r.Err? <==> forall i :: 0 <= i < |rooms| ==> rooms[i].id != roomId
      ensures r.Err? ==> r.error == NotFound(RoomNotFound)
      ensures r.Ok? ==> r.value in rooms && r.value.id == roomId
    {
      match IndexOfId(rooms, RoomId, roomId)
      case None => Err(NotFound(RoomNotFound))
      case Some(i) => Ok(rooms[i])
    }

    /**
     * `addMember`: only the creator may add, and not someone already a member;
     * on success the user goes at the end of the array with one new permission entry.
     */
    method AddMember(roomId: int, requesterId: int, dto: AddMemberDto, now: int) returns (r: Result<Room, Failure>)
      requires Valid()
      modifies this
      ensures Valid() && roomMessages == old(roomMessages)
      ensures old(GetRoomById(roomId)).Err? ==> r == Err(NotFound(RoomNotFound)) && rooms == old(rooms)
      ensures old(GetRoomById(roomId)).Ok? ==>
        var room := old(GetRoomById(roomId)).value;
        if room.creatorId != requesterId then r == Err(Forbidden(OnlyCreator)) && rooms == old(rooms)
        else if IsMember(room.memberIds, dto.userId) then r == Err(Forbidden(AlreadyMember)) && rooms == old(rooms)
        else if room.memberIds.Joined? then r == Err(TypeError(PushNotAFunction)) && rooms == old(rooms)
        else
          && r.Ok?
          && r.value == room.(
               memberIds := List(room.memberIds.items + [Num(dto.userId)]),
               memberPermissions := room.memberPermissions[dto.userId := Permission(dto.hasHistoryAccess, now)])
          && |rooms| == |old(rooms)|
          && (forall i :: 0 <= i < |rooms| ==> rooms[i] == if rooms[i].id == roomId then r.value else old(rooms)[i])
    {
      var index := IndexOfId(rooms, RoomId, roomId);
      if index.None? {
        return Err(NotFound(RoomNotFound));
      }
      var room := rooms[index.value];
      if room.creatorId != requesterId {
        return Err(Forbidden(OnlyCreator));
      }
      if IsMember(room.memberIds, dto.userId) {
        return Err(Forbidden(AlreadyMember));
      }
      if room.memberIds.Joined? {
        return Err(TypeError(PushNotAFunction));
      }
      var updated := room.(
        memberIds := List(room.memberIds.items + [Num(dto.userId)]),
        memberPermissions := room.memberPermissions[dto.userId := Permission(dto.hasHistoryAccess, now)]);
      rooms := rooms[index.value := updated];
      r := Ok(updated);
    }

    /** `saveMessage`: a new row with no reactions, stamped `now`. */
    method SaveMessage(roomId: int, userId: int, username: string, message: string, now: int)
      returns (saved: RoomMessage)
      requires Valid()
      modifies this
      ensures Valid() && rooms == old(rooms)
      ensures saved == RoomMessage(|old(roomMessages)| + 1, roomId, userId, username, message, map[], now)
      ensures roomMessages == old(roomMessages) + [saved]
    {
      saved := RoomMessage(|roomMessages| + 1, roomId, userId, username, message, map[], now);
      roomMessages := roomMessages + [saved];
    }

    /**
     * `getRoomMessages`: NotFound for an unknown room, Forbidden for a non-member;
     * a member with history access gets the whole history in ascending `createdAt`,
     * one without gets the messages stamped at or after the moment they joined.
     */
    function GetRoomMessages(roomId: int, userId: int): (r: Result<seq<RoomMessage>, Failure>)
      reads this
      ensures GetRoomById(roomId).Err? ==> r == Err(NotFound(RoomNotFound))
      ensures GetRoomById(roomId).Ok? && !IsMember(GetRoomById(roomId).value.memberIds, userId) ==>
        r == Err(Forbidden(NotAMember))
      ensures GetRoomById(roomId).Ok? && IsMember(GetRoomById(roomId).value.memberIds, userId)
        ==> (userId !in GetRoomById(roomId).value.memberPermissions <==> r == Err(TypeError(MissingPermission)))
      ensures r.Ok? <==>
        && GetRoomById(roomId).Ok?
        && IsMember(GetRoomById(roomId).value.memberIds, userId)
        && userId in GetRoomById(roomId).value.memberPermissions
    {
      match GetRoomById(roomId)
      case Err(e) => Err(e)
      case Ok(room) =>
        if !IsMember(room.memberIds, userId) then Err(Forbidden(NotAMember))
        else if userId !in room.memberPermissions then Err(TypeError(MissingPermission))
        else
          var perm := room.memberPermissions[userId];
          var all := RoomHistory(roomMessages, roomId);
          if perm.hasHistoryAccess then Ok(all) else Ok(Filter(all, JoinedSince(perm.joinedAt)))
    }

    /**
     * What a member gets from `getRoomMessages`: messages of that room only, in
     * ascending `createdAt`; with history access all of them, without it exactly
     * those stamped at or after the moment they joined, in the same order.
     */
    lemma GetRoomMessagesContents(roomId: int, userId: int)
      requires GetRoomMessages(roomId, userId).Ok?
      ensures var r := GetRoomMessages(roomId, userId).value;
        var perm := GetRoomById(roomId).value.memberPermissions[userId];
        && SortedBy(r, CreatedAt)
        && (forall m :: m in r ==> m in roomMessages && m.roomId == roomId)
        && (perm.hasHistoryAccess ==> multiset(r) == multiset(Filter(roomMessages, InRoom(roomId))))
        && (!perm.hasHistoryAccess ==>
              && IsSubsequence(r, RoomHistory(roomMessages, roomId))
              && forall m :: m in r <==> m in roomMessages && m.roomId == roomId && m.createdAt >= perm.joinedAt)
    {
      var perm := GetRoomById(roomId).value.memberPermissions[userId];
      RoomHistoryProperties(roomMessages, roomId);
      if !perm.hasHistoryAccess {
        VisibleSinceProperties(RoomHistory(roomMessages, roomId), perm.joinedAt);
      }
    }

    /** `updateMessageReactions`: replaces the reactions of one stored message, NotFound if there is none. */
    method UpdateMessageReactions(messageId: int, reactions: map<string, seq<string>>)
      returns (r: Result<RoomMessage, Failure>)
      requires Valid()
      modifies this
      ensures Valid() && rooms == old(rooms) && |roomMessages| == |old(roomMessages)|
      ensures r.Err? <==> forall i :: 0 <= i < |old(roomMessages)| ==> old(roomMessages)[i].id != messageId
      ensures r.Err? ==> r == Err(NotFound(MessageNotFound)) && roomMessages == old(roomMessages)
      ensures r.Ok? ==> r.value.id == messageId && r.value.reactions == reactions
      ensures r.Ok? ==> forall i :: 0 <= i < |roomMessages| ==>
        roomMessages[i] == if old(roomMessages)[i].id == messageId then old(roomMessages)[i].(reactions := reactions)
                           else old(roomMessages)[i]
    {
      var index := IndexOfId(roomMessages, MessageId, messageId);
      if index.None? {
        return Err(NotFound(MessageNotFound));
      }
      var updated := roomMessages[index.value].(reactions := reactions);
      roomMessages := roomMessages[index.value := updated];
      r := Ok(updated);
    }
  }
}
