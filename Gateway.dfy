/**
 * The realtime chat gateway. It keeps the clients that have connected with a
 * valid token, the clients currently typing and the reactions of messages (keyed
 * by the bare message id, general and room messages alike), and answers each
 * socket event by updating that state and emitting events. Emits are appended
 * to an event log with their target (a group of sockets or one socket); socket
 * groups are sets of client ids. Token verification is a function given at
 * construction; timestamps are integers. Each handler runs to completion.
 */
module Gateway {
  import opened Wrappers
  import opened JsText
  import opened Ordering
  import OrderedMaps
  import Reactions
  import Users
  import Rooms

  /** A socket id. */
  type ClientId = string

  datatype ConnectedUser = ConnectedUser(id: int, username: string, email: string)

  /** A row of the general chat's messages table. */
  datatype ChatMessage = ChatMessage(
    id: int,
    userId: int,
    username: string,
    message: string,
    reactions: map<string, seq<string>>,
    createdAt: int)

  /** One message of the `chatHistory` payload. */
  datatype HistoryEntry = HistoryEntry(
    id: int,
    username: string,
    message: string,
    timestamp: int,
    reactions: map<string, seq<string>>,
    displayColor: Option<string>)

  datatype Payload =
    | Presence(username: string, message: string, timestamp: int)
    | UserList(users: seq<ConnectedUser>)
    | History(entries: seq<HistoryEntry>)
    | NewMessage(id: int, username: string, message: string, timestamp: int, displayColor: Option<string>)
    | TypingNames(names: seq<string>)
    | ReactionUpdate(messageId: int, reactions: map<string, seq<string>>)
    | RoomJoined(room: Rooms.Room, messages: seq<Rooms.RoomMessage>)
    | RoomPresence(roomId: int, username: string)
    | NewRoomMessage(saved: Rooms.RoomMessage, timestamp: int, displayColor: Option<string>)
    | ErrorReport(message: string)
      /** The framework's reply to a handler that threw an error it does not know. */
    | Exception(status: string, message: string)

  datatype Target = ToGroup(group: string) | ToClient(client: ClientId)

  datatype Event = Event(target: Target, name: string, payload: Payload)

  /** The body of `startTyping` / `stopTyping`: absent, or an object whose `roomId` may be null. */
  datatype TypingData = Undefined | Body(roomId: Option<int>)

  const General := "general"

  /** The socket group of a room, `room-${roomId}`. */
  function RoomGroup(roomId: int): string {
    "room-" + IntToString(roomId)
  }

  /** No room group is the general group. */
  lemma RoomGroupNotGeneral(roomId: int)
    ensures RoomGroup(roomId) != General
  {
    assert RoomGroup(roomId)[0] == 'r';
  }

  /** Distinct rooms have distinct groups. */
  lemma RoomGroupInjective(a: int, b: int)
    requires RoomGroup(a) == RoomGroup(b)
    ensures a == b
  {
    assert RoomGroup(a)[5..] == IntToString(a);
    assert RoomGroup(b)[5..] == IntToString(b);
    IntToStringInjective(a, b);
  }

  /** `if (data.roomId)`: a room's group for a non-zero id, the general group for null or 0. */
  function TypingTarget(roomId: Option<int>): (g: string)
    ensures g == General <==> roomId.None? || roomId.value == 0
    ensures roomId.Some? && roomId.value != 0 ==> g == RoomGroup(roomId.value)
  {
    if roomId.Some? && roomId.value != 0 then
      RoomGroupNotGeneral(roomId.value);
      RoomGroup(roomId.value)
    else General
  }

  function UserJoinedText(username: string): string {
    username + " a rejoint le chat"
  }

  function UserLeftText(username: string): string {
    username + " a quitt\U{E9} le chat"
  }

  const NotAMember := "Vous n'\U{EA}tes pas membre de ce salon"

  /** What the framework sends back when a handler throws, for instance on `data.roomId` of an absent body. */
  const InternalError := Exception("error", "Internal server error")

  function ChatCreatedAt(m: ChatMessage): int {
    m.createdAt
  }

  /** `find({ order: { createdAt: 'ASC' }, take: 100 })` on the general chat's messages. */
  function HistoryWindow(chat: seq<ChatMessage>): seq<ChatMessage> {
    Take(SortBy(chat, ChatCreatedAt), 100)
  }

  /**
   * The history holds at most 100 messages, all from the table, in ascending
   * `createdAt`; none of the messages left out is earlier than one kept, and
   * with 100 messages or fewer none is left out.
   */
  lemma HistoryWindowProperties(chat: seq<ChatMessage>)
    ensures var w := HistoryWindow(chat);
      && |w| == (if |chat| < 100 then |chat| else 100)
      && SortedBy(w, ChatCreatedAt)
      && (forall m :: m in w ==> m in chat)
      && (|chat| <= 100 ==> multiset(w) == multiset(chat))
      && (forall i, j :: 0 <= i < |w| <= j < |SortBy(chat, ChatCreatedAt)| ==>
            w[i].createdAt <= SortBy(chat, ChatCreatedAt)[j].createdAt)
  {
    var sorted := SortBy(chat, ChatCreatedAt);
    SortBySorted(chat, ChatCreatedAt);
    var w := HistoryWindow(chat);
    assert |sorted| == |chat| by {
      assert |multiset(sorted)| == |multiset(chat)|;
    }
    forall m | m in w ensures m in chat {
      assert m in sorted;
      assert m in multiset(sorted);
    }
    forall i, j | 0 <= i < |w| <= j < |sorted| ensures w[i].createdAt <= sorted[j].createdAt {
      assert w[i] == sorted[i];
    }
  }

  /** One entry of `chatHistory`: the stored reactions, and the author's colour or null. */
  function Formatted(msg: ChatMessage, author: Option<Users.User>): (e: HistoryEntry)
    ensures e.id == msg.id && e.username == msg.username && e.message == msg.message
    ensures e.timestamp == msg.createdAt && e.reactions == msg.reactions
    ensures e.displayColor == Users.ColorOf(author)
  {
    HistoryEntry(msg.id, msg.username, msg.message, msg.createdAt, msg.reactions, Users.ColorOf(author))
  }

  /** `Array.from(users.values()).map(u => u.username)`. */
  function Usernames(users: seq<ConnectedUser>): (names: seq<string>)
    ensures |names| == |users| && forall i :: 0 <= i < |users| ==> names[i] == users[i].username
  {
    seq(|users|, i requires 0 <= i < |users| => users[i].username)
  }

  // ---------------------------------------------------------------------------
  // Socket groups

  function Members(groups: map<string, set<ClientId>>, g: string): set<ClientId> {
    if g in groups then groups[g] else {}
  }

  /** `client.join(g)`. */
  function WithMember(groups: map<string, set<ClientId>>, g: string, c: ClientId): (r: map<string, set<ClientId>>)
    ensures Members(r, g) == Members(groups, g) + {c}
    ensures forall h :: h != g ==> Members(r, h) == Members(groups, h)
  {
    groups[g := Members(groups, g) + {c}]
  }

  /** `client.leave(g)`. */
  function WithoutMember(groups: map<string, set<ClientId>>, g: string, c: ClientId): (r: map<string, set<ClientId>>)
    ensures Members(r, g) == Members(groups, g) - {c}
    ensures forall h :: h != g ==> Members(r, h) == Members(groups, h)
  {
    groups[g := Members(groups, g) - {c}]
  }

  /** A disconnected socket leaves every group it was in. */
  function LeftAll(groups: map<string, set<ClientId>>, c: ClientId): (r: map<string, set<ClientId>>)
    ensures forall g :: Members(r, g) == Members(groups, g) - {c}
  {
    map g | g in groups :: groups[g] - {c}
  }

  /** Every socket in a group belongs to `clients`. */
  ghost predicate GroupsWithin(groups: map<string, set<ClientId>>, clients: set<ClientId>) {
    forall g :: g in groups ==> groups[g] <= clients
  }

  /** Joining a group keeps the groups within a set that holds the new member. */
  lemma WithMemberWithin(groups: map<string, set<ClientId>>, g: string, c: ClientId, old_clients: set<ClientId>, clients: set<ClientId>)
    requires GroupsWithin(groups, old_clients) && old_clients <= clients && c in clients
    ensures GroupsWithin(WithMember(groups, g, c), clients)
  {
  }

  /** Leaving a group, or every group, keeps the groups within the set. */
  lemma LeftAllWithin(groups: map<string, set<ClientId>>, c: ClientId, clients: set<ClientId>)
    requires GroupsWithin(groups, clients)
    ensures GroupsWithin(LeftAll(groups, c), clients - {c})
  {
  }

  /** Leaving every group changes nothing for a socket in none of them. */
  lemma LeftAllAbsent(groups: map<string, set<ClientId>>, c: ClientId)
    requires forall g :: g in groups ==> c !in groups[g]
    ensures LeftAll(groups, c) == groups
  {
    forall g | g in groups ensures groups[g] - {c} == groups[g] {
    }
  }

  /**
   * The maps are well formed, the reaction store has no empty entry and no
   * repeated name, every socket in a group is a connected client, and the
   * messages table has generated ids.
   */
  ghost predicate GatewayInvariant(
    connectedUsers: OrderedMaps.OrderedMap<ClientId, ConnectedUser>,
    typingUsers: OrderedMaps.OrderedMap<ClientId, ConnectedUser>,
    messageReactions: Reactions.Store,
    groups: map<string, set<ClientId>>,
    chatMessages: seq<ChatMessage>)
  {
    && connectedUsers.Valid()
    && typingUsers.Valid()
    && Reactions.WellFormed(messageReactions)
    && GroupsWithin(groups, connectedUsers.entries.Keys)
    && (forall i :: 0 <= i < |chatMessages| ==> chatMessages[i].id == i + 1)
  }

  /** The invariant depends on the reaction store only through its shape. */
  lemma StoreChangeKeepsInvariant(
    connectedUsers: OrderedMaps.OrderedMap<ClientId, ConnectedUser>,
    typingUsers: OrderedMaps.OrderedMap<ClientId, ConnectedUser>,
    store: Reactions.Store, next: Reactions.Store,
    groups: map<string, set<ClientId>>,
    chatMessages: seq<ChatMessage>)
    requires GatewayInvariant(connectedUsers, typingUsers, store, groups, chatMessages)
    requires Reactions.WellFormed(next)
    ensures GatewayInvariant(connectedUsers, typingUsers, next, groups, chatMessages)
  {
  }

  class ChatGateway {
    var connectedUsers: OrderedMaps.OrderedMap<ClientId, ConnectedUser>
    var typingUsers: OrderedMaps.OrderedMap<ClientId, ConnectedUser>
    var messageReactions: Reactions.Store
    var groups: map<string, set<ClientId>>
    /** The general chat's messages table. */
    var chatMessages: seq<ChatMessage>
    var events: seq<Event>
    const usersService: Users.UsersService
    const roomsService: Rooms.RoomsService
    /** `jwtService.verify(token).sub`; `None` when verification throws. */
    const verify: string -> Option<int>

    /** The gateway's invariant over its fields, and the rooms service's own. */
    ghost predicate Valid()
      reads this, roomsService
    {
      GatewayInvariant(connectedUsers, typingUsers, messageReactions, groups, chatMessages) && roomsService.Valid()
    }

    constructor(usersService: Users.UsersService, roomsService: Rooms.RoomsService, verify: string -> Option<int>)
      requires roomsService.Valid()
      ensures Valid()
      ensures this.usersService == usersService && this.roomsService == roomsService && this.verify == verify
      ensures connectedUsers == OrderedMaps.Empty() && typingUsers == OrderedMaps.Empty()
      ensures messageReactions == map[] && groups == map[] && chatMessages == [] && events == []
    {
      connectedUsers := OrderedMaps.Empty();
      typingUsers := OrderedMaps.Empty();
      messageReactions := map[];
      groups := map[];
      chatMessages := [];
      events := [];
      this.usersService := usersService;
      this.roomsService := roomsService;
      this.verify := verify;
    }

    predicate IsConnected(client: ClientId)
      reads this
    {
      client in connectedUsers.entries
    }

    /** The `Promise.all` over the history: each message with its author's colour or null, in order. */
    function FormattedAll(history: seq<ChatMessage>): (entries: seq<HistoryEntry>)
      reads usersService
      ensures |entries| == |history|
      ensures forall i :: 0 <= i < |history| ==>
        entries[i] == Formatted(history[i], usersService.FindById(history[i].userId))
    {
      if history == [] then []
      else [Formatted(history[0], usersService.FindById(history[0].userId))] + FormattedAll(history[1..])
    }

    /**
     * `handleConnection`: a missing or empty token, a token that fails to
     * verify, or one whose subject is no user disconnects the socket;
     * otherwise the client is admitted.
     */
    method HandleConnection(client: ClientId, token: Option<string>, now: int)
      requires Valid()
      modifies this`connectedUsers, this`groups, this`events
      ensures Valid()
      ensures var sub := if token.Some? && token.value != "" then verify(token.value) else None;
        var user := if sub.Some? then usersService.FindById(sub.value) else None;
        if user.None? then
          && connectedUsers == old(connectedUsers).Remove(client)
          && (client !in old(connectedUsers.entries) ==>
                connectedUsers == old(connectedUsers) && groups == old(groups) && events == old(events))
          && (client in old(connectedUsers.entries) ==>
                && groups == LeftAll(old(groups), client)
                && var name := old(connectedUsers.entries[client]).username;
                   events == old(events) + [
                     Event(ToGroup(General), "userLeft", Presence(name, UserLeftText(name), now)),
                     Event(ToGroup(General), "connectedUsers", UserList(connectedUsers.Values()))])
        else
          var cu := ConnectedUser(user.value.id, user.value.username, user.value.email);
          && connectedUsers == old(connectedUsers).Put(client, cu)
          && groups == WithMember(old(groups), General, client)
          && events == old(events) + [
               Event(ToGroup(General), "userJoined", Presence(cu.username, UserJoinedText(cu.username), now)),
               Event(ToGroup(General), "connectedUsers", UserList(connectedUsers.Values())),
               Event(ToClient(client), "chatHistory", History(FormattedAll(HistoryWindow(chatMessages))))]
    {
      var sub := if token.Some? && token.value != "" then verify(token.value) else None;
      var user := if sub.Some? then usersService.FindById(sub.value) else None;
      if user.None? {
        HandleDisconnect(client, now);
      } else {
        Admit(client, ConnectedUser(user.value.id, user.value.username, user.value.email), now);
      }
    }

    /**
     * The accepting half of `handleConnection`: the client is stored under its
     * socket id (replacing any earlier entry), joins the general group, and
     * the arrival, the user list and the history are emitted.
     */
    method Admit(client: ClientId, connectedUser: ConnectedUser, now: int)
      requires Valid()
      modifies this`connectedUsers, this`groups, this`events
      ensures Valid()
      ensures connectedUsers == old(connectedUsers).Put(client, connectedUser)
      ensures client in connectedUsers.entries && connectedUsers.entries[client] == connectedUser
      ensures groups == WithMember(old(groups), General, client)
      ensures events == old(events) + [
        Event(ToGroup(General), "userJoined", Presence(connectedUser.username, UserJoinedText(connectedUser.username), now)),
        Event(ToGroup(General), "connectedUsers", UserList(connectedUsers.Values())),
        Event(ToClient(client), "chatHistory", History(FormattedAll(HistoryWindow(chatMessages))))]
    {
      var chatHistory := HistoryWindow(chatMessages);
      var formattedHistory := FormattedAll(chatHistory);
      OrderedMaps.PutValid(connectedUsers, client, connectedUser);
      ghost var clients := connectedUsers.entries.Keys;
      connectedUsers := connectedUsers.Put(client, connectedUser);
      WithMemberWithin(groups, General, client, clients, connectedUsers.entries.Keys);
      groups := WithMember(groups, General, client);
      events := events + [
        Event(ToGroup(General), "userJoined", Presence(connectedUser.username, UserJoinedText(connectedUser.username), now)),
        Event(ToGroup(General), "connectedUsers", UserList(connectedUsers.Values())),
        Event(ToClient(client), "chatHistory", History(formattedHistory))];
    }

    /**
     * `handleDisconnect`: the socket leaves its groups; a connected client is
     * removed and its departure and the new user list are emitted. The typing
     * map is left as it is.
     */
    method HandleDisconnect(client: ClientId, now: int)
      requires Valid()
      modifies this`connectedUsers, this`groups, this`events
      ensures Valid()
      ensures connectedUsers == old(connectedUsers).Remove(client)
      ensures client !in old(connectedUsers.entries) ==>
        connectedUsers == old(connectedUsers) && groups == old(groups) && events == old(events)
      ensures client in old(connectedUsers.entries) ==>
        && (forall c :: c in connectedUsers.entries <==> c in old(connectedUsers.entries) && c != client)
        && groups == LeftAll(old(groups), client)
        && var name := old(connectedUsers.entries[client]).username;
           events == old(events) + [
             Event(ToGroup(General), "userLeft", Presence(name, UserLeftText(name), now)),
             Event(ToGroup(General), "connectedUsers", UserList(connectedUsers.Values()))]
    {
      var user := connectedUsers.Get(client);
      if user.None? {
        OrderedMaps.RemoveAbsent(connectedUsers, client);
        LeftAllAbsent(groups, client);
      } else {
        groups := LeftAll(groups, client);
        OrderedMaps.RemoveValid(connectedUsers, client);
        connectedUsers := connectedUsers.Remove(client);
        events := events + [Event(ToGroup(General), "userLeft",
          Presence(user.value.username, UserLeftText(user.value.username), now))];
        events := events + [Event(ToGroup(General), "connectedUsers", UserList(connectedUsers.Values()))];
      }
    }

    /** `sendMessage`: a connected client's message is stored with no reactions and broadcast to the general group. */
    method HandleMessage(client: ClientId, message: string, now: int)
      requires Valid()
      modifies this`chatMessages, this`events
      ensures Valid()
      ensures !old(IsConnected(client)) ==> chatMessages == old(chatMessages) && events == old(events)
      ensures old(IsConnected(client)) ==>
        var user := old(connectedUsers.entries[client]);
        var saved := ChatMessage(|old(chatMessages)| + 1, user.id, user.username, message, map[], now);
        && chatMessages == old(chatMessages) + [saved]
        && events == old(events) + [Event(ToGroup(General), "newMessage",
             NewMessage(saved.id, user.username, message, now, Users.ColorOf(usersService.FindById(user.id))))]
    {
      var user := connectedUsers.Get(client);
      if user.None? {
        return;
      }
      var fullUser := usersService.FindById(user.value.id);
      var savedMessage := ChatMessage(|chatMessages| + 1, user.value.id, user.value.username, message, map[], now);
      chatMessages := chatMessages + [savedMessage];
      events := events + [Event(ToGroup(General), "newMessage",
        NewMessage(savedMessage.id, user.value.username, message, now, Users.ColorOf(fullUser)))];
    }

    /** `getConnectedUsers`: the user list to the asking socket, connected or not. */
    method HandleGetConnectedUsers(client: ClientId)
      requires Valid()
      modifies this`events
      ensures Valid()
      ensures events == old(events) + [Event(ToClient(client), "connectedUsers", UserList(connectedUsers.Values()))]
    {
      events := events + [Event(ToClient(client), "connectedUsers", UserList(connectedUsers.Values()))];
    }

    /**
     * `startTyping`: the client is recorded in the one typing map shared by all
     * groups, and the names of every typing client go to the room's group or the
     * general group. An absent body throws once the map is updated.
     */
    method HandleStartTyping(client: ClientId, data: TypingData)
      requires Valid()
      modifies this`typingUsers, this`events
      ensures Valid()
      ensures !old(IsConnected(client)) ==> typingUsers == old(typingUsers) && events == old(events)
      ensures old(IsConnected(client)) ==>
        && typingUsers == old(typingUsers).Put(client, connectedUsers.entries[client])
        && client in typingUsers.entries
        && (old(typingUsers.Get(client)) == Some(connectedUsers.entries[client]) ==> typingUsers == old(typingUsers))
        && events == old(events) + [
             if data.Undefined? then Event(ToClient(client), "exception", InternalError)
             else Event(ToGroup(TypingTarget(data.roomId)), "typingUsers",
                        TypingNames(Usernames(typingUsers.Values())))]
    {
      var user := connectedUsers.Get(client);
      if user.Some? {
        OrderedMaps.PutValid(typingUsers, client, user.value);
        if typingUsers.Get(client) == Some(user.value) {
          OrderedMaps.PutUnchanged(typingUsers, client, user.value);
        }
        typingUsers := typingUsers.Put(client, user.value);
        var typingUsernames := Usernames(typingUsers.Values());
        if data.Undefined? {
          events := events + [Event(ToClient(client), "exception", InternalError)];
        } else {
          events := events + [Event(ToGroup(TypingTarget(data.roomId)), "typingUsers", TypingNames(typingUsernames))];
        }
      }
    }

    /** `stopTyping`: the client leaves the typing map and the remaining names are broadcast as for `startTyping`. */
    method HandleStopTyping(client: ClientId, data: TypingData)
      requires Valid()
      modifies this`typingUsers, this`events
      ensures Valid()
      ensures !old(IsConnected(client)) ==> typingUsers == old(typingUsers) && events == old(events)
      ensures old(IsConnected(client)) ==>
        && typingUsers == old(typingUsers).Remove(client)
        && client !in typingUsers.entries
        && (client !in old(typingUsers.entries) ==> typingUsers == old(typingUsers))
        && events == old(events) + [
             if data.Undefined? then Event(ToClient(client), "exception", InternalError)
             else Event(ToGroup(TypingTarget(data.roomId)), "typingUsers",
                        TypingNames(Usernames(typingUsers.Values())))]
    {
      var user := connectedUsers.Get(client);
      if user.Some? {
        OrderedMaps.RemoveValid(typingUsers, client);
        if client !in typingUsers.entries {
          OrderedMaps.RemoveAbsent(typingUsers, client);
        }
        typingUsers := typingUsers.Remove(client);
        var typingUsernames := Usernames(typingUsers.Values());
        if data.Undefined? {
          events := events + [Event(ToClient(client), "exception", InternalError)];
        } else {
          events := events + [Event(ToGroup(TypingTarget(data.roomId)), "typingUsers", TypingNames(typingUsernames))];
        }
      }
    }

    /**
     * `addReaction`: the message's map and the emoji's list are created when
     * missing and the client's name is pushed unless already there; the
     * message's reactions are broadcast to the general group.
     */
    method HandleAddReaction(client: ClientId, messageId: int, emoji: string)
      requires Valid()
      modifies this`messageReactions, this`events
      ensures Valid()
      ensures !old(IsConnected(client)) ==> messageReactions == old(messageReactions) && events == old(events)
      ensures old(IsConnected(client)) ==>
        var name := connectedUsers.entries[client].username;
        && messageReactions == Reactions.Added(old(messageReactions), messageId, emoji, name)
        && events == old(events) + [Event(ToGroup(General), "reactionAdded",
             ReactionUpdate(messageId, messageReactions[messageId]))]
    {
      var user := connectedUsers.Get(client);
      if user.Some? {
        var next, reactionsObj := Reactions.AddReaction(messageReactions, messageId, emoji, user.value.username);
        messageReactions := next;
        events := events + [Event(ToGroup(General), "reactionAdded", ReactionUpdate(messageId, reactionsObj))];
      }
    }

    /**
     * `removeReaction`: nothing happens for a message or emoji without
     * reactions; otherwise the client's name is spliced out, an emptied emoji and
     * then an emptied message are dropped, and what is left of the message's
     * reactions is broadcast to the general group.
     */
    method HandleRemoveReaction(client: ClientId, messageId: int, emoji: string)
      requires Valid()
      modifies this`messageReactions, this`events
      ensures Valid()
      ensures (!IsConnected(client) || messageId !in old(messageReactions) || emoji !in old(messageReactions[messageId])) ==>
        messageReactions == old(messageReactions) && events == old(events)
      ensures IsConnected(client) && messageId in old(messageReactions) && emoji in old(messageReactions[messageId]) ==>
        var name := connectedUsers.entries[client].username;
        && messageReactions == Reactions.Removed(old(messageReactions), messageId, emoji, name)
        && events == old(events) + [Event(ToGroup(General), "reactionRemoved",
             ReactionUpdate(messageId, Reactions.RemovedAggregate(old(messageReactions[messageId]), emoji, name)))]
    {
      var user := connectedUsers.Get(client);
      if user.Some? && messageId in messageReactions && emoji in messageReactions[messageId] {
        RemoveAndBroadcast(messageId, emoji, user.value.username);
      }
    }

    /** The part of `removeReaction` past its guards: the store updated, the message's reactions broadcast. */
    method RemoveAndBroadcast(messageId: int, emoji: string, name: string)
      requires Valid() && messageId in messageReactions && emoji in messageReactions[messageId]
      modifies this`messageReactions, this`events
      ensures Valid()
      ensures messageReactions == Reactions.Removed(old(messageReactions), messageId, emoji, name)
      ensures events == old(events) + [Event(ToGroup(General), "reactionRemoved",
        ReactionUpdate(messageId, Reactions.RemovedAggregate(old(messageReactions[messageId]), emoji, name)))]
    {
      var next, reactionsObj := Reactions.RemoveReaction(messageReactions, messageId, emoji, name);
      StoreChangeKeepsInvariant(connectedUsers, typingUsers, messageReactions, next, groups, chatMessages);
      messageReactions := next;
      events := events + [Event(ToGroup(General), "reactionRemoved", ReactionUpdate(messageId, reactionsObj))];
    }

    /**
     * `joinRoom`: an unknown room or a client that is not among its members
     * gets an `error` and joins nothing; a member joins the room's group, then
     * gets the room with the messages it may see, and the group hears of it.
     * A failure while loading the messages is reported to the client, which
     * stays in the group.
     */
    method HandleJoinRoom(client: ClientId, roomId: int)
      requires Valid()
      modifies this`groups, this`events
      ensures Valid()
      ensures !IsConnected(client) ==> groups == old(groups) && events == old(events)
      ensures IsConnected(client) ==>
        var user := connectedUsers.entries[client];
        var room := roomsService.GetRoomById(roomId);
        if room.Err? then
          groups == old(groups) && events == old(events) + [Event(ToClient(client), "error", ErrorReport(room.error.message))]
        else if !Rooms.IsMember(room.value.memberIds, user.id) then
          groups == old(groups) && events == old(events) + [Event(ToClient(client), "error", ErrorReport(NotAMember))]
        else
          && groups == WithMember(old(groups), RoomGroup(roomId), client)
          && var messages := roomsService.GetRoomMessages(roomId, user.id);
             events == old(events) + (
               if messages.Err? then [Event(ToClient(client), "error", ErrorReport(messages.error.message))]
               else [Event(ToClient(client), "roomJoined", RoomJoined(room.value, messages.value)),
                     Event(ToGroup(RoomGroup(roomId)), "userJoinedRoom", RoomPresence(roomId, user.username))])
    {
      var user := connectedUsers.Get(client);
      if user.None? {
        return;
      }
      var room := roomsService.GetRoomById(roomId);
      if room.Err? {
        events := events + [Event(ToClient(client), "error", ErrorReport(room.error.message))];
      } else if !Rooms.IsMember(room.value.memberIds, user.value.id) {
        events := events + [Event(ToClient(client), "error", ErrorReport(NotAMember))];
      } else {
        JoinMember(client, roomId, room.value, user.value);
      }
    }

    /**
     * The part of `joinRoom` for a member: the client joins the room's group,
     * then gets the room and its messages, or the error loading them raised.
     */
    method JoinMember(client: ClientId, roomId: int, room: Rooms.Room, user: ConnectedUser)
      requires Valid() && IsConnected(client)
      modifies this`groups, this`events
      ensures Valid()
      ensures groups == WithMember(old(groups), RoomGroup(roomId), client)
      ensures var messages := roomsService.GetRoomMessages(roomId, user.id);
        events == old(events) + (
          if messages.Err? then [Event(ToClient(client), "error", ErrorReport(messages.error.message))]
          else [Event(ToClient(client), "roomJoined", RoomJoined(room, messages.value)),
                Event(ToGroup(RoomGroup(roomId)), "userJoinedRoom", RoomPresence(roomId, user.username))])
    {
      var messages := roomsService.GetRoomMessages(roomId, user.id);
      ghost var clients := connectedUsers.entries.Keys;
      WithMemberWithin(groups, RoomGroup(roomId), client, clients, clients);
      groups := WithMember(groups, RoomGroup(roomId), client);
      if messages.Err? {
        events := events + [Event(ToClient(client), "error", ErrorReport(messages.error.message))];
      } else {
        events := events + [Event(ToClient(client), "roomJoined", RoomJoined(room, messages.value)),
                            Event(ToGroup(RoomGroup(roomId)), "userJoinedRoom", RoomPresence(roomId, user.username))];
      }
    }

    /**
     * `sendRoomMessage`: the message is stored in the room's table and
     * broadcast to the room's group. Membership of the room is not checked.
     */
    method HandleRoomMessage(client: ClientId, roomId: int, message: string, now: int)
      requires Valid()
      modifies this`events, roomsService
      ensures Valid()
      ensures !IsConnected(client) ==> events == old(events) && unchanged(roomsService)
      ensures IsConnected(client) ==>
        var user := connectedUsers.entries[client];
        var saved := Rooms.RoomMessage(|old(roomsService.roomMessages)| + 1, roomId, user.id, user.username, message, map[], now);
        && roomsService.roomMessages == old(roomsService.roomMessages) + [saved]
        && roomsService.rooms == old(roomsService.rooms)
        && events == old(events) + [Event(ToGroup(RoomGroup(roomId)), "newRoomMessage",
             NewRoomMessage(saved, now, Users.ColorOf(usersService.FindById(user.id))))]
    {
      var user := connectedUsers.Get(client);
      if user.None? {
        return;
      }
      var fullUser := usersService.FindById(user.value.id);
      var savedMessage := roomsService.SaveMessage(roomId, user.value.id, user.value.username, message, now);
      events := events + [Event(ToGroup(RoomGroup(roomId)), "newRoomMessage",
        NewRoomMessage(savedMessage, now, Users.ColorOf(fullUser)))];
    }

    /** `leaveRoom`: the client leaves the room's group, which hears of it. */
    method HandleLeaveRoom(client: ClientId, roomId: int)
      requires Valid()
      modifies this`groups, this`events
      ensures Valid()
      ensures !IsConnected(client) ==> groups == old(groups) && events == old(events)
      ensures IsConnected(client) ==>
        && groups == WithoutMember(old(groups), RoomGroup(roomId), client)
        && events == old(events) + [Event(ToGroup(RoomGroup(roomId)), "userLeftRoom",
             RoomPresence(roomId, connectedUsers.entries[client].username))]
    {
      var user := connectedUsers.Get(client);
      if user.None? {
        return;
      }
      groups := WithoutMember(groups, RoomGroup(roomId), client);
      events := events + [Event(ToGroup(RoomGroup(roomId)), "userLeftRoom", RoomPresence(roomId, user.value.username))];
    }
  }
}
